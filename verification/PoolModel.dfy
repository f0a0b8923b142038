/** The memory pool of memory_pool.c on values: what each operation does to the
    chain of blocks, to the list of large regions and to the malloc heap.
    MemoryPool.dfy proves the pointer code against these functions. */
module PoolModel {

  // uintptr_t and size_t are 32 bits wide on the ARM board the client runs on.
  const WORD: nat := 0x1_0000_0000
  // sizeof(memory_pool_t) and sizeof(memory_pool_large_data_t) there.
  const HEADER: nat := 28
  const NODE: nat := 8

  // ---------------------------------------------------------------- the pool

  datatype Block = Block(addr: nat, last: nat, end: nat, failed: nat)

  // alloc is 0 for NULL.
  datatype Node = Node(addr: nat, alloc: nat)

  // blocks is the chain from the head; current is a position in it.
  datatype Pool = Pool(max: nat, blocks: seq<Block>, current: nat, large: seq<Node>)

  // The macro align_ptr(d, 4).
  function AlignPtr(d: nat): nat {
    (d + 3) % WORD / 4 * 4
  }

  // (size_t)(p->d.end - m): the difference wraps when m lies beyond the end.
  function Room(b: Block): nat {
    (b.end - AlignPtr(b.last)) % WORD
  }

  function FirstFit(blocks: seq<Block>, from: nat, size: nat): (k: nat)
    requires from <= |blocks|
    ensures from <= k <= |blocks|
    ensures k < |blocks| ==> Room(blocks[k]) >= size
    ensures forall i :: from <= i < k ==> Room(blocks[i]) < size
    decreases |blocks| - from
  {
    if from == |blocks| || Room(blocks[from]) >= size then from else FirstFit(blocks, from + 1, size)
  }

  function FindSlot(large: seq<Node>, v: nat): (k: nat)
    ensures k <= |large|
    ensures k < |large| ==> large[k].alloc == v
    ensures forall i :: 0 <= i < k ==> large[i].alloc != v
  {
    if large == [] || large[0].alloc == v then 0 else 1 + FindSlot(large[1..], v)
  }

  // Where an allocation is served from.
  datatype Route = FromBlock(k: nat) | NewBlock | ReuseSlot(k: nat) | PushNode

  function RouteOf(p: Pool, size: nat): Route
    requires p.current <= |p.blocks|
  {
    if size <= p.max then
      var k := FirstFit(p.blocks, p.current, size);
      if k < |p.blocks| then FromBlock(k) else NewBlock
    else
      // only the first four nodes are examined
      var k := FindSlot(p.large, 0);
      if k < |p.large| && k < 4 then ReuseSlot(k) else PushNode
  }

  function Bumped(b: Block, size: nat): Block {
    b.(last := (AlignPtr(b.last) + size) % WORD)
  }

  // The scan of memory_pool_alloc_block: which block ends up as current ...
  function ScanCurrent(blocks: seq<Block>, i: nat, cur: nat): nat
    decreases |blocks| - i
  {
    if i + 1 >= |blocks| then cur
    else ScanCurrent(blocks, i + 1, if blocks[i].failed > 4 then i + 1 else cur)
  }

  // ... and what it does to the counters.
  function Charged(blocks: seq<Block>, from: nat): (r: seq<Block>)
    ensures |r| == |blocks|
  {
    seq(|blocks|, i requires 0 <= i < |blocks| =>
      if from <= i < |blocks| - 1 then blocks[i].(failed := (blocks[i].failed + 1) % WORD) else blocks[i])
  }

  // malloc a block for size bytes and link it right after the head.
  function AddBlock(p: Pool, size: nat, a: nat): Pool
    requires |p.blocks| > 0
  {
    var was := Charged(p.blocks, p.current);
    var cur := ScanCurrent(p.blocks, p.current, p.current);
    Pool(p.max, [was[0], Block(a, a + HEADER, a + HEADER + size, 0)] + was[1..],
         if cur == 0 then 0 else cur + 1, p.large)
  }

  function AllocPool(p: Pool, size: nat, a: nat, n: nat): Pool
    requires p.current < |p.blocks|
  {
    match RouteOf(p, size)
    case FromBlock(k) => p.(blocks := p.blocks[k := Bumped(p.blocks[k], size)])
    case NewBlock => AddBlock(p, size, a)
    case ReuseSlot(k) => p.(large := p.large[k := p.large[k].(alloc := a)])
    case PushNode => p.(large := [Node(n, a)] + p.large)
  }

  // The pointer memory_pool_alloc returns.
  function AllocResult(p: Pool, size: nat, a: nat): nat
    requires p.current < |p.blocks|
  {
    match RouteOf(p, size)
    case FromBlock(k) => AlignPtr(p.blocks[k].last)
    case NewBlock => AlignPtr(a + HEADER)
    case ReuseSlot(_) => a
    case PushNode => a
  }

  function FreePool(p: Pool, q: nat): Pool {
    var k := FindSlot(p.large, q);
    if k < |p.large| then p.(large := p.large[k := p.large[k].(alloc := 0)]) else p
  }

  function FreeResult(p: Pool, q: nat): int {
    if FindSlot(p.large, q) < |p.large| then 0 else -1
  }

  // The argument of malloc, in 32 bits.
  function MallocSize(size: nat): nat {
    (size + HEADER) % WORD
  }

  function CreatePool(size: nat, a: nat): Pool {
    Pool(size, [Block(a, (a + HEADER) % WORD, (a + size + HEADER) % WORD, 0)], 0, [])
  }

  // ---------------------------------------------------------------- the heap

  // Live malloc regions: address to size.
  type HeapMap = map<nat, nat>

  predicate Apart(a: nat, m: nat, b: nat, n: nat) {
    a + m <= b || b + n <= a
  }

  // What malloc promises about a successful call for n bytes.
  predicate Grants(heap: HeapMap, a: nat, n: nat) {
    && 0 < a && a % 4 == 0 && 0 < n && a + n <= WORD - 4
    && (forall b :: b in heap ==> Apart(a, n, b, heap[b]))
  }

  predicate HeapOk(heap: HeapMap) {
    && (forall a :: a in heap ==> 0 < a && a % 4 == 0 && 0 < heap[a] && a + heap[a] <= WORD - 4)
    && (forall a, b :: a in heap && b in heap && a != b ==> Apart(a, heap[a], b, heap[b]))
  }

  // The malloc calls an allocation makes are granted.
  predicate AllocGranted(heap: HeapMap, p: Pool, size: nat, a: nat, n: nat)
    requires p.current < |p.blocks|
  {
    match RouteOf(p, size)
    case FromBlock(_) => true
    case NewBlock => Grants(heap, a, size + HEADER)
    case ReuseSlot(_) => Grants(heap, a, size)
    case PushNode => Grants(heap, a, size) && Grants(heap[a := size], n, NODE)
  }

  function AllocHeap(heap: HeapMap, p: Pool, size: nat, a: nat, n: nat): HeapMap
    requires p.current < |p.blocks|
  {
    match RouteOf(p, size)
    case FromBlock(_) => heap
    case NewBlock => heap[a := size + HEADER]
    case ReuseSlot(_) => heap[a := size]
    case PushNode => heap[a := size][n := NODE]
  }

  function FreeHeap(heap: HeapMap, p: Pool, q: nat): HeapMap {
    if q != 0 && FindSlot(p.large, q) < |p.large| then heap - {q} else heap
  }

  // ------------------------------------------------------- what a pool owns

  ghost predicate NodeOk(heap: HeapMap, n: Node) {
    n.addr in heap && n.addr != 0 && n.addr != n.alloc && (n.alloc != 0 ==> n.alloc in heap)
  }

  ghost predicate NodesApart(m: Node, n: Node) {
    m.addr != n.addr && m.addr != n.alloc && n.addr != m.alloc && (m.alloc != 0 ==> m.alloc != n.alloc)
  }

  ghost predicate LargeOk(heap: HeapMap, large: seq<Node>) {
    && (forall i :: 0 <= i < |large| ==> NodeOk(heap, large[i]))
    && (forall i, j :: 0 <= i < j < |large| ==> NodesApart(large[i], large[j]))
  }

  ghost predicate BlocksOk(heap: HeapMap, blocks: seq<Block>) {
    && (forall i :: 0 <= i < |blocks| ==>
          blocks[i].addr in heap && blocks[i].addr != 0 && heap[blocks[i].addr] >= HEADER &&
          blocks[i].end == blocks[i].addr + heap[blocks[i].addr])
    && (forall i, j :: 0 <= i < j < |blocks| ==> blocks[i].addr != blocks[j].addr)
  }

  ghost predicate Unshared(blocks: seq<Block>, large: seq<Node>) {
    forall i, j :: 0 <= i < |blocks| && 0 <= j < |large| ==>
      blocks[i].addr != large[j].addr && blocks[i].addr != large[j].alloc
  }

  // Every pointer of the pool is a live malloc region of its own.
  ghost predicate Owns(heap: HeapMap, p: Pool) {
    && p.current < |p.blocks|
    && BlocksOk(heap, p.blocks)
    && LargeOk(heap, p.large)
    && Unshared(p.blocks, p.large)
  }

  lemma OwnsInBiggerHeap(small: HeapMap, heap: HeapMap, p: Pool)
    requires Owns(small, p)
    requires forall b :: b in small ==> b in heap && heap[b] == small[b]
    ensures Owns(heap, p)
  {
    forall i | 0 <= i < |p.large| ensures NodeOk(heap, p.large[i]) {
      assert NodeOk(small, p.large[i]);
    }
  }

  lemma OwnsAfterBump(heap: HeapMap, p: Pool, k: nat, size: nat)
    requires Owns(heap, p) && k < |p.blocks|
    ensures Owns(heap, p.(blocks := p.blocks[k := Bumped(p.blocks[k], size)]))
  {
  }

  lemma ChargedKeeps(blocks: seq<Block>, from: nat)
    ensures forall i :: 0 <= i < |blocks| ==>
      Charged(blocks, from)[i].addr == blocks[i].addr && Charged(blocks, from)[i].end == blocks[i].end &&
      Charged(blocks, from)[i].last == blocks[i].last
  {
  }

  // How positions move when a block is linked after the head.
  lemma AddBlockAt(p: Pool, size: nat, a: nat)
    requires p.current < |p.blocks|
    ensures var q := AddBlock(p, size, a);
      && |q.blocks| == |p.blocks| + 1
      && q.blocks[1] == Block(a, a + HEADER, a + HEADER + size, 0)
      && q.max == p.max && q.large == p.large
      && (forall i :: 0 <= i < |p.blocks| ==>
            q.blocks[if i == 0 then 0 else i + 1] == Charged(p.blocks, p.current)[i])
  {
  }

  lemma AddBlockShifts(p: Pool, size: nat, a: nat)
    requires p.current < |p.blocks|
    ensures |AddBlock(p, size, a).blocks| == |p.blocks| + 1
    ensures AddBlock(p, size, a).blocks[0] == Charged(p.blocks, p.current)[0]
    ensures AddBlock(p, size, a).blocks[1].failed == 0
    ensures forall i :: 2 <= i <= |p.blocks| ==> AddBlock(p, size, a).blocks[i] == Charged(p.blocks, p.current)[i - 1]
  {
  }

  lemma ScanInChain(blocks: seq<Block>, i: nat, cur: nat)
    requires i < |blocks| && cur <= i
    ensures cur <= ScanCurrent(blocks, i, cur) < |blocks|
    decreases |blocks| - i
  {
  }

  // Address and end of a block: what a bump or a charge leaves alone.
  predicate SamePlace(b: Block, c: Block) {
    b.addr == c.addr && b.end == c.end
  }

  // Block i of the longer chain is the new one or has the place of an old one.
  lemma PlacesAfterAdd(p: Pool, size: nat, a: nat, i: nat)
    requires p.current < |p.blocks| && i <= |p.blocks|
    ensures |AddBlock(p, size, a).blocks| == |p.blocks| + 1
    ensures if i == 1 then SamePlace(AddBlock(p, size, a).blocks[1], Block(a, 0, a + HEADER + size, 0))
            else SamePlace(AddBlock(p, size, a).blocks[i], p.blocks[if i == 0 then 0 else i - 1])
  {
    AddBlockAt(p, size, a);
    AddBlockShifts(p, size, a);
    ChargedKeeps(p.blocks, p.current);
  }

  lemma OwnsAfterAddBlock(heap: HeapMap, p: Pool, size: nat, a: nat)
    requires Owns(heap, p) && HeapOk(heap) && Grants(heap, a, size + HEADER)
    ensures Owns(heap[a := size + HEADER], AddBlock(p, size, a))
  {
    var grown, q := heap[a := size + HEADER], AddBlock(p, size, a);
    GrantedIsFresh(heap, a, size + HEADER);
    FreshIsUnused(heap, p, a);
    OwnsInBiggerHeap(heap, grown, p);
    ScanInChain(p.blocks, p.current, p.current);
    forall i | 0 <= i < |q.blocks|
      ensures if i == 1 then SamePlace(q.blocks[1], Block(a, 0, a + HEADER + size, 0))
              else SamePlace(q.blocks[i], p.blocks[if i == 0 then 0 else i - 1])
    {
      PlacesAfterAdd(p, size, a, i);
    }
    PlacedOwns(grown, p, q, size, a);
  }

  lemma PlacedOwns(heap: HeapMap, p: Pool, q: Pool, size: nat, a: nat)
    requires Owns(heap, p) && Unused(p, a) && a in heap && a != 0 && heap[a] == size + HEADER
    requires |q.blocks| == |p.blocks| + 1 && q.large == p.large && q.current < |q.blocks|
    requires forall i :: 0 <= i < |q.blocks| ==>
      if i == 1 then SamePlace(q.blocks[1], Block(a, 0, a + HEADER + size, 0))
      else SamePlace(q.blocks[i], p.blocks[if i == 0 then 0 else i - 1])
    ensures Owns(heap, q)
  {
  }

  // A slot that takes an address nothing else in the pool has, or is emptied.
  lemma OwnsAfterSlot(heap: HeapMap, p: Pool, k: nat, a: nat)
    requires Owns(heap, p) && k < |p.large|
    requires a != 0 ==> a in heap && Unused(p, a)
    ensures Owns(heap, p.(large := p.large[k := p.large[k].(alloc := a)]))
  {
    var large := p.large[k := p.large[k].(alloc := a)];
    forall i | 0 <= i < |large| ensures NodeOk(heap, large[i]) {
      assert NodeOk(heap, p.large[i]);
    }
    forall i, j | 0 <= i < j < |large| ensures NodesApart(large[i], large[j]) {
      assert NodesApart(p.large[i], p.large[j]);
      assert NodeOk(heap, p.large[i]) && NodeOk(heap, p.large[j]);
    }
  }

  ghost predicate Unused(p: Pool, a: nat) {
    && (forall i :: 0 <= i < |p.blocks| ==> p.blocks[i].addr != a)
    && (forall i :: 0 <= i < |p.large| ==> p.large[i].addr != a && p.large[i].alloc != a)
  }

  lemma FreshIsUnused(heap: HeapMap, p: Pool, a: nat)
    requires Owns(heap, p) && a !in heap && a != 0
    ensures Unused(p, a)
  {
    forall i | 0 <= i < |p.large| ensures p.large[i].addr != a && p.large[i].alloc != a {
      assert NodeOk(heap, p.large[i]);
    }
  }

  lemma OwnsAfterPush(heap: HeapMap, p: Pool, a: nat, n: nat)
    requires Owns(heap, p) && a in heap && n in heap && a != n && a != 0 && n != 0
    requires Unused(p, a) && Unused(p, n)
    ensures Owns(heap, p.(large := [Node(n, a)] + p.large))
  {
    var large := [Node(n, a)] + p.large;
    forall i | 0 <= i < |large| ensures NodeOk(heap, large[i]) {
      if i > 0 { assert NodeOk(heap, p.large[i - 1]); }
    }
    forall i, j | 0 <= i < j < |large| ensures NodesApart(large[i], large[j]) {
      if i > 0 { assert NodesApart(p.large[i - 1], p.large[j - 1]); }
    }
  }

  lemma OwnsAfterFree(heap: HeapMap, p: Pool, q: nat)
    requires Owns(heap, p)
    ensures Owns(FreeHeap(heap, p, q), FreePool(p, q))
    ensures q != 0 && FreeResult(p, q) == 0 ==> q in heap
  {
    var k := FindSlot(p.large, q);
    if k < |p.large| {
      assert NodeOk(heap, p.large[k]);
      OwnsAfterSlot(heap, p, k, 0);
      if q != 0 { OwnsInSmallerHeap(heap, p, k); }
    }
  }

  lemma OwnsInSmallerHeap(heap: HeapMap, p: Pool, k: nat)
    requires Owns(heap, p) && k < |p.large| && p.large[k].alloc != 0
    ensures Owns(heap - {p.large[k].alloc}, p.(large := p.large[k := p.large[k].(alloc := 0)]))
  {
    var q := p.large[k].alloc;
    var large := p.large[k := p.large[k].(alloc := 0)];
    OwnsAfterSlot(heap, p, k, 0);
    forall i | 0 <= i < |large| ensures NodeOk(heap - {q}, large[i]) {
      assert NodeOk(heap, p.large[i]);
      if i < k { assert NodesApart(p.large[i], p.large[k]); }
      if k < i { assert NodesApart(p.large[k], p.large[i]); }
    }
  }

  lemma GrantedIsFresh(heap: HeapMap, a: nat, n: nat)
    requires HeapOk(heap) && Grants(heap, a, n)
    ensures a !in heap && HeapOk(heap[a := n])
    ensures forall b :: b in heap ==> b in heap[a := n] && heap[a := n][b] == heap[b]
  {
  }

  // Where nothing wraps, a new pool is its head block with size free bytes.
  lemma CreateFits(size: nat, a: nat)
    requires a + size + HEADER <= WORD - 4
    ensures MallocSize(size) == size + HEADER
    ensures CreatePool(size, a) == Pool(size, [Block(a, a + HEADER, a + HEADER + size, 0)], 0, [])
  {
  }

  lemma OwnsAfterCreate(heap: HeapMap, size: nat, a: nat)
    requires HeapOk(heap) && Grants(heap, a, size + HEADER)
    ensures HeapOk(heap[a := size + HEADER]) && Owns(heap[a := size + HEADER], CreatePool(size, a))
  {
    GrantedIsFresh(heap, a, size + HEADER);
    CreateFits(size, a);
  }

  lemma OwnsAfterLarge(heap: HeapMap, p: Pool, size: nat, a: nat, n: nat)
    requires Owns(heap, p) && HeapOk(heap) && AllocGranted(heap, p, size, a, n)
    requires RouteOf(p, size).ReuseSlot? || RouteOf(p, size).PushNode?
    ensures Owns(AllocHeap(heap, p, size, a, n), AllocPool(p, size, a, n))
  {
    var grown := heap[a := size];
    GrantedIsFresh(heap, a, size);
    FreshIsUnused(heap, p, a);
    OwnsInBiggerHeap(heap, grown, p);
    match RouteOf(p, size)
    case ReuseSlot(k) => OwnsAfterSlot(grown, p, k, a);
    case PushNode =>
      GrantedIsFresh(grown, n, NODE);
      FreshIsUnused(grown, p, n);
      OwnsInBiggerHeap(grown, grown[n := NODE], p);
      OwnsAfterPush(grown[n := NODE], p, a, n);
  }

  lemma FoundIfThere(large: seq<Node>, v: nat, k: nat)
    requires k < |large| && large[k].alloc == v
    ensures FindSlot(large, v) < |large|
  {
  }

  // A large request returns a new region of its size, which the list then holds.
  lemma LargeIsKept(heap: HeapMap, p: Pool, size: nat, a: nat, n: nat)
    requires p.current < |p.blocks| && p.max < size && HeapOk(heap) && AllocGranted(heap, p, size, a, n)
    ensures var m, live, q := AllocResult(p, size, a), AllocHeap(heap, p, size, a, n), AllocPool(p, size, a, n);
      && m == a && m !in heap && m in live && live[m] == size && 0 < m && m % 4 == 0 && m + size <= WORD
      && FindSlot(q.large, m) < |q.large|
  {
    GrantedIsFresh(heap, a, size);
    match RouteOf(p, size)
    case ReuseSlot(k) => FoundIfThere(AllocPool(p, size, a, n).large, a, k);
    case PushNode =>
      GrantedIsFresh(heap[a := size], n, NODE);
      FoundIfThere(AllocPool(p, size, a, n).large, a, 0);
  }

  lemma HeapAfterAlloc(heap: HeapMap, p: Pool, size: nat, a: nat, n: nat)
    requires p.current < |p.blocks| && HeapOk(heap) && AllocGranted(heap, p, size, a, n)
    ensures HeapOk(AllocHeap(heap, p, size, a, n))
    ensures forall b :: b in heap ==> b in AllocHeap(heap, p, size, a, n) && AllocHeap(heap, p, size, a, n)[b] == heap[b]
  {
    match RouteOf(p, size)
    case FromBlock(_) =>
    case NewBlock => GrantedIsFresh(heap, a, size + HEADER);
    case ReuseSlot(_) => GrantedIsFresh(heap, a, size);
    case PushNode =>
      GrantedIsFresh(heap, a, size);
      GrantedIsFresh(heap[a := size], n, NODE);
  }

  lemma OwnsAfterAlloc(heap: HeapMap, p: Pool, size: nat, a: nat, n: nat)
    requires Owns(heap, p) && HeapOk(heap) && AllocGranted(heap, p, size, a, n)
    ensures Owns(AllocHeap(heap, p, size, a, n), AllocPool(p, size, a, n))
  {
    match RouteOf(p, size)
    case FromBlock(k) => OwnsAfterBump(heap, p, k, size);
    case NewBlock => OwnsAfterAddBlock(heap, p, size, a);
    case _ => OwnsAfterLarge(heap, p, size, a, n);
  }
}
