/** memory_pool.c with its pointers: blocks and large nodes are objects, and every
    operation is proved against the functions of PoolModel. malloc is represented by
    the address it returns; Grants states what malloc promises about it. */
module MemoryPool {
  import opened Sequences
  import opened PoolModel

  // malloc and free of the C library, with a log of the freed addresses.
  class Heap {
    var live: HeapMap
    var freed: seq<nat>

    method Malloc(a: nat, n: nat)
      requires Grants(live, a, n)
      modifies this
      ensures live == old(live)[a := n] && freed == old(freed)
    {
      live := live[a := n];
    }

    // free(NULL) does nothing; any other pointer must be live.
    method Free(a: nat)
      requires a == 0 || a in live
      modifies this
      ensures live == if a == 0 then old(live) else old(live) - {a}
      ensures freed == if a == 0 then old(freed) else old(freed) + [a]
    {
      if a != 0 {
        live := live - {a};
        freed := freed + [a];
      }
    }
  }

  // memory_pool_large_data_t at address addr.
  class LargeNode {
    const addr: nat
    var next: LargeNode?
    var alloc: nat

    constructor (addr: nat)
      ensures this.addr == addr
    {
      this.addr := addr;
    }

    // Reading a field of a node is only allowed while the node is live.
    function Next(heap: Heap): LargeNode?
      requires addr in heap.live
      reads this, heap
    {
      next
    }

    function Allocated(heap: Heap): nat
      requires addr in heap.live
      reads this, heap
    {
      alloc
    }
  }

  // memory_pool_t at address addr. A pool is its head block; only the head's
  // max, current and large are used.
  class PoolBlock {
    const addr: nat
    var last: nat
    var end: nat
    var next: PoolBlock?
    var failed: nat
    var max: nat
    var current: PoolBlock?
    var large: LargeNode?

    // Of the head: the chain, the list of large nodes, and the abstract pool.
    ghost var chain: seq<PoolBlock>
    ghost var nodes: seq<LargeNode>
    ghost var model: Pool

    // What create and alloc_block write into a block that malloc returned.
    constructor (addr: nat, size: nat)
      ensures this.addr == addr && last == (addr + HEADER) % WORD && end == (addr + size + HEADER) % WORD
      ensures next == null && failed == 0 && max == size && large == null && current == null
    {
      this.addr := addr;
      last := (addr + HEADER) % WORD;
      end := (addr + size + HEADER) % WORD;
      next, current, large := null, null, null;
      failed, max := 0, size;
    }

    // As with nodes, fields are only read while the block is live.
    function Next(heap: Heap): PoolBlock?
      requires addr in heap.live
      reads this, heap
    {
      next
    }

    function Last(heap: Heap): nat
      requires addr in heap.live
      reads this, heap
    {
      last
    }

    function End(heap: Heap): nat
      requires addr in heap.live
      reads this, heap
    {
      end
    }

    function Failed(heap: Heap): nat
      requires addr in heap.live
      reads this, heap
    {
      failed
    }

    function Max(heap: Heap): nat
      requires addr in heap.live
      reads this, heap
    {
      max
    }

    function Current(heap: Heap): PoolBlock?
      requires addr in heap.live
      reads this, heap
    {
      current
    }

    function Large(heap: Heap): LargeNode?
      requires addr in heap.live
      reads this, heap
    {
      large
    }

    // The chain follows the next pointers ...
    ghost predicate Follows()
      reads this, chain
    {
      && 0 < |chain| && chain[0] == this
      && (forall i {:trigger chain[i].next} :: 0 <= i < |chain| ==>
            chain[i].next == if i + 1 < |chain| then chain[i + 1] else null)
    }

    // ... and has the model's addresses.
    ghost predicate Linked()
      reads this, chain
    {
      && Follows() && |chain| == |model.blocks|
      && (forall i :: 0 <= i < |chain| ==> model.blocks[i].addr == chain[i].addr)
    }

    ghost predicate ChainValid()
      reads this, chain
    {
      && Linked()
      && Distinct(chain)
      && LooksLike(chain, model.blocks)
      && model.current < |chain| && current == chain[model.current]
      && max == model.max
    }

    ghost predicate NodesValid()
      reads this, nodes
    {
      && |nodes| == |model.large|
      && large == (if nodes == [] then null else nodes[0])
      && (forall i, j :: 0 <= i < j < |nodes| ==> nodes[i] != nodes[j])
      && (forall i {:trigger nodes[i].next} :: 0 <= i < |nodes| ==>
            nodes[i].next == if i + 1 < |nodes| then nodes[i + 1] else null)
      && (forall i :: 0 <= i < |nodes| ==> model.large[i] == Node(nodes[i].addr, nodes[i].alloc))
    }

    ghost predicate Valid()
      reads this, chain, nodes
    {
      ChainValid() && NodesValid()
    }
  }

  // What free and the loops demand of the pointers the pool holds.
  ghost predicate SlotsLive(heap: HeapMap, large: seq<Node>) {
    forall i :: 0 <= i < |large| ==> large[i].addr in heap && (large[i].alloc != 0 ==> large[i].alloc in heap)
  }

  ghost predicate ChainLive(heap: HeapMap, chain: seq<PoolBlock>) {
    forall i :: 0 <= i < |chain| ==> chain[i].addr in heap
  }

  lemma OwnedIsLive(heap: HeapMap, pool: PoolBlock)
    requires pool.Linked() && Owns(heap, pool.model)
    ensures SlotsLive(heap, pool.model.large) && ChainLive(heap, pool.chain) && pool.addr in heap
  {
    forall i | 0 <= i < |pool.model.large| ensures NodeOk(heap, pool.model.large[i]) { }
    assert pool.model.blocks[0].addr == pool.addr;
  }

  lemma CreateOwns(heap: HeapMap, size: nat, a: nat)
    requires size < WORD && HeapOk(heap) && Grants(heap, a, MallocSize(size))
    ensures HeapOk(heap[a := MallocSize(size)])
    ensures size + HEADER < WORD ==> Owns(heap[a := MallocSize(size)], CreatePool(size, a))
  {
    GrantedIsFresh(heap, a, MallocSize(size));
    if size + HEADER < WORD {
      assert MallocSize(size) == size + HEADER;
      OwnsAfterCreate(heap, size, a);
    }
  }

  // What create writes into the region malloc returned.
  method InitPool(size: nat, a: nat) returns (p: PoolBlock)
    ensures fresh(p) && p.Valid() && p.chain == [p] && p.nodes == []
    ensures p.model == CreatePool(size, a)
  {
    p := new PoolBlock(a, size);
    p.current := p;
    p.chain, p.nodes, p.model := [p], [], CreatePool(size, a);
  }

  // The pool owns its memory if header and size do not wrap.
  method MemoryPoolCreate(heap: Heap, size: nat, a: nat) returns (p: PoolBlock)
    requires size < WORD && HeapOk(heap.live) && Grants(heap.live, a, MallocSize(size))
    modifies heap
    ensures fresh(p) && p.Valid() && p.chain == [p] && p.nodes == []
    ensures p.model == CreatePool(size, a)
    ensures heap.live == old(heap.live)[a := MallocSize(size)] && HeapOk(heap.live)
    ensures size + HEADER < WORD ==> Owns(heap.live, p.model)
  {
    CreateOwns(heap.live, size, a);
    heap.Malloc(a, MallocSize(size));
    p := InitPool(size, a);
  }

  // The blocks once the scan, which began at block start, stands at block k.
  function ScannedTo(blocks: seq<Block>, start: nat, k: nat): (r: seq<Block>)
    ensures |r| == |blocks|
  {
    seq(|blocks|, i requires 0 <= i < |blocks| =>
      if start <= i < k then blocks[i].(failed := (blocks[i].failed + 1) % WORD) else blocks[i])
  }

  lemma ScanEnds(blocks: seq<Block>, start: nat)
    requires blocks != []
    ensures ScannedTo(blocks, start, start) == blocks
    ensures ScannedTo(blocks, start, |blocks| - 1) == Charged(blocks, start)
  {
  }

  // if (p->d.failed++ > 4)
  method Charge(heap: Heap, p: PoolBlock, ghost chain: seq<PoolBlock>, ghost blocks: seq<Block>,
                ghost start: nat, ghost k: nat)
    returns (many: bool)
    requires Distinct(chain) && start <= k < |chain| && p == chain[k] && p.addr in heap.live
    requires LooksLike(chain, ScannedTo(blocks, start, k))
    modifies p`failed
    ensures LooksLike(chain, ScannedTo(blocks, start, k + 1)) && (many <==> blocks[k].failed > 4)
  {
    many := p.Failed(heap) > 4;
    p.failed := (p.Failed(heap) + 1) % WORD;
  }

  // The scan stands at block k, and block cur would become current.
  ghost predicate Scanning(pool: PoolBlock, blocks: seq<Block>, start: nat, k: nat, cur: nat, end: nat)
    reads pool, pool.chain
  {
    && pool.Follows() && Distinct(pool.chain) && |blocks| == |pool.chain|
    && start <= k < |pool.chain| && cur < |pool.chain|
    && end == ScanCurrent(blocks, k, cur)
    && LooksLike(pool.chain, ScannedTo(blocks, start, k))
  }

  method ScanPass(heap: Heap, pool: PoolBlock, p: PoolBlock, c: PoolBlock,
                  ghost blocks: seq<Block>, ghost start: nat, ghost k: nat, ghost cur: nat, ghost end: nat)
    returns (q: PoolBlock, d: PoolBlock, ghost cur': nat)
    requires Scanning(pool, blocks, start, k, cur, end) && k + 1 < |pool.chain|
    requires p == pool.chain[k] && c == pool.chain[cur] && p.addr in heap.live
    modifies p`failed
    ensures Scanning(pool, blocks, start, k + 1, cur', end) && q == pool.chain[k + 1] && d == pool.chain[cur']
  {
    d, cur' := c, cur;
    var many := Charge(heap, p, pool.chain, blocks, start, k);
    if many {
      d, cur' := p.Next(heap), k + 1;
    }
    q := p.Next(heap);
  }

  // The scan of memory_pool_alloc_block from current to the end of the chain.
  method ChargeAndScan(heap: Heap, pool: PoolBlock) returns (current: PoolBlock, ghost cur: nat)
    requires pool.ChainValid() && ChainLive(heap.live, pool.chain) && pool.addr in heap.live
    modifies pool.chain`failed
    ensures cur == ScanCurrent(pool.model.blocks, pool.model.current, pool.model.current) < |pool.chain|
    ensures current == pool.chain[cur]
    ensures LooksLike(pool.chain, Charged(pool.model.blocks, pool.model.current))
  {
    ghost var blocks, start := pool.model.blocks, pool.model.current;
    ghost var end := ScanCurrent(blocks, start, start);
    ScanEnds(blocks, start);
    current := pool.Current(heap);
    ghost var k := start;
    cur := start;
    var p := current;
    while p.Next(heap) != null
      invariant Scanning(pool, blocks, start, k, cur, end) && p == pool.chain[k] && current == pool.chain[cur]
      decreases |pool.chain| - k
    {
      p, current, cur := ScanPass(heap, pool, p, current, blocks, start, k, cur, end);
      k := k + 1;
    }
    assert k == |pool.chain| - 1;
  }

  // Put newPool behind the head of the chain.
  method Splice(heap: Heap, pool: PoolBlock, newPool: PoolBlock)
    requires pool.Follows() && Distinct(pool.chain) && newPool !in pool.chain && pool.addr in heap.live
    modifies pool`next, pool`chain, newPool`next
    ensures pool.Follows() && pool.chain == [pool, newPool] + old(pool.chain)[1..]
  {
    newPool.next := pool.Next(heap);
    pool.next := newPool;
    ghost var chain := pool.chain;
    pool.chain := [pool, newPool] + chain[1..];
    assert forall i :: 2 <= i < |pool.chain| ==> pool.chain[i] == chain[i - 1];
  }

  ghost predicate Distinct(chain: seq<PoolBlock>) {
    forall i, j :: 0 <= i < j < |chain| ==> chain[i] != chain[j]
  }

  lemma DistinctAfterSplice(chain: seq<PoolBlock>, b: PoolBlock)
    requires chain != [] && Distinct(chain) && b !in chain
    ensures Distinct([chain[0], b] + chain[1..])
  {
    var longer := [chain[0], b] + chain[1..];
    forall i, j | 0 <= i < j < |longer| ensures longer[i] != longer[j] {
      if j > 1 { assert longer[j] == chain[j - 1] && chain[j - 1] in chain; }
      if i > 1 { assert longer[i] == chain[i - 1]; }
    }
  }

  ghost predicate LooksLike(chain: seq<PoolBlock>, blocks: seq<Block>)
    reads chain
  {
    && |blocks| == |chain|
    && (forall i :: 0 <= i < |chain| ==>
          blocks[i] == Block(chain[i].addr, chain[i].last, chain[i].end, chain[i].failed))
  }

  lemma LooksAfterSplice(chain: seq<PoolBlock>, b: PoolBlock, p: Pool, size: nat, a: nat)
    requires p.current < |p.blocks| && |p.blocks| == |chain|
    requires LooksLike(chain, Charged(p.blocks, p.current))
    requires Block(a, a + HEADER, a + HEADER + size, 0) == Block(b.addr, b.last, b.end, b.failed)
    ensures LooksLike([chain[0], b] + chain[1..], AddBlock(p, size, a).blocks)
  {
    AddBlockAt(p, size, a);
    AddBlockShifts(p, size, a);
    var longer := [chain[0], b] + chain[1..];
    assert forall i :: 2 <= i < |longer| ==> longer[i] == chain[i - 1];
  }

  // Link newPool behind the head.
  method LinkBehindHead(heap: Heap, pool: PoolBlock, newPool: PoolBlock, current: PoolBlock,
                        size: nat, a: nat, ghost cur: nat)
    requires pool.Follows() && pool.max == pool.model.max && Distinct(pool.chain) && pool.addr in heap.live
    requires pool.model.current < |pool.model.blocks| == |pool.chain|
    requires cur == ScanCurrent(pool.model.blocks, pool.model.current, pool.model.current) < |pool.chain|
    requires current == pool.chain[cur]
    requires LooksLike(pool.chain, Charged(pool.model.blocks, pool.model.current))
    requires newPool !in pool.chain
    requires Block(a, a + HEADER, a + HEADER + size, 0) == Block(newPool.addr, newPool.last, newPool.end, newPool.failed)
    modifies pool`next, pool`chain, pool`current, pool`model, newPool`next
    ensures pool.ChainValid() && pool.chain == [pool, newPool] + old(pool.chain)[1..]
    ensures pool.model == AddBlock(old(pool.model), size, a)
  {
    DistinctAfterSplice(pool.chain, newPool);
    LooksAfterSplice(pool.chain, newPool, pool.model, size, a);
    Splice(heap, pool, newPool);
    pool.current := current;
    pool.model := AddBlock(pool.model, size, a);
  }

  method NewBlock(heap: Heap, size: nat, a: nat) returns (b: PoolBlock)
    requires Grants(heap.live, a, size + HEADER)
    modifies heap
    ensures fresh(b) && heap.live == old(heap.live)[a := size + HEADER]
    ensures b.addr == a && b.last == a + HEADER && b.end == a + HEADER + size && b.failed == 0
  {
    heap.Malloc(a, size + HEADER);
    b := new PoolBlock(a, size);
  }

  method MemoryPoolAllocBlock(heap: Heap, pool: PoolBlock, size: nat, a: nat) returns (m: nat)
    requires pool.ChainValid() && ChainLive(heap.live, pool.chain) && pool.addr in heap.live && Grants(heap.live, a, size + HEADER)
    modifies heap, pool, pool.chain
    ensures pool.ChainValid() && unchanged(pool`nodes, pool`large)
    ensures pool.model == AddBlock(old(pool.model), size, a)
    ensures pool.chain == [pool, pool.chain[1]] + old(pool.chain)[1..] && fresh(pool.chain[1])
    ensures heap.live == old(heap.live)[a := size + HEADER]
    ensures m == AlignPtr(a + HEADER)
  {
    var newPool := NewBlock(heap, size, a);
    var current: PoolBlock;
    ghost var cur: nat;
    current, cur := ChargeAndScan(heap, pool);
    LinkBehindHead(heap, pool, newPool, current, size, a, cur);
    m := AlignPtr(newPool.last);
  }

  method FillSlot(heap: Heap, pool: PoolBlock, pl: LargeNode, a: nat, ghost k: nat)
    requires pl.addr in heap.live
    requires pool.Valid() && k < |pool.nodes| && pl == pool.nodes[k]
    modifies pool`model, pl`alloc
    ensures pool.Valid() && pool.nodes == old(pool.nodes)
    ensures pool.model == old(pool.model).(large := old(pool.model).large[k := old(pool.model).large[k].(alloc := a)])
  {
    pl.alloc := a;
    pool.model := pool.model.(large := pool.model.large[k := pool.model.large[k].(alloc := a)]);
  }

  method NewNode(heap: Heap, n: nat, a: nat) returns (node: LargeNode)
    requires Grants(heap.live, n, NODE)
    modifies heap
    ensures fresh(node) && node.addr == n && node.alloc == a
    ensures heap.live == old(heap.live)[n := NODE]
  {
    heap.Malloc(n, NODE);
    node := new LargeNode(n);
    node.alloc := a;
  }

  method PushFront(heap: Heap, pool: PoolBlock, node: LargeNode)
    requires pool.Valid() && pool.addr in heap.live && node !in pool.nodes
    modifies pool`large, pool`nodes, pool`model, node`next
    ensures pool.Valid() && pool.nodes == [node] + old(pool.nodes)
    ensures pool.model == old(pool.model).(large := [Node(node.addr, node.alloc)] + old(pool.model).large)
  {
    node.next := pool.Large(heap);
    pool.large := node;
    pool.nodes := [node] + pool.nodes;
    pool.model := pool.model.(large := [Node(node.addr, node.alloc)] + pool.model.large);
  }

  // The loop of memory_pool_alloc_large: the first empty one of four nodes.
  method EmptySlot(heap: Heap, pool: PoolBlock) returns (pl: LargeNode?, ghost k: nat)
    requires pool.NodesValid() && SlotsLive(heap.live, pool.model.large) && pool.addr in heap.live
    ensures k == FindSlot(pool.model.large, 0)
    ensures pl == if k < |pool.nodes| && k < 4 then pool.nodes[k] else null
  {
    pl := pool.Large(heap);
    var count := 0;
    while pl != null
      invariant 0 <= count <= |pool.nodes| && count <= 3
      invariant pl == if count < |pool.nodes| then pool.nodes[count] else null
      invariant forall i :: 0 <= i < count ==> pool.model.large[i].alloc != 0
      decreases |pool.nodes| - count
    {
      if pl.Allocated(heap) == 0 {
        return pl, count;
      }
      count := count + 1;
      if count > 3 {
        return null, FindSlot(pool.model.large, 0);
      }
      pl := pl.Next(heap);
    }
    return null, |pool.nodes|;
  }

  lemma LargeRoute(heap: HeapMap, p: Pool, size: nat, a: nat, n: nat)
    requires p.current < |p.blocks| && p.max < size
    ensures var k := FindSlot(p.large, 0);
      if k < |p.large| && k < 4 then
        AllocPool(p, size, a, n) == p.(large := p.large[k := p.large[k].(alloc := a)]) &&
        AllocHeap(heap, p, size, a, n) == heap[a := size]
      else
        RouteOf(p, size).PushNode? &&
        AllocPool(p, size, a, n) == p.(large := [Node(n, a)] + p.large) &&
        AllocHeap(heap, p, size, a, n) == heap[a := size][n := NODE]
  {
  }

  method PlaceRegion(heap: Heap, pool: PoolBlock, a: nat, n: nat)
    requires pool.Valid() && SlotsLive(heap.live, pool.model.large) && pool.addr in heap.live
    requires var k := FindSlot(pool.model.large, 0); (k < |pool.nodes| && k < 4) || Grants(heap.live, n, NODE)
    modifies heap, pool, pool.nodes
    ensures pool.Valid() && pool.chain == old(pool.chain)
    ensures forall b :: b in pool.nodes ==> b in old(pool.nodes) || fresh(b)
    ensures var k, p := FindSlot(old(pool.model).large, 0), old(pool.model);
      if k < |p.large| && k < 4 then
        pool.model == p.(large := p.large[k := p.large[k].(alloc := a)]) && heap.live == old(heap.live)
      else
        pool.model == p.(large := [Node(n, a)] + p.large) && heap.live == old(heap.live)[n := NODE]
  {
    ghost var k: nat;
    var pl: LargeNode?;
    pl, k := EmptySlot(heap, pool);
    if pl != null {
      FillSlot(heap, pool, pl, a, k);
    } else {
      var node := NewNode(heap, n, a);
      PushFront(heap, pool, node);
    }
  }

  method MemoryPoolAllocLarge(heap: Heap, pool: PoolBlock, size: nat, a: nat, n: nat) returns (r: nat)
    requires pool.Valid() && pool.model.max < size
    requires SlotsLive(heap.live, pool.model.large) && pool.addr in heap.live
    requires Grants(heap.live, a, size)
    requires RouteOf(pool.model, size).PushNode? ==> Grants(heap.live[a := size], n, NODE)
    modifies heap, pool, pool.nodes
    ensures pool.Valid() && pool.chain == old(pool.chain)
    ensures forall b :: b in pool.nodes ==> b in old(pool.nodes) || fresh(b)
    ensures pool.model == AllocPool(old(pool.model), size, a, n)
    ensures heap.live == AllocHeap(old(heap.live), old(pool.model), size, a, n)
    ensures r == a
  {
    LargeRoute(heap.live, pool.model, size, a, n);
    heap.Malloc(a, size);
    PlaceRegion(heap, pool, a, n);
    r := a;
  }

  method BumpBlock(heap: Heap, pool: PoolBlock, p: PoolBlock, m: nat, size: nat, ghost k: nat)
    requires pool.Valid() && k < |pool.chain| && p == pool.chain[k] && m == AlignPtr(p.last) && p.addr in heap.live
    modifies pool`model, p`last
    ensures pool.Valid() && pool.chain == old(pool.chain) && pool.nodes == old(pool.nodes)
    ensures pool.model == old(pool.model).(blocks := old(pool.model).blocks[k := Bumped(old(pool.model).blocks[k], size)])
  {
    p.last := (m + size) % WORD;
    pool.model := pool.model.(blocks := pool.model.blocks[k := Bumped(pool.model.blocks[k], size)]);
  }

  // The search loop of memory_pool_alloc.
  method SearchRoom(heap: Heap, pool: PoolBlock, size: nat) returns (p: PoolBlock?)
    requires pool.ChainValid() && ChainLive(heap.live, pool.chain) && pool.addr in heap.live
    ensures var first := FirstFit(pool.model.blocks, pool.model.current, size);
      p == if first < |pool.chain| then pool.chain[first] else null
  {
    p := pool.Current(heap);
    ghost var k := pool.model.current;
    while p != null
      invariant k <= |pool.chain| && p == if k < |pool.chain| then pool.chain[k] else null
      invariant FirstFit(pool.model.blocks, pool.model.current, size) == FirstFit(pool.model.blocks, k, size)
      decreases |pool.chain| - k
    {
      if (p.End(heap) - AlignPtr(p.Last(heap))) % WORD >= size {
        return;
      }
      p := p.Next(heap);
      k := k + 1;
    }
  }

  lemma SmallRoute(heap: HeapMap, p: Pool, size: nat, a: nat)
    requires p.current < |p.blocks| && size <= p.max
    ensures var k := FirstFit(p.blocks, p.current, size);
      if k < |p.blocks| then
        AllocPool(p, size, a, 0) == p.(blocks := p.blocks[k := Bumped(p.blocks[k], size)]) &&
        AllocHeap(heap, p, size, a, 0) == heap && AllocResult(p, size, a) == AlignPtr(p.blocks[k].last)
      else
        RouteOf(p, size).NewBlock? && AllocPool(p, size, a, 0) == AddBlock(p, size, a) &&
        AllocHeap(heap, p, size, a, 0) == heap[a := size + HEADER] && AllocResult(p, size, a) == AlignPtr(a + HEADER)
  {
  }

  // The part of memory_pool_alloc for sizes the pool serves from its blocks.
  method AllocSmall(heap: Heap, pool: PoolBlock, size: nat, a: nat) returns (m: nat)
    requires pool.Valid() && ChainLive(heap.live, pool.chain) && pool.addr in heap.live && size <= pool.model.max
    requires AllocGranted(heap.live, pool.model, size, a, 0)
    modifies heap, pool, pool.chain
    ensures pool.Valid() && pool.nodes == old(pool.nodes)
    ensures forall b :: b in pool.chain ==> b in old(pool.chain) || fresh(b)
    ensures pool.model == AllocPool(old(pool.model), size, a, 0)
    ensures heap.live == AllocHeap(old(heap.live), old(pool.model), size, a, 0)
    ensures m == AllocResult(old(pool.model), size, a)
  {
    ghost var k := FirstFit(pool.model.blocks, pool.model.current, size);
    SmallRoute(heap.live, pool.model, size, a);
    var p := SearchRoom(heap, pool, size);
    if p != null {
      m := AlignPtr(p.Last(heap));
      BumpBlock(heap, pool, p, m, size, k);
    } else {
      m := MemoryPoolAllocBlock(heap, pool, size, a);
    }
  }

  // The pool goes on owning all its memory, which is what every call asks for.
  method MemoryPoolAlloc(heap: Heap, pool: PoolBlock, size: nat, a: nat, n: nat) returns (m: nat)
    requires pool.Valid() && HeapOk(heap.live) && Owns(heap.live, pool.model)
    requires AllocGranted(heap.live, pool.model, size, a, n)
    modifies heap, pool, pool.chain, pool.nodes
    ensures pool.Valid() && HeapOk(heap.live) && Owns(heap.live, pool.model)
    ensures forall b :: b in pool.chain ==> b in old(pool.chain) || fresh(b)
    ensures forall b :: b in pool.nodes ==> b in old(pool.nodes) || fresh(b)
    ensures pool.model == AllocPool(old(pool.model), size, a, n)
    ensures heap.live == AllocHeap(old(heap.live), old(pool.model), size, a, n)
    ensures m == AllocResult(old(pool.model), size, a)
    ensures size > old(pool.max) ==>
      m !in old(heap.live) && m in heap.live && heap.live[m] == size && FreeResult(pool.model, m) == 0
  {
    OwnedIsLive(heap.live, pool);
    if size > pool.max { LargeIsKept(heap.live, pool.model, size, a, n); }
    HeapAfterAlloc(heap.live, pool.model, size, a, n);
    OwnsAfterAlloc(heap.live, pool.model, size, a, n);
    if size <= pool.Max(heap) {
      m := AllocSmall(heap, pool, size, a);
    } else {
      m := MemoryPoolAllocLarge(heap, pool, size, a, n);
    }
  }

  // The loop of memory_pool_larg_free: the first node with this pointer.
  method FindNode(heap: Heap, pool: PoolBlock, q: nat) returns (pl: LargeNode?, ghost k: nat)
    requires pool.NodesValid() && SlotsLive(heap.live, pool.model.large) && pool.addr in heap.live
    ensures k == FindSlot(pool.model.large, q) && pl == if k < |pool.nodes| then pool.nodes[k] else null
  {
    pl := pool.Large(heap);
    k := 0;
    while pl != null
      invariant 0 <= k <= |pool.nodes| && pl == if k < |pool.nodes| then pool.nodes[k] else null
      invariant forall i :: 0 <= i < k ==> pool.model.large[i].alloc != q
      decreases |pool.nodes| - k
    {
      if pl.Allocated(heap) == q {
        return;
      }
      pl := pl.Next(heap);
      k := k + 1;
    }
  }

  method FreeNodeOf(heap: Heap, pool: PoolBlock, q: nat) returns (r: int)
    requires pool.Valid() && SlotsLive(heap.live, pool.model.large) && pool.addr in heap.live
    requires FindSlot(pool.model.large, q) < |pool.nodes| ==> pool.nodes[FindSlot(pool.model.large, q)].addr != q
    modifies heap, pool`model, pool.nodes
    ensures pool.Valid() && pool.nodes == old(pool.nodes)
    ensures pool.model == FreePool(old(pool.model), q)
    ensures heap.live == FreeHeap(old(heap.live), old(pool.model), q)
    ensures r == FreeResult(old(pool.model), q)
  {
    ghost var k: nat;
    var pl: LargeNode?;
    pl, k := FindNode(heap, pool, q);
    if pl == null {
      return -1;
    }
    assert pool.model.large[k] == Node(pl.addr, q);
    heap.Free(q);
    FillSlot(heap, pool, pl, 0, k);
    return 0;
  }

  lemma FoundElsewhere(heap: HeapMap, p: Pool, q: nat)
    requires Owns(heap, p)
    ensures var k := FindSlot(p.large, q); k < |p.large| ==> p.large[k].addr != q
  {
    var k := FindSlot(p.large, q);
    if k < |p.large| { assert NodeOk(heap, p.large[k]); }
  }

  method MemoryPoolLargFree(heap: Heap, pool: PoolBlock, q: nat) returns (r: int)
    requires pool.Valid() && HeapOk(heap.live) && Owns(heap.live, pool.model)
    modifies heap, pool, pool.nodes
    ensures pool.Valid() && pool.chain == old(pool.chain)
    ensures HeapOk(heap.live) && Owns(heap.live, pool.model)
    ensures pool.model == FreePool(old(pool.model), q)
    ensures heap.live == FreeHeap(old(heap.live), old(pool.model), q)
    ensures r == FreeResult(old(pool.model), q)
  {
    OwnedIsLive(heap.live, pool);
    OwnsAfterFree(heap.live, pool.model, q);
    FoundElsewhere(heap.live, pool.model, q);
    r := FreeNodeOf(heap, pool, q);
  }

  // ----------------------------------------------------------------- destroy

  // The addresses freed for the first i nodes, for the first i blocks, and for
  // the whole pool, in order.
  function NodeFrees(n: Node): seq<nat> {
    (if n.alloc != 0 then [n.alloc] else []) + [n.addr]
  }

  function LargeFrees(large: seq<Node>, i: nat): seq<nat>
    requires i <= |large|
  {
    if i == 0 then [] else LargeFrees(large, i - 1) + NodeFrees(large[i - 1])
  }

  function BlockFrees(blocks: seq<Block>, i: nat): (r: seq<nat>)
    requires i <= |blocks|
    ensures |r| == i
    ensures forall k :: 0 <= k < i ==> r[k] == blocks[k].addr
  {
    if i == 0 then [] else BlockFrees(blocks, i - 1) + [blocks[i - 1].addr]
  }

  function Frees(p: Pool): seq<nat> {
    LargeFrees(p.large, |p.large|) + BlockFrees(p.blocks, |p.blocks|)
  }

  // The heap after freeing the addresses of s one after the other.
  function FreeAll(live: HeapMap, s: seq<nat>): HeapMap {
    if s == [] then live else FreeAll(live, s[..|s| - 1]) - {s[|s| - 1]}
  }

  lemma {:induction false} FreeAllMore(live: HeapMap, s: seq<nat>, t: seq<nat>)
    ensures FreeAll(live, s + t) == FreeAll(FreeAll(live, s), t)
  {
    if t == [] {
      assert s + t == s;
    } else {
      assert (s + t)[..|s + t| - 1] == s + t[..|t| - 1];
      FreeAllMore(live, s, t[..|t| - 1]);
    }
  }

  lemma FreeAllOne(live: HeapMap, x: nat)
    ensures FreeAll(live, [x]) == live - {x}
  {
    assert [x][..0] == [];
  }

  lemma {:induction false} FreeAllKeeps(live: HeapMap, s: seq<nat>, b: nat)
    ensures b in FreeAll(live, s) <==> b in live && b !in s
    ensures b in FreeAll(live, s) ==> FreeAll(live, s)[b] == live[b]
  {
    if s != [] {
      var front, last := s[..|s| - 1], s[|s| - 1];
      assert s == front + [last];
      FreeAllKeeps(live, front, b);
    }
  }

  ghost predicate InNodes(large: seq<Node>, i: nat, x: nat) {
    exists j :: 0 <= j < i && j < |large| && (large[j].addr == x || (x != 0 && large[j].alloc == x))
  }

  lemma {:induction false} LargeFreesElems(large: seq<Node>, i: nat, x: nat)
    requires i <= |large|
    ensures x in LargeFrees(large, i) <==> InNodes(large, i, x)
  {
    if i > 0 { LargeFreesElems(large, i - 1, x); }
  }

  lemma LaterNodeUntouched(heap: HeapMap, large: seq<Node>, i: nat)
    requires LargeOk(heap, large) && i < |large|
    ensures large[i].addr !in LargeFrees(large, i)
    ensures large[i].alloc != 0 ==> large[i].alloc !in LargeFrees(large, i)
  {
    LargeFreesElems(large, i, large[i].addr);
    LargeFreesElems(large, i, large[i].alloc);
    forall j | 0 <= j < i ensures NodesApart(large[j], large[i]) { }
  }

  lemma BlockUntouched(p: Pool, heap: HeapMap, i: nat)
    requires Owns(heap, p) && i < |p.blocks|
    ensures p.blocks[i].addr !in LargeFrees(p.large, |p.large|)
  {
    LargeFreesElems(p.large, |p.large|, p.blocks[i].addr);
  }

  ghost predicate NoRepeats(s: seq<nat>) {
    forall i, j :: 0 <= i < j < |s| ==> s[i] != s[j]
  }

  lemma {:induction false} LargeFreesDistinct(heap: HeapMap, large: seq<Node>, i: nat)
    requires LargeOk(heap, large) && i <= |large|
    ensures NoRepeats(LargeFrees(large, i))
  {
    if i > 0 {
      LargeFreesDistinct(heap, large, i - 1);
      LaterNodeUntouched(heap, large, i - 1);
      assert NodeOk(heap, large[i - 1]);
    }
  }

  // The frees of a destroyed pool are its blocks, its large nodes and its live
  // large regions, each exactly once.
  lemma FreesAreOwnedOnce(heap: HeapMap, p: Pool)
    requires Owns(heap, p)
    ensures NoRepeats(Frees(p))
    ensures forall x: nat :: x in Frees(p) <==> InNodes(p.large, |p.large|, x) || IsBlockAddr(p.blocks, x)
  {
    LargeFreesDistinct(heap, p.large, |p.large|);
    var l, b := LargeFrees(p.large, |p.large|), BlockFrees(p.blocks, |p.blocks|);
    forall i, j | 0 <= i < j < |Frees(p)| ensures Frees(p)[i] != Frees(p)[j] {
      if i < |l| <= j { BlockUntouched(p, heap, j - |l|); }
    }
    forall x: nat ensures x in Frees(p) <==> InNodes(p.large, |p.large|, x) || IsBlockAddr(p.blocks, x) {
      LargeFreesElems(p.large, |p.large|, x);
      if IsBlockAddr(p.blocks, x) {
        var i :| 0 <= i < |p.blocks| && p.blocks[i].addr == x;
        assert b[i] == x;
      }
    }
  }

  ghost predicate IsBlockAddr(blocks: seq<Block>, x: nat) {
    exists i :: 0 <= i < |blocks| && blocks[i].addr == x
  }

  // One pass of the first loop.
  method FreeNode(heap: Heap, pl: LargeNode)
    requires pl.addr in heap.live && pl.addr != 0 && pl.addr != pl.alloc && (pl.alloc != 0 ==> pl.alloc in heap.live)
    modifies heap
    ensures heap.freed == old(heap.freed) + NodeFrees(Node(pl.addr, pl.alloc))
    ensures heap.live == FreeAll(old(heap.live), NodeFrees(Node(pl.addr, pl.alloc)))
  {
    var a := pl.Allocated(heap);
    heap.Free(a);
    heap.Free(pl.addr);
    FreeAllMore(old(heap.live), if a != 0 then [a] else [], [pl.addr]);
    FreeAllOne(old(heap.live), a);
    FreeAllOne(if a != 0 then FreeAll(old(heap.live), [a]) else old(heap.live), pl.addr);
  }

  lemma NodeIsNext(live: HeapMap, large: seq<Node>, i: nat)
    requires LargeOk(live, large) && i < |large|
    ensures var n, now := large[i], FreeAll(live, LargeFrees(large, i));
      && n.addr in now && n.addr != 0 && n.addr != n.alloc && (n.alloc != 0 ==> n.alloc in now)
      && FreeAll(live, LargeFrees(large, i + 1)) == FreeAll(now, NodeFrees(n))
  {
    var n, done := large[i], LargeFrees(large, i);
    assert NodeOk(live, n);
    LaterNodeUntouched(live, large, i);
    FreeAllMore(live, done, NodeFrees(n));
    FreeAllKeeps(live, done, n.addr);
    FreeAllKeeps(live, done, n.alloc);
  }

  // The first i nodes have been freed.
  ghost predicate LargeFreed(heap: Heap, live: HeapMap, freed: seq<nat>, large: seq<Node>, i: nat)
    requires i <= |large|
    reads heap
  {
    heap.freed == freed + LargeFrees(large, i) && heap.live == FreeAll(live, LargeFrees(large, i))
  }

  lemma NextIsLive(live: HeapMap, large: seq<Node>, i: nat)
    requires LargeOk(live, large) && i < |large|
    ensures large[i].addr in FreeAll(live, LargeFrees(large, i))
  {
    NodeIsNext(live, large, i);
  }

  method LargePass(heap: Heap, pool: PoolBlock, pl: LargeNode,
                   ghost live: HeapMap, ghost freed: seq<nat>, ghost i: nat)
    returns (nl: LargeNode?)
    requires pool.NodesValid() && LargeOk(live, pool.model.large)
    requires i < |pool.nodes| && pl == pool.nodes[i] && LargeFreed(heap, live, freed, pool.model.large, i)
    modifies heap
    ensures LargeFreed(heap, live, freed, pool.model.large, i + 1)
    ensures i + 1 == |pool.nodes| <==> nl == null
    ensures nl != null ==> nl == pool.nodes[i + 1] && nl.addr in heap.live
  {
    ghost var large := pool.model.large;
    NodeIsNext(live, large, i);
    nl := pl.Next(heap);
    assert Node(pl.addr, pl.alloc) == large[i];
    FreeNode(heap, pl);
    Associate(freed, LargeFrees(large, i), NodeFrees(large[i]));
    if i + 1 < |large| { NextIsLive(live, large, i + 1); }
  }

  method DestroyLarge(heap: Heap, pool: PoolBlock)
    requires pool.NodesValid() && LargeOk(heap.live, pool.model.large) && pool.addr in heap.live
    modifies heap
    ensures LargeFreed(heap, old(heap.live), old(heap.freed), pool.model.large, |pool.model.large|)
  {
    ghost var live, freed := heap.live, heap.freed;
    var pl := pool.Large(heap);
    if pl == null { return; }
    var nl: LargeNode?;
    ghost var i := 0;
    while true
      invariant 0 <= i < |pool.nodes| && pl == pool.nodes[i]
      invariant LargeFreed(heap, live, freed, pool.model.large, i)
      decreases |pool.nodes| - i
    {
      nl := LargePass(heap, pool, pl, live, freed, i);
      i := i + 1;
      if nl == null {
        break;
      }
      pl := nl;
      nl := nl.Next(heap);
    }
  }

  // Block i can be freed when its turn comes.
  ghost predicate BlockReady(live: HeapMap, p: Pool, i: nat)
    requires i < |p.blocks|
  {
    var now := FreeAll(FreeAll(live, LargeFrees(p.large, |p.large|)), BlockFrees(p.blocks, i));
    p.blocks[i].addr != 0 && p.blocks[i].addr in now
  }

  ghost predicate AllReady(live: HeapMap, p: Pool) {
    forall i :: 0 <= i < |p.blocks| ==> BlockReady(live, p, i)
  }

  lemma OwnedBlocksReady(live: HeapMap, p: Pool)
    requires Owns(live, p)
    ensures AllReady(live, p)
  {
    forall i | 0 <= i < |p.blocks| ensures BlockReady(live, p, i) {
      BlockUntouched(p, live, i);
      FreeAllKeeps(live, LargeFrees(p.large, |p.large|), p.blocks[i].addr);
      FreeAllKeeps(FreeAll(live, LargeFrees(p.large, |p.large|)), BlockFrees(p.blocks, i), p.blocks[i].addr);
    }
  }

  // The first i blocks have been freed.
  ghost predicate BlocksFreed(heap: Heap, now: HeapMap, freed: seq<nat>, blocks: seq<Block>, i: nat)
    requires i <= |blocks|
    reads heap
  {
    heap.freed == freed + BlockFrees(blocks, i) && heap.live == FreeAll(now, BlockFrees(blocks, i))
  }

  method BlockPass(heap: Heap, pool: PoolBlock, p: PoolBlock, n: PoolBlock?,
                   ghost live: HeapMap, ghost now: HeapMap, ghost freed: seq<nat>, ghost i: nat)
    requires pool.Linked() && AllReady(live, pool.model) && i < |pool.chain| && p == pool.chain[i]
    requires n == if i + 1 < |pool.chain| then pool.chain[i + 1] else null
    requires now == FreeAll(live, LargeFrees(pool.model.large, |pool.model.large|))
    requires BlocksFreed(heap, now, freed, pool.model.blocks, i)
    modifies heap
    ensures BlocksFreed(heap, now, freed, pool.model.blocks, i + 1)
    ensures n != null ==> n.addr in heap.live
  {
    ghost var blocks := pool.model.blocks;
    assert BlockReady(live, pool.model, i);
    heap.Free(p.addr);
    Associate(freed, BlockFrees(blocks, i), [blocks[i].addr]);
    FreeAllMore(now, BlockFrees(blocks, i), [blocks[i].addr]);
    FreeAllOne(FreeAll(now, BlockFrees(blocks, i)), blocks[i].addr);
    if i + 1 < |blocks| { assert BlockReady(live, pool.model, i + 1); }
  }

  method DestroyBlocks(heap: Heap, pool: PoolBlock, ghost live: HeapMap)
    requires pool.Linked() && AllReady(live, pool.model)
    requires heap.live == FreeAll(live, LargeFrees(pool.model.large, |pool.model.large|))
    modifies heap
    ensures BlocksFreed(heap, old(heap.live), old(heap.freed), pool.model.blocks, |pool.model.blocks|)
  {
    ghost var now, freed := heap.live, heap.freed;
    assert BlockReady(live, pool.model, 0);
    var p := pool;
    var n := pool.Next(heap);
    ghost var i := 0;
    while true
      invariant 0 <= i < |pool.chain| && p == pool.chain[i]
      invariant n == if i + 1 < |pool.chain| then pool.chain[i + 1] else null
      invariant BlocksFreed(heap, now, freed, pool.model.blocks, i)
      decreases |pool.chain| - i
    {
      BlockPass(heap, pool, p, n, live, now, freed, i);
      i := i + 1;
      if n == null {
        break;
      }
      p := n;
      n := n.Next(heap);
    }
  }

  // Every field is read before its object is freed, and no address is freed that
  // is not live, so nothing is freed twice.
  method MemoryPoolDestroy(heap: Heap, pool: PoolBlock)
    requires pool.Valid() && Owns(heap.live, pool.model)
    modifies heap
    ensures heap.freed == old(heap.freed) + Frees(pool.model)
    ensures heap.live == FreeAll(old(heap.live), Frees(pool.model))
  {
    ghost var live, p := heap.live, pool.model;
    assert pool.model.blocks[0].addr == pool.addr;
    DestroyLarge(heap, pool);
    OwnedBlocksReady(live, p);
    DestroyBlocks(heap, pool, live);
    Associate(old(heap.freed), LargeFrees(p.large, |p.large|), BlockFrees(p.blocks, |p.blocks|));
    FreeAllMore(live, LargeFrees(p.large, |p.large|), BlockFrees(p.blocks, |p.blocks|));
  }
}
