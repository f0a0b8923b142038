/** Whole runs of the memory pool: create, then any sequence of memory_pool_alloc
    and memory_pool_larg_free calls with any addresses malloc may return. */
module PoolRuns {
  import opened PoolModel

  // A piece of a block that was handed out: by the call that added the block
  // (whole), or later from the block's free space. Pieces are never given back.
  // Blocks are numbered by age: 0 is the head, then 1, 2, ... as they are added.
  datatype Region = Region(whole: bool, block: nat, addr: nat, size: nat)

  // order lists the added blocks, oldest first; the last two fields count the
  // large regions allocated and given back.
  datatype World = World(heap: HeapMap, pool: Pool, regions: seq<Region>, order: seq<nat>,
                         largeAllocs: nat, largeFrees: nat)

  datatype Event =
    | Alloc(size: nat, a: nat, n: nat)  // a and n: what malloc returns if it is called
    | Free(q: nat)

  function Create(heap: HeapMap, size: nat, a: nat): World {
    World(heap[a := size + HEADER], CreatePool(size, a), [], [], 0, 0)
  }

  // New blocks go right behind the head, so age runs backwards along the chain.
  function Home(blocks: seq<Block>, age: nat): Block
    requires age < |blocks|
  {
    blocks[if age == 0 then 0 else |blocks| - age]
  }

  function AgeAt(blocks: seq<Block>, k: nat): (age: nat)
    requires k < |blocks|
    ensures age < |blocks| && Home(blocks, age) == blocks[k]
  {
    if k == 0 then 0 else |blocks| - k
  }

  predicate Enabled(w: World, e: Event) {
    w.pool.current < |w.pool.blocks| && (e.Alloc? ==> AllocGranted(w.heap, w.pool, e.size, e.a, e.n))
  }

  function Step(w: World, e: Event): World {
    if !Enabled(w, e) then w else
    match e
    case Alloc(size, a, n) =>
      var heap := AllocHeap(w.heap, w.pool, size, a, n);
      var pool := AllocPool(w.pool, size, a, n);
      var m := AllocResult(w.pool, size, a);
      (match RouteOf(w.pool, size)
       case FromBlock(k) =>
         w.(heap := heap, pool := pool, regions := w.regions + [Region(false, AgeAt(w.pool.blocks, k), m, size)])
       case NewBlock =>
         w.(heap := heap, pool := pool, regions := w.regions + [Region(true, |w.pool.blocks|, m, size)], order := w.order + [a])
       case _ =>
         w.(heap := heap, pool := pool, largeAllocs := w.largeAllocs + 1))
    case Free(q) =>
      w.(heap := FreeHeap(w.heap, w.pool, q), pool := FreePool(w.pool, q),
         largeFrees := w.largeFrees + if q != 0 && FreeResult(w.pool, q) == 0 then 1 else 0)
  }

  function Run(w: World, events: seq<Event>): World
    decreases |events|
  {
    if events == [] then w else Run(Step(w, events[0]), events[1..])
  }

  // --------------------------------------------------------- search position

  // The position of current after n blocks have been added.
  function CurrentAfter(n: nat): nat {
    if n < 7 then 0 else if n == 7 then 2 else n
  }

  // The failure counters while they can still move current.
  ghost predicate Counters(blocks: seq<Block>, n: nat)
    requires |blocks| == n + 1
  {
    n <= 7 ==>
      && blocks[0].failed == (if n == 0 then 0 else n - 1)
      && (forall i :: 1 <= i < n ==> blocks[i].failed == i - 1)
      && blocks[n].failed == 0
  }

  // The chain is the head followed by the added blocks, newest first.
  ghost predicate Chain(p: Pool, order: seq<nat>) {
    var n := |order|;
    && |p.blocks| == n + 1
    && (forall i :: 1 <= i <= n ==> p.blocks[i].addr == order[n - i])
    && p.current == CurrentAfter(n)
    && Counters(p.blocks, n)
  }

  lemma {:induction false} ScanSkips(blocks: seq<Block>, i: nat, k: nat, cur: nat)
    requires i <= k < |blocks|
    requires forall j :: i <= j < k ==> blocks[j].failed <= 4
    ensures ScanCurrent(blocks, i, cur) == ScanCurrent(blocks, k, cur)
    decreases k - i
  {
    if i < k { ScanSkips(blocks, i + 1, k, cur); }
  }

  lemma ScanMoves(p: Pool, order: seq<nat>)
    requires Chain(p, order)
    ensures var cur := ScanCurrent(p.blocks, p.current, p.current);
            CurrentAfter(|order| + 1) == if cur == 0 then 0 else cur + 1
  {
    var n := |order|;
    if n < 6 {
      ScanSkips(p.blocks, 0, n, 0);
    } else if n == 6 {
      assert ScanCurrent(p.blocks, 0, 0) == ScanCurrent(p.blocks, 1, 1);
      ScanSkips(p.blocks, 1, 6, 1);
    } else if n == 7 {
      ScanSkips(p.blocks, 2, 6, 2);
      assert ScanCurrent(p.blocks, 6, 2) == ScanCurrent(p.blocks, 7, 7);
    }
  }

  // The counters of the old blocks after the scan, and where the blocks go.
  lemma ChargedCounters(blocks: seq<Block>, n: nat)
    requires |blocks| == n + 1 && n < 7 && Counters(blocks, n)
    ensures Charged(blocks, 0)[0].failed == n
    ensures forall i :: 1 <= i < n ==> Charged(blocks, 0)[i].failed == i
    ensures n > 0 ==> Charged(blocks, 0)[n].failed == 0
  {
  }

  lemma CountersAfterAddBlock(p: Pool, order: seq<nat>, size: nat, a: nat)
    requires Chain(p, order)
    ensures |AddBlock(p, size, a).blocks| == |order| + 2
    ensures Counters(AddBlock(p, size, a).blocks, |order| + 1)
  {
    AddBlockShifts(p, size, a);
    if |order| < 7 { ChargedCounters(p.blocks, |order|); }
  }

  lemma ChainAfterAddBlock(p: Pool, order: seq<nat>, size: nat, a: nat)
    requires Chain(p, order)
    ensures Chain(AddBlock(p, size, a), order + [a])
  {
    ScanMoves(p, order);
    CountersAfterAddBlock(p, order, size, a);
    AddBlockAt(p, size, a);
    var q, n := AddBlock(p, size, a), |order|;
    forall i | 1 <= i <= n + 1 ensures q.blocks[i].addr == (order + [a])[n + 1 - i] {
      if i > 1 {
        var j := i - 1;
        assert q.blocks[if j == 0 then 0 else j + 1] == Charged(p.blocks, p.current)[j];
      }
    }
  }

  // ------------------------------------------------------------ large regions

  function Occupied(large: seq<Node>): nat {
    if large == [] then 0 else (if large[0].alloc != 0 then 1 else 0) + Occupied(large[1..])
  }

  lemma {:induction false} OccupiedAfterSlot(large: seq<Node>, k: nat, a: nat)
    requires k < |large|
    ensures Occupied(large[k := large[k].(alloc := a)]) + (if large[k].alloc != 0 then 1 else 0)
         == Occupied(large) + (if a != 0 then 1 else 0)
  {
    var was := large[k := large[k].(alloc := a)];
    if k > 0 {
      assert was[1..] == large[1..][k - 1 := large[k].(alloc := a)];
      OccupiedAfterSlot(large[1..], k - 1, a);
    } else {
      assert was[1..] == large[1..];
    }
  }

  // ------------------------------------------------------- pieces of blocks

  // A piece belongs to a block; a whole one fills the space of an added block.
  ghost predicate PieceOk(blocks: seq<Block>, r: Region) {
    && r.block < |blocks|
    && (r.whole ==> 0 < r.block && r.addr == Home(blocks, r.block).addr + HEADER &&
                    r.addr + r.size == Home(blocks, r.block).end && r.addr % 4 == 0)
  }

  // Of two pieces of one block the later one is not whole.
  ghost predicate PairOk(r: Region, s: Region) {
    r.block == s.block ==> !s.whole
  }

  ghost predicate HasWhole(regions: seq<Region>, age: nat) {
    exists i :: 0 <= i < |regions| && regions[i].whole && regions[i].block == age
  }

  ghost predicate Placed(blocks: seq<Block>, regions: seq<Region>) {
    && (forall i :: 0 <= i < |regions| ==> PieceOk(blocks, regions[i]))
    && (forall i, j :: 0 <= i < j < |regions| ==> PairOk(regions[i], regions[j]))
    && (forall age :: 0 < age < |blocks| ==> HasWhole(regions, age))
  }

  ghost predicate EndsAligned(blocks: seq<Block>) {
    forall age :: 0 <= age < |blocks| ==> Home(blocks, age).end % 4 == 0
  }

  // The n bytes at m lie in the block behind its header.
  predicate InBlock(b: Block, m: nat, n: nat) {
    b.addr + HEADER <= m && m + n <= b.end
  }

  ghost predicate Stays(blocks: seq<Block>, r: Region) {
    r.block < |blocks| && InBlock(Home(blocks, r.block), r.addr, r.size)
  }

  // No request so far was served outside its block.
  ghost predicate NoEscape(blocks: seq<Block>, regions: seq<Region>) {
    forall i :: 0 <= i < |regions| ==> Stays(blocks, regions[i])
  }

  ghost predicate BlockSound(b: Block) {
    b.addr + HEADER <= b.last <= b.end
  }

  ghost predicate PieceServed(blocks: seq<Block>, r: Region)
    requires r.block < |blocks|
  {
    !r.whole ==>
      && r.addr % 4 == 0 && Home(blocks, r.block).addr + HEADER <= r.addr
      && r.addr + r.size <= Home(blocks, r.block).last
  }

  ghost predicate PairServed(r: Region, s: Region) {
    r.block == s.block && !r.whole ==> r.addr + r.size <= s.addr
  }

  ghost predicate Geometry(blocks: seq<Block>, regions: seq<Region>)
    requires Placed(blocks, regions)
  {
    && (forall age :: 0 <= age < |blocks| ==> BlockSound(Home(blocks, age)))
    && (forall i :: 0 <= i < |regions| ==> PieceOk(blocks, regions[i]) && PieceServed(blocks, regions[i]))
    && (forall i, j :: 0 <= i < j < |regions| ==> PairServed(regions[i], regions[j]))
  }

  ghost predicate Inv(w: World) {
    && HeapOk(w.heap)
    && Owns(w.heap, w.pool)
    && Chain(w.pool, w.order)
    && Occupied(w.pool.large) + w.largeFrees == w.largeAllocs
    && Placed(w.pool.blocks, w.regions)
    && (NoEscape(w.pool.blocks, w.regions) ==> Geometry(w.pool.blocks, w.regions))
    && (EndsAligned(w.pool.blocks) ==> NoEscape(w.pool.blocks, w.regions))
  }

  // ------------------------------------------------------------ preservation

  lemma WholeStays(regions: seq<Region>, r: Region, age: nat)
    requires HasWhole(regions, age)
    ensures HasWhole(regions + [r], age)
  {
    var i :| 0 <= i < |regions| && regions[i].whole && regions[i].block == age;
    assert (regions + [r])[i] == regions[i];
  }

  lemma HomesAfterBump(blocks: seq<Block>, k: nat, size: nat)
    requires k < |blocks|
    ensures forall age :: 0 <= age < |blocks| ==>
      Home(blocks[k := Bumped(blocks[k], size)], age)
      == if age == AgeAt(blocks, k) then Bumped(blocks[k], size) else Home(blocks, age)
  {
    forall age | 0 <= age < |blocks|
      ensures Home(blocks[k := Bumped(blocks[k], size)], age)
           == if age == AgeAt(blocks, k) then Bumped(blocks[k], size) else Home(blocks, age)
    {
      var i := if age == 0 then 0 else |blocks| - age;
      assert i == k <==> age == AgeAt(blocks, k);
    }
  }

  lemma PlacedAfterBump(blocks: seq<Block>, regions: seq<Region>, k: nat, size: nat, m: nat)
    requires Placed(blocks, regions) && k < |blocks|
    ensures Placed(blocks[k := Bumped(blocks[k], size)], regions + [Region(false, AgeAt(blocks, k), m, size)])
  {
    HomesAfterBump(blocks, k, size);
    var blocks' := blocks[k := Bumped(blocks[k], size)];
    var r := Region(false, AgeAt(blocks, k), m, size);
    forall i | 0 <= i < |regions + [r]| ensures PieceOk(blocks', (regions + [r])[i]) {
      if i < |regions| { assert PieceOk(blocks, regions[i]); }
    }
    forall i, j | 0 <= i < j < |regions + [r]| ensures PairOk((regions + [r])[i], (regions + [r])[j]) {
      if j < |regions| { assert PairOk(regions[i], regions[j]); }
    }
    forall age | 0 < age < |blocks'| ensures HasWhole(regions + [r], age) {
      WholeStays(regions, r, age);
    }
  }

  // The fit test is sound when the block's end is aligned.
  lemma FitsAligned(b: Block, size: nat)
    requires BlockSound(b) && b.end % 4 == 0 && b.end <= WORD - 4 && Room(b) >= size
    ensures InBlock(b, AlignPtr(b.last), size)
  {
  }

  lemma BumpInside(b: Block, size: nat)
    requires BlockSound(b) && b.end <= WORD - 4 && InBlock(b, AlignPtr(b.last), size)
    ensures b.last <= AlignPtr(b.last) && AlignPtr(b.last) % 4 == 0
    ensures Bumped(b, size).last == AlignPtr(b.last) + size
  {
  }

  // A bump leaves the earlier pieces where they are; a new block does too.
  lemma EscapesAfterBump(blocks: seq<Block>, regions: seq<Region>, k: nat, size: nat, m: nat)
    requires k < |blocks|
    ensures NoEscape(blocks[k := Bumped(blocks[k], size)], regions + [Region(false, AgeAt(blocks, k), m, size)])
      <==> NoEscape(blocks, regions) && InBlock(blocks[k], m, size)
  {
    HomesAfterBump(blocks, k, size);
    var blocks', r := blocks[k := Bumped(blocks[k], size)], Region(false, AgeAt(blocks, k), m, size);
    var regions' := regions + [r];
    forall i | 0 <= i < |regions| ensures Stays(blocks', regions'[i]) <==> Stays(blocks, regions[i]) { }
    assert regions'[|regions|] == r;
    assert Stays(blocks', r) <==> InBlock(blocks[k], m, size);
    assert NoEscape(blocks', regions') ==> forall i :: 0 <= i < |regions| ==> Stays(blocks', regions'[i]);
  }

  lemma EscapesAfterAdd(p: Pool, regions: seq<Region>, size: nat, a: nat)
    requires p.current < |p.blocks| && Placed(p.blocks, regions) && a % 4 == 0 && a + HEADER <= WORD - 4
    ensures NoEscape(AddBlock(p, size, a).blocks, regions + [Region(true, |p.blocks|, AlignPtr(a + HEADER), size)])
      <==> NoEscape(p.blocks, regions)
  {
    HomesAfterAdd(p, size, a);
    var blocks', r := AddBlock(p, size, a).blocks, Region(true, |p.blocks|, AlignPtr(a + HEADER), size);
    var regions' := regions + [r];
    forall i | 0 <= i < |regions| ensures Stays(blocks', regions'[i]) <==> Stays(p.blocks, regions[i]) {
      assert PieceOk(p.blocks, regions[i]);
      assert SameSpan(Home(blocks', regions[i].block), Home(p.blocks, regions[i].block));
    }
    assert regions'[|regions|] == r && Stays(blocks', r);
    assert NoEscape(blocks', regions') ==> forall i :: 0 <= i < |regions| ==> Stays(blocks', regions'[i]);
  }

  lemma GeometryAfterBump(blocks: seq<Block>, regions: seq<Region>, k: nat, size: nat)
    requires Placed(blocks, regions) && Geometry(blocks, regions)
    requires k < |blocks| && blocks[k].end <= WORD - 4 && InBlock(blocks[k], AlignPtr(blocks[k].last), size)
    ensures Placed(blocks[k := Bumped(blocks[k], size)],
                   regions + [Region(false, AgeAt(blocks, k), AlignPtr(blocks[k].last), size)])
    ensures Geometry(blocks[k := Bumped(blocks[k], size)],
                     regions + [Region(false, AgeAt(blocks, k), AlignPtr(blocks[k].last), size)])
  {
    var b := blocks[k];
    assert BlockSound(Home(blocks, AgeAt(blocks, k)));
    BumpInside(b, size);
    PlacedAfterBump(blocks, regions, k, size, AlignPtr(b.last));
    HomesAfterBump(blocks, k, size);
    var blocks' := blocks[k := Bumped(b, size)];
    var r := Region(false, AgeAt(blocks, k), AlignPtr(b.last), size);
    forall age | 0 <= age < |blocks'| ensures BlockSound(Home(blocks', age)) {
      assert BlockSound(Home(blocks, age));
    }
    forall i | 0 <= i < |regions + [r]| ensures PieceServed(blocks', (regions + [r])[i]) {
      if i < |regions| { assert PieceServed(blocks, regions[i]); }
    }
    forall i, j | 0 <= i < j < |regions + [r]| ensures PairServed((regions + [r])[i], (regions + [r])[j]) {
      if j < |regions| { assert PairServed(regions[i], regions[j]); }
      else { assert PieceServed(blocks, regions[i]); }
    }
  }

  ghost predicate SameSpan(b: Block, c: Block) {
    b.addr == c.addr && b.last == c.last && b.end == c.end
  }

  lemma HomesAfterAdd(p: Pool, size: nat, a: nat)
    requires p.current < |p.blocks|
    ensures var q := AddBlock(p, size, a);
      && |q.blocks| == |p.blocks| + 1
      && Home(q.blocks, |p.blocks|) == Block(a, a + HEADER, a + HEADER + size, 0)
      && (forall age :: 0 <= age < |p.blocks| ==> SameSpan(Home(q.blocks, age), Home(p.blocks, age)))
  {
    AddBlockAt(p, size, a);
    ChargedKeeps(p.blocks, p.current);
    var q := AddBlock(p, size, a);
    forall age | 0 <= age < |p.blocks| ensures SameSpan(Home(q.blocks, age), Home(p.blocks, age)) {
      var i := if age == 0 then 0 else |p.blocks| - age;
      assert q.blocks[if i == 0 then 0 else i + 1] == Charged(p.blocks, p.current)[i];
    }
  }

  lemma PlacedAfterAdd(p: Pool, regions: seq<Region>, size: nat, a: nat)
    requires p.current < |p.blocks| && Placed(p.blocks, regions) && a % 4 == 0 && a + HEADER <= WORD - 4
    ensures Placed(AddBlock(p, size, a).blocks, regions + [Region(true, |p.blocks|, AlignPtr(a + HEADER), size)])
  {
    HomesAfterAdd(p, size, a);
    var blocks' := AddBlock(p, size, a).blocks;
    var r := Region(true, |p.blocks|, AlignPtr(a + HEADER), size);
    forall i | 0 <= i < |regions + [r]| ensures PieceOk(blocks', (regions + [r])[i]) {
      if i < |regions| {
        assert PieceOk(p.blocks, regions[i]);
        assert SameSpan(Home(blocks', regions[i].block), Home(p.blocks, regions[i].block));
      }
    }
    forall i, j | 0 <= i < j < |regions + [r]| ensures PairOk((regions + [r])[i], (regions + [r])[j]) {
      if j < |regions| { assert PairOk(regions[i], regions[j]); } else { assert PieceOk(p.blocks, regions[i]); }
    }
    forall age | 0 < age < |blocks'| ensures HasWhole(regions + [r], age) {
      if age < |p.blocks| { WholeStays(regions, r, age); } else { assert (regions + [r])[|regions|] == r; }
    }
  }

  lemma GeometryAfterAdd(p: Pool, regions: seq<Region>, size: nat, a: nat)
    requires p.current < |p.blocks| && Placed(p.blocks, regions) && Geometry(p.blocks, regions)
    requires a % 4 == 0 && a + HEADER <= WORD - 4
    ensures var regions' := regions + [Region(true, |p.blocks|, AlignPtr(a + HEADER), size)];
      Placed(AddBlock(p, size, a).blocks, regions') && Geometry(AddBlock(p, size, a).blocks, regions')
  {
    HomesAfterAdd(p, size, a);
    PlacedAfterAdd(p, regions, size, a);
    var blocks' := AddBlock(p, size, a).blocks;
    var r := Region(true, |p.blocks|, AlignPtr(a + HEADER), size);
    forall age | 0 <= age < |blocks'| ensures BlockSound(Home(blocks', age)) {
      if age < |p.blocks| { assert BlockSound(Home(p.blocks, age)) && SameSpan(Home(blocks', age), Home(p.blocks, age)); }
    }
    forall i | 0 <= i < |regions + [r]| ensures PieceServed(blocks', (regions + [r])[i]) {
      if i < |regions| {
        assert PieceServed(p.blocks, regions[i]);
        assert SameSpan(Home(blocks', regions[i].block), Home(p.blocks, regions[i].block));
      }
    }
    forall i, j | 0 <= i < j < |regions + [r]| ensures PairServed((regions + [r])[i], (regions + [r])[j]) {
      if j < |regions| { assert PairServed(regions[i], regions[j]); } else { assert PieceOk(p.blocks, regions[i]); }
    }
  }

  lemma EndsAlignedBefore(p: Pool, size: nat, a: nat)
    requires p.current < |p.blocks| && EndsAligned(AddBlock(p, size, a).blocks)
    ensures EndsAligned(p.blocks)
  {
    HomesAfterAdd(p, size, a);
    forall age | 0 <= age < |p.blocks| ensures Home(p.blocks, age).end % 4 == 0 {
      assert SameSpan(Home(AddBlock(p, size, a).blocks, age), Home(p.blocks, age));
    }
  }

  lemma ChainAfterBump(p: Pool, order: seq<nat>, k: nat, size: nat)
    requires Chain(p, order) && k < |p.blocks|
    ensures Chain(p.(blocks := p.blocks[k := Bumped(p.blocks[k], size)]), order)
  {
  }

  lemma AlignedBeforeBump(blocks: seq<Block>, k: nat, size: nat)
    requires k < |blocks| && EndsAligned(blocks[k := Bumped(blocks[k], size)])
    ensures EndsAligned(blocks)
  {
    HomesAfterBump(blocks, k, size);
    forall age | 0 <= age < |blocks| ensures Home(blocks, age).end % 4 == 0 {
      assert Home(blocks[k := Bumped(blocks[k], size)], age).end == Home(blocks, age).end;
    }
  }

  lemma AlignedFits(w: World, k: nat, size: nat)
    requires Inv(w) && EndsAligned(w.pool.blocks) && k < |w.pool.blocks| && Room(w.pool.blocks[k]) >= size
    ensures InBlock(w.pool.blocks[k], AlignPtr(w.pool.blocks[k].last), size)
  {
    var age := AgeAt(w.pool.blocks, k);
    assert BlockSound(Home(w.pool.blocks, age)) && Home(w.pool.blocks, age).end % 4 == 0;
    FitsAligned(w.pool.blocks[k], size);
  }

  lemma InvAfterBump(w: World, size: nat, a: nat, n: nat)
    requires Inv(w) && Enabled(w, Alloc(size, a, n)) && RouteOf(w.pool, size).FromBlock?
    ensures Inv(Step(w, Alloc(size, a, n)))
  {
    var k := RouteOf(w.pool, size).k;
    var blocks' := w.pool.blocks[k := Bumped(w.pool.blocks[k], size)];
    OwnsAfterBump(w.heap, w.pool, k, size);
    PlacedAfterBump(w.pool.blocks, w.regions, k, size, AlignPtr(w.pool.blocks[k].last));
    ChainAfterBump(w.pool, w.order, k, size);
    EscapesAfterBump(w.pool.blocks, w.regions, k, size, AlignPtr(w.pool.blocks[k].last));
    if EndsAligned(blocks') {
      AlignedBeforeBump(w.pool.blocks, k, size);
      AlignedFits(w, k, size);
    }
    if NoEscape(w.pool.blocks, w.regions) && InBlock(w.pool.blocks[k], AlignPtr(w.pool.blocks[k].last), size) {
      GeometryAfterBump(w.pool.blocks, w.regions, k, size);
    }
  }

  lemma InvAfterAdd(w: World, size: nat, a: nat, n: nat)
    requires Inv(w) && Enabled(w, Alloc(size, a, n)) && RouteOf(w.pool, size).NewBlock?
    ensures Inv(Step(w, Alloc(size, a, n)))
  {
    HeapAfterAlloc(w.heap, w.pool, size, a, n);
    OwnsAfterAddBlock(w.heap, w.pool, size, a);
    PlacedAfterAdd(w.pool, w.regions, size, a);
    ChainAfterAddBlock(w.pool, w.order, size, a);
    EscapesAfterAdd(w.pool, w.regions, size, a);
    if EndsAligned(AddBlock(w.pool, size, a).blocks) { EndsAlignedBefore(w.pool, size, a); }
    if NoEscape(w.pool.blocks, w.regions) { GeometryAfterAdd(w.pool, w.regions, size, a); }
  }

  // The part of the invariant that is not about the heap.
  ghost predicate PoolInv(p: Pool, regions: seq<Region>, order: seq<nat>) {
    && Chain(p, order) && Placed(p.blocks, regions)
    && (NoEscape(p.blocks, regions) ==> Geometry(p.blocks, regions))
    && (EndsAligned(p.blocks) ==> NoEscape(p.blocks, regions))
  }

  lemma LargeStepKeepsPoolInv(p: Pool, regions: seq<Region>, order: seq<nat>, large: seq<Node>)
    requires PoolInv(p, regions, order)
    ensures PoolInv(p.(large := large), regions, order)
  {
  }

  lemma InvAfterLarge(w: World, size: nat, a: nat, n: nat)
    requires Inv(w) && Enabled(w, Alloc(size, a, n))
    requires RouteOf(w.pool, size).ReuseSlot? || RouteOf(w.pool, size).PushNode?
    ensures Inv(Step(w, Alloc(size, a, n)))
  {
    var p := AllocPool(w.pool, size, a, n);
    HeapAfterAlloc(w.heap, w.pool, size, a, n);
    OwnsAfterLarge(w.heap, w.pool, size, a, n);
    LargeStepKeepsPoolInv(w.pool, w.regions, w.order, p.large);
    OccupiedAfterLarge(w.pool, size, a, n);
    assert p == w.pool.(large := p.large);
  }

  lemma OccupiedAfterLarge(p: Pool, size: nat, a: nat, n: nat)
    requires p.current < |p.blocks| && a != 0
    requires RouteOf(p, size).ReuseSlot? || RouteOf(p, size).PushNode?
    ensures Occupied(AllocPool(p, size, a, n).large) == Occupied(p.large) + 1
  {
    match RouteOf(p, size)
    case ReuseSlot(k) => OccupiedAfterSlot(p.large, k, a);
    case PushNode => assert AllocPool(p, size, a, n).large[1..] == p.large;
  }

  lemma InvAfterFree(w: World, q: nat)
    requires Inv(w)
    ensures Inv(Step(w, Free(q)))
  {
    OwnsAfterFree(w.heap, w.pool, q);
    LargeStepKeepsPoolInv(w.pool, w.regions, w.order, FreePool(w.pool, q).large);
    var k := FindSlot(w.pool.large, q);
    if k < |w.pool.large| { OccupiedAfterSlot(w.pool.large, k, 0); }
  }

  lemma InvAfterStep(w: World, e: Event)
    requires Inv(w)
    ensures Inv(Step(w, e))
  {
    if Enabled(w, e) {
      match e
      case Free(q) => InvAfterFree(w, q);
      case Alloc(size, a, n) =>
        match RouteOf(w.pool, size)
        case FromBlock(_) => InvAfterBump(w, size, a, n);
        case NewBlock => InvAfterAdd(w, size, a, n);
        case _ => InvAfterLarge(w, size, a, n);
    }
  }

  lemma InvAfterCreate(heap: HeapMap, size: nat, a: nat)
    requires HeapOk(heap) && Grants(heap, a, size + HEADER)
    ensures Inv(Create(heap, size, a))
  {
    OwnsAfterCreate(heap, size, a);
    CreateFits(size, a);
    assert BlockSound(Home(Create(heap, size, a).pool.blocks, 0));
  }

  lemma {:induction false} InvAfterRun(w: World, events: seq<Event>)
    requires Inv(w)
    ensures Inv(Run(w, events))
    decreases |events|
  {
    if events != [] {
      InvAfterStep(w, events[0]);
      InvAfterRun(Step(w, events[0]), events[1..]);
    }
  }
}
