/** What holds of every run of the memory pool: how far the search goes, which
    pieces of memory share bytes, and where the large regions are. */
module PoolTheorems {
  import opened PoolModel
  import opened PoolRuns

  ghost predicate Reachable(w: World) {
    exists heap: HeapMap, size: nat, a: nat, events: seq<Event> :: StartsRun(heap, size, a, events, w)
  }

  ghost predicate StartsRun(heap: HeapMap, size: nat, a: nat, events: seq<Event>, w: World) {
    HeapOk(heap) && Grants(heap, a, size + HEADER) && w == Run(Create(heap, size, a), events)
  }

  lemma ReachableInv(w: World)
    requires Reachable(w)
    ensures Inv(w)
  {
    var heap: HeapMap, size: nat, a: nat, events: seq<Event> :| StartsRun(heap, size, a, events, w);
    InvAfterCreate(heap, size, a);
    InvAfterRun(Create(heap, size, a), events);
  }

  // ----------------------------------------------------------- the search list

  function SearchList(p: Pool): seq<nat>
    requires p.current <= |p.blocks|
  {
    seq<nat>(|p.blocks| - p.current, i requires 0 <= i < |p.blocks| - p.current => p.blocks[p.current + i].addr)
  }

  predicate Suffix(s: seq<nat>, t: seq<nat>) {
    |s| <= |t| && s == t[|t| - |s|..]
  }

  // However many blocks were added, an allocation visits at most seven of them.
  // current leaves the head with the seventh added block, and from the eighth on
  // it is the oldest added block.
  lemma SearchIsShort(w: World)
    requires Reachable(w)
    ensures w.pool.current < |w.pool.blocks| == |w.order| + 1
    ensures 1 <= |SearchList(w.pool)| <= 7
    ensures w.pool.current == 0 <==> |w.order| < 7
    ensures |w.order| >= 8 ==> SearchList(w.pool) == [w.order[0]]
  {
    ReachableInv(w);
  }

  lemma AddrsAfterAdd(p: Pool, size: nat, a: nat)
    requires p.current < |p.blocks|
    ensures |AddBlock(p, size, a).blocks| == |p.blocks| + 1
    ensures forall i :: 1 < i < |AddBlock(p, size, a).blocks| ==>
      AddBlock(p, size, a).blocks[i].addr == p.blocks[i - 1].addr
  {
  }

  lemma SearchShrinksAfterAdd(p: Pool, size: nat, a: nat)
    requires 0 < p.current < |p.blocks|
    ensures 0 < AddBlock(p, size, a).current < |AddBlock(p, size, a).blocks|
    ensures Suffix(SearchList(AddBlock(p, size, a)), SearchList(p))
  {
    ScanInChain(p.blocks, p.current, p.current);
    AddrsAfterAdd(p, size, a);
  }

  lemma SameSearch(p: Pool, q: Pool)
    requires p.current == q.current < |p.blocks| == |q.blocks|
    requires forall i :: 0 <= i < |p.blocks| ==> p.blocks[i].addr == q.blocks[i].addr
    ensures Suffix(SearchList(q), SearchList(p))
  {
    assert SearchList(q) == SearchList(p);
  }

  lemma SearchShrinksStep(w: World, e: Event)
    requires 0 < w.pool.current < |w.pool.blocks|
    ensures 0 < Step(w, e).pool.current < |Step(w, e).pool.blocks|
    ensures Suffix(SearchList(Step(w, e).pool), SearchList(w.pool))
  {
    if e.Alloc? && Enabled(w, e) && RouteOf(w.pool, e.size).NewBlock? {
      SearchShrinksAfterAdd(w.pool, e.size, e.a);
    } else {
      SameSearch(w.pool, Step(w, e).pool);
    }
  }

  // Once current has left the head, every later search list is a suffix of this one.
  lemma {:induction false} SearchShrinks(w: World, events: seq<Event>)
    requires 0 < w.pool.current < |w.pool.blocks|
    ensures Run(w, events).pool.current < |Run(w, events).pool.blocks|
    ensures Suffix(SearchList(Run(w, events).pool), SearchList(w.pool))
    decreases |events|
  {
    if events != [] {
      SearchShrinksStep(w, events[0]);
      SearchShrinks(Step(w, events[0]), events[1..]);
    }
  }

  // -------------------------------------------------- which pieces share bytes

  predicate SharesByte(a: nat, m: nat, b: nat, n: nat) {
    (if a < b then b else a) < (if a + m < b + n then a + m else b + n)
  }

  lemma HomesApart(w: World, g: nat, h: nat)
    requires Inv(w) && g < |w.pool.blocks| && h < |w.pool.blocks| && g != h
    ensures var b, c := Home(w.pool.blocks, g), Home(w.pool.blocks, h);
      b.addr <= b.end && c.addr <= c.end && Apart(b.addr, b.end - b.addr, c.addr, c.end - c.addr)
  {
    var i, j := if g == 0 then 0 else |w.pool.blocks| - g, if h == 0 then 0 else |w.pool.blocks| - h;
    assert i < j ==> w.pool.blocks[i].addr != w.pool.blocks[j].addr;
    assert j < i ==> w.pool.blocks[j].addr != w.pool.blocks[i].addr;
  }

  // With aligned block ends no request escapes.
  lemma AlignedEndsKeepPieces(w: World)
    requires Reachable(w) && EndsAligned(w.pool.blocks)
    ensures NoEscape(w.pool.blocks, w.regions)
  {
    ReachableInv(w);
  }

  // While no request escaped every piece is 4-aligned and lies inside its block.
  lemma PieceInside(w: World, i: nat)
    requires Reachable(w) && NoEscape(w.pool.blocks, w.regions) && i < |w.regions|
    ensures var r := w.regions[i];
      && r.block < |w.pool.blocks| && r.addr % 4 == 0
      && Home(w.pool.blocks, r.block).addr + HEADER <= r.addr
      && r.addr + r.size <= Home(w.pool.blocks, r.block).end
  {
    ReachableInv(w);
    assert PieceOk(w.pool.blocks, w.regions[i]) && PieceServed(w.pool.blocks, w.regions[i]);
    assert BlockSound(Home(w.pool.blocks, w.regions[i].block));
  }

  // The exact sharing between two pieces handed out in this order: none, except
  // that the block-adding call leaves its piece in the block's free space, so
  // every later non-empty piece of that block lies inside it.
  lemma SharingIsExactly(w: World, i: nat, j: nat)
    requires Reachable(w) && NoEscape(w.pool.blocks, w.regions) && i < j < |w.regions|
    ensures var r, s := w.regions[i], w.regions[j];
      SharesByte(r.addr, r.size, s.addr, s.size) <==> r.whole && r.block == s.block && 0 < s.size
  {
    ReachableInv(w);
    var r, s := w.regions[i], w.regions[j];
    PieceInside(w, i);
    PieceInside(w, j);
    assert PairOk(r, s) && PairServed(r, s);
    assert PieceOk(w.pool.blocks, r) && PieceServed(w.pool.blocks, s);
    assert BlockSound(Home(w.pool.blocks, s.block));
    if r.block != s.block { HomesApart(w, r.block, s.block); }
  }

  predicate PiecesApart(r: Region, s: Region) {
    !SharesByte(r.addr, r.size, s.addr, s.size)
  }

  predicate EmptyOrSafe(r: Region) {
    r.whole || r.block == 0 || r.size == 0
  }

  // So all pieces of a run are apart exactly if every piece cut from the free space of
  // an added block is empty.
  lemma AllPiecesApartIff(w: World)
    requires Reachable(w) && NoEscape(w.pool.blocks, w.regions)
    ensures (forall i, j :: 0 <= i < j < |w.regions| ==> PiecesApart(w.regions[i], w.regions[j]))
      <==> (forall j :: 0 <= j < |w.regions| ==> EmptyOrSafe(w.regions[j]))
  {
    ReachableInv(w);
    forall i, j | 0 <= i < j < |w.regions|
      ensures PiecesApart(w.regions[i], w.regions[j])
         <==> !(w.regions[i].whole && w.regions[i].block == w.regions[j].block && 0 < w.regions[j].size)
      ensures PairOk(w.regions[i], w.regions[j])
    {
      SharingIsExactly(w, i, j);
    }
    forall j | 0 <= j < |w.regions| && !EmptyOrSafe(w.regions[j])
      ensures exists i :: 0 <= i < j && !PiecesApart(w.regions[i], w.regions[j])
    {
      assert PieceOk(w.pool.blocks, w.regions[j]);
      assert HasWhole(w.regions, w.regions[j].block);
      var i :| 0 <= i < |w.regions| && w.regions[i].whole && w.regions[i].block == w.regions[j].block;
      WholeComesFirst(w, i, j);
    }
    forall i | 0 <= i < |w.regions| ensures w.regions[i].whole ==> 0 < w.regions[i].block {
      assert PieceOk(w.pool.blocks, w.regions[i]);
    }
  }

  lemma WholeComesFirst(w: World, i: nat, j: nat)
    requires Inv(w) && i < |w.regions| && j < |w.regions|
    requires w.regions[i].whole && !w.regions[j].whole && w.regions[i].block == w.regions[j].block
    ensures i < j
  {
    var lo, hi := if i < j then i else j, if i < j then j else i;
    assert lo < hi ==> PairOk(w.regions[lo], w.regions[hi]);
  }

  predicate LiveLarge(w: World, k: int) {
    0 <= k < |w.pool.large| && w.pool.large[k].alloc != 0
  }

  // A live large region is 4-aligned, apart from every piece and from every other
  // live large region, and no other node points to it.
  lemma LargeIsApart(w: World, k: nat)
    requires Reachable(w) && LiveLarge(w, k)
    ensures var a := w.pool.large[k].alloc;
      && a in w.heap && a % 4 == 0
      && (forall j :: 0 <= j < |w.pool.large| && j != k ==> w.pool.large[j].alloc != a)
      && (forall j :: LiveLarge(w, j) && j != k ==>
            w.pool.large[j].alloc in w.heap &&
            Apart(a, w.heap[a], w.pool.large[j].alloc, w.heap[w.pool.large[j].alloc]))
      && (NoEscape(w.pool.blocks, w.regions) ==> forall i :: 0 <= i < |w.regions| ==>
            Apart(a, w.heap[a], w.regions[i].addr, w.regions[i].size))
  {
    ReachableInv(w);
    var a := w.pool.large[k].alloc;
    assert NodeOk(w.heap, w.pool.large[k]);
    forall j | 0 <= j < |w.pool.large| && j != k
      ensures w.pool.large[j].alloc != a
      ensures LiveLarge(w, j) ==>
        w.pool.large[j].alloc in w.heap && Apart(a, w.heap[a], w.pool.large[j].alloc, w.heap[w.pool.large[j].alloc])
    {
      assert NodeOk(w.heap, w.pool.large[j]);
      assert if j < k then NodesApart(w.pool.large[j], w.pool.large[k]) else NodesApart(w.pool.large[k], w.pool.large[j]);
    }
    if NoEscape(w.pool.blocks, w.regions) {
      forall i | 0 <= i < |w.regions| ensures Apart(a, w.heap[a], w.regions[i].addr, w.regions[i].size) {
        PieceInside(w, i);
        BlockAndLargeApart(w, w.regions[i].block, k);
      }
    }
  }

  // The pool of a run keeps the size it was created with.
  lemma {:induction false} MaxStays(w: World, events: seq<Event>)
    ensures Run(w, events).pool.max == w.pool.max
    decreases |events|
  {
    if events != [] {
      MaxOfStep(w, events[0]);
      MaxStays(Step(w, events[0]), events[1..]);
    }
  }

  lemma MaxOfStep(w: World, e: Event)
    ensures Step(w, e).pool.max == w.pool.max
  {
  }

  // What a request larger than the pool gets in any run: the region malloc gave, new,
  // of that size, 4-aligned, kept in a live node of the list, and one that can be given
  // back.
  lemma LargeRequestServed(heap: HeapMap, max: nat, a0: nat, events: seq<Event>, size: nat, a: nat, n: nat)
    requires HeapOk(heap) && Grants(heap, a0, max + HEADER) && size > max
    requires Enabled(Run(Create(heap, max, a0), events), Alloc(size, a, n))
    ensures var w := Run(Create(heap, max, a0), events);
      var v, m := Step(w, Alloc(size, a, n)), AllocResult(w.pool, size, a);
      && m !in w.heap && m in v.heap && v.heap[m] == size && 0 < m && m % 4 == 0 && m + size <= WORD
      && FreeResult(v.pool, m) == 0 && HasLarge(v, m)
  {
    var w := Run(Create(heap, max, a0), events);
    assert StartsRun(heap, max, a0, events, w);
    ReachableInv(w);
    MaxStays(Create(heap, max, a0), events);
    LargeIsKept(w.heap, w.pool, size, a, n);
    var v := Step(w, Alloc(size, a, n));
    var k := FindSlot(v.pool.large, a);
    assert LiveLarge(v, k);
  }

  ghost predicate HasLarge(w: World, m: nat) {
    exists k :: LiveLarge(w, k) && w.pool.large[k].alloc == m
  }

  lemma BlockAndLargeApart(w: World, age: nat, k: nat)
    requires Inv(w) && age < |w.pool.blocks| && LiveLarge(w, k)
    ensures var b, a := Home(w.pool.blocks, age), w.pool.large[k].alloc;
      a in w.heap && b.addr <= b.end && Apart(a, w.heap[a], b.addr, b.end - b.addr)
  {
    assert NodeOk(w.heap, w.pool.large[k]);
    var i := if age == 0 then 0 else |w.pool.blocks| - age;
    assert w.pool.blocks[i].addr != w.pool.large[k].alloc;
  }

  predicate AwayFromPiece(w: World, i: int, m: nat, size: nat) {
    0 <= i < |w.regions| ==> !SharesByte(w.regions[i].addr, w.regions[i].size, m, size)
  }

  predicate AwayFromLarge(w: World, k: int, m: nat, size: nat) {
    LiveLarge(w, k) ==>
      w.pool.large[k].alloc in w.heap && !SharesByte(w.pool.large[k].alloc, w.heap[w.pool.large[k].alloc], m, size)
  }

  // The bytes [m, m + size) are in no piece and in no live large region of w.
  ghost predicate Unshared(w: World, m: nat, size: nat) {
    && (forall i :: AwayFromPiece(w, i, m, size))
    && (forall k :: AwayFromLarge(w, k, m, size))
  }

  // The aligned free pointer lies between the header and the end.
  predicate PointerInside(b: Block) {
    b.addr + HEADER <= AlignPtr(b.last) <= b.end
  }

  // A call returns memory nobody else uses exactly if it is empty, or the first
  // block with room is the head, or no block has room, or it is a large request.
  // A caller can read that condition off the pool before the call. No request so far
  // may have escaped, nor does this one: EscapeHitsLarge.
  lemma ReturnsUnsharedMemoryIff(w: World, size: nat, a: nat, n: nat)
    requires Reachable(w) && Enabled(w, Alloc(size, a, n)) && NoEscape(w.pool.blocks, w.regions)
    requires RouteOf(w.pool, size).FromBlock? ==> PointerInside(w.pool.blocks[RouteOf(w.pool, size).k])
    ensures Unshared(w, AllocResult(w.pool, size, a), size)
      <==> size == 0 || !RouteOf(w.pool, size).FromBlock? || RouteOf(w.pool, size).k == 0
  {
    ReachableInv(w);
    match RouteOf(w.pool, size)
    case FromBlock(k) => BumpUnsharedIff(w, size, a, n);
    case NewBlock => NewBlockUnshared(w, size, a);
    case _ => GrantUnshared(w, a, size, a, size);
  }

  lemma AlignedStart(a: nat)
    requires a % 4 == 0 && a + HEADER < WORD
    ensures AlignPtr(a + HEADER) == a + HEADER
  {
  }

  lemma NewBlockUnshared(w: World, size: nat, a: nat)
    requires Reachable(w) && w.pool.current < |w.pool.blocks| && NoEscape(w.pool.blocks, w.regions)
    requires Grants(w.heap, a, size + HEADER)
    ensures Unshared(w, AlignPtr(a + HEADER), size)
  {
    AlignedStart(a);
    GrantUnshared(w, a, size + HEADER, a + HEADER, size);
  }

  lemma GrantAwayFromPiece(w: World, a: nat, total: nat, m: nat, size: nat, i: int)
    requires Reachable(w) && NoEscape(w.pool.blocks, w.regions) && Grants(w.heap, a, total)
    requires a <= m && m + size <= a + total
    ensures AwayFromPiece(w, i, m, size)
  {
    if 0 <= i < |w.regions| {
      ReachableInv(w);
      PieceInside(w, i);
      BlockApartFromGrant(w, w.regions[i].block, a, total);
    }
  }

  lemma BlockApartFromGrant(w: World, age: nat, a: nat, total: nat)
    requires Owns(w.heap, w.pool) && age < |w.pool.blocks| && Grants(w.heap, a, total)
    ensures var b := Home(w.pool.blocks, age); b.addr <= b.end && Apart(a, total, b.addr, b.end - b.addr)
  {
    var b := Home(w.pool.blocks, age);
    assert b.addr in w.heap && Apart(a, total, b.addr, w.heap[b.addr]);
  }

  lemma GrantAwayFromLarge(w: World, a: nat, total: nat, m: nat, size: nat, k: int)
    requires Owns(w.heap, w.pool) && Grants(w.heap, a, total)
    requires a <= m && m + size <= a + total
    ensures AwayFromLarge(w, k, m, size)
  {
    if LiveLarge(w, k) { assert NodeOk(w.heap, w.pool.large[k]); }
  }

  // Memory inside a region malloc has just granted is in nothing handed out before.
  lemma GrantUnshared(w: World, a: nat, total: nat, m: nat, size: nat)
    requires Reachable(w) && NoEscape(w.pool.blocks, w.regions) && Grants(w.heap, a, total)
    requires a <= m && m + size <= a + total
    ensures Unshared(w, m, size)
  {
    forall i ensures AwayFromPiece(w, i, m, size) { GrantAwayFromPiece(w, a, total, m, size, i); }
    ReachableInv(w);
    forall k ensures AwayFromLarge(w, k, m, size) { GrantAwayFromLarge(w, a, total, m, size, k); }
  }

  lemma ReachableStep(w: World, e: Event)
    requires Reachable(w)
    ensures Reachable(Step(w, e))
  {
    var heap: HeapMap, size: nat, a: nat, events: seq<Event> :| StartsRun(heap, size, a, events, w);
    RunAppend(Create(heap, size, a), events, e);
    assert StartsRun(heap, size, a, events + [e], Step(w, e));
  }

  lemma {:induction false} RunAppend(w: World, events: seq<Event>, e: Event)
    ensures Run(w, events + [e]) == Step(Run(w, events), e)
    decreases |events|
  {
    if events != [] {
      assert (events + [e])[1..] == events[1..] + [e];
      RunAppend(Step(w, events[0]), events[1..], e);
    } else {
      assert ([] + [e])[1..] == [];
    }
  }

  lemma BumpUnsharedIff(w: World, size: nat, a: nat, n: nat)
    requires Reachable(w) && Enabled(w, Alloc(size, a, n)) && RouteOf(w.pool, size).FromBlock?
    requires NoEscape(w.pool.blocks, w.regions) && PointerInside(w.pool.blocks[RouteOf(w.pool, size).k])
    ensures Unshared(w, AllocResult(w.pool, size, a), size) <==> size == 0 || RouteOf(w.pool, size).k == 0
  {
    var v := Step(w, Alloc(size, a, n));
    var m, age := AllocResult(w.pool, size, a), AgeAt(w.pool.blocks, RouteOf(w.pool, size).k);
    ReachableInv(w);
    ReachableStep(w, Alloc(size, a, n));
    assert v.regions == w.regions + [Region(false, age, m, size)];
    FitIsSoundIff(w, size, RouteOf(w.pool, size).k);
    EscapesAfterBump(w.pool.blocks, w.regions, RouteOf(w.pool, size).k, size, m);
    forall i ensures AwayFromPiece(w, i, m, size) <==>
      !(0 <= i < |w.regions| && w.regions[i].whole && w.regions[i].block == age && 0 < size)
    {
      if 0 <= i < |w.regions| { SharingIsExactly(v, i, |w.regions|); }
    }
    if age == 0 {
      forall i | 0 <= i < |w.regions| ensures !(w.regions[i].whole && w.regions[i].block == 0) {
        assert PieceOk(w.pool.blocks, w.regions[i]);
      }
    } else {
      assert HasWhole(w.regions, age);
    }
    BumpAwayFromLarge(v, m, size);
    forall k ensures AwayFromLarge(w, k, m, size) {
      assert AwayFromLarge(v, k, m, size) && (LiveLarge(w, k) ==> LiveLarge(v, k));
    }
  }

  lemma BumpAwayFromLarge(v: World, m: nat, size: nat)
    requires Reachable(v) && NoEscape(v.pool.blocks, v.regions) && |v.regions| > 0
    requires v.regions[|v.regions| - 1].addr == m && v.regions[|v.regions| - 1].size == size
    ensures forall k :: AwayFromLarge(v, k, m, size)
  {
    ReachableInv(v);
    var last := |v.regions| - 1;
    PieceInside(v, last);
    forall k ensures AwayFromLarge(v, k, m, size) {
      if LiveLarge(v, k) { BlockAndLargeApart(v, v.regions[last].block, k); }
    }
  }

  // Two live pieces with the same address, in three calls.
  predicate SharedPieces(w: World) {
    |w.regions| == 3 && w.regions[1] == Region(true, 1, 4124, 4) && w.regions[2] == Region(false, 1, 4124, 4)
  }

  lemma SharingHappens()
    ensures exists w :: Reachable(w) && EndsAligned(w.pool.blocks) && SharedPieces(w)
  {
    SharingReached();
    SharingShape(Sharing(3));
  }

  lemma SharingShape(w: World)
    requires w == Sharing(3)
    ensures EndsAligned(w.pool.blocks) && SharedPieces(w)
  {
    assert |w.pool.blocks| == 2 && w.pool.blocks[0].end == 1056 && w.pool.blocks[1].end == 4128;
  }

  lemma SharingReached()
    ensures Reachable(Sharing(3))
  {
    var e := Alloc(4, 4096, 0);
    assert Grants(map[], 1024, 4 + HEADER);
    SharingStep0();
    SharingStep1();
    SharingStep2();
    RunThree(Sharing(0), e, e, e);
    assert StartsRun(map[], 4, 1024, [e, e, e], Sharing(3));
  }

  // The worlds of that run.
  function Sharing(i: nat): World {
    var head := Block(1024, if i == 0 then 1052 else 1056, 1056, 0);
    var first := Region(false, 0, 1052, 4);
    if i < 2 then World(map[1024 := 32], Pool(4, [head], 0, []), if i == 0 then [] else [first], [], 0, 0)
    else World(map[1024 := 32, 4096 := 32],
               Pool(4, [head, Block(4096, if i == 2 then 4124 else 4128, 4128, 0)], 0, []),
               [first, Region(true, 1, 4124, 4)] + (if i == 2 then [] else [Region(false, 1, 4124, 4)]),
               [4096], 0, 0)
  }

  lemma SharingStep0()
    ensures Create(map[], 4, 1024) == Sharing(0)
    ensures Step(Sharing(0), Alloc(4, 4096, 0)) == Sharing(1)
  {
  }

  lemma SharingStep1()
    ensures Step(Sharing(1), Alloc(4, 4096, 0)) == Sharing(2)
  {
    var w := Sharing(1);
    assert RouteOf(w.pool, 4) == NewBlock;
    var p := AddBlock(w.pool, 4, 4096);
    assert p.blocks == Sharing(2).pool.blocks;
  }

  lemma SharingStep2()
    ensures Step(Sharing(2), Alloc(4, 4096, 0)) == Sharing(3)
  {
    var w := Sharing(2);
    assert Room(w.pool.blocks[0]) == 0;
    assert FirstFit(w.pool.blocks, 0, 4) == 1;
    assert w.pool.blocks[1 := Bumped(w.pool.blocks[1], 4)] == Sharing(3).pool.blocks;
  }

  lemma RunFirst(w: World, e: Event, events: seq<Event>)
    ensures Run(w, [e] + events) == Run(Step(w, e), events)
  {
    assert ([e] + events)[1..] == events;
  }

  lemma RunTwo(w: World, e: Event, f: Event)
    ensures Run(w, [e, f]) == Step(Step(w, e), f)
  {
    assert [e, f] == [e] + ([f] + []);
    RunFirst(w, e, [f] + []);
    RunFirst(Step(w, e), f, []);
  }

  lemma RunThree(w: World, e: Event, f: Event, g: Event)
    ensures Run(w, [e, f, g]) == Step(Step(Step(w, e), f), g)
  {
    assert [e, f, g] == [e] + [f, g];
    RunFirst(w, e, [f, g]);
    RunTwo(Step(w, e), f, g);
  }

  // --------------------------------------------------------- unaligned ends

  // In any run, a request that passes the fit test of a block is served inside that
  // block exactly if the block's aligned free pointer lies between its header and
  // its end.
  lemma FitIsSoundIff(w: World, size: nat, k: nat)
    requires Reachable(w) && w.pool.current < |w.pool.blocks| && RouteOf(w.pool, size) == FromBlock(k)
    ensures k < |w.pool.blocks|
    ensures InBlock(w.pool.blocks[k], AllocResult(w.pool, size, 0), size) <==> PointerInside(w.pool.blocks[k])
  {
    BlockEndFits(w, k);
    FitInside(w.pool.blocks[k], size);
  }

  lemma BlockEndFits(w: World, k: nat)
    requires Reachable(w) && k < |w.pool.blocks|
    ensures w.pool.blocks[k].end < WORD
  {
    ReachableInv(w);
  }

  lemma FitInside(b: Block, size: nat)
    requires b.end < WORD && Room(b) >= size
    ensures AlignPtr(b.last) + size <= b.end <==> AlignPtr(b.last) <= b.end
  {
  }

  // While no request escaped, a call is the first to escape exactly if a block serves
  // it whose aligned free pointer is outside.
  lemma EscapesIff(w: World, size: nat, a: nat, n: nat)
    requires Reachable(w) && Enabled(w, Alloc(size, a, n)) && NoEscape(w.pool.blocks, w.regions)
    ensures var v := Step(w, Alloc(size, a, n));
      !NoEscape(v.pool.blocks, v.regions)
      <==> RouteOf(w.pool, size).FromBlock? && !PointerInside(w.pool.blocks[RouteOf(w.pool, size).k])
  {
    match RouteOf(w.pool, size)
    case FromBlock(k) =>
      FitIsSoundIff(w, size, k);
      EscapesAfterBump(w.pool.blocks, w.regions, k, size, AllocResult(w.pool, size, a));
    case NewBlock =>
      ReachableInv(w);
      EscapesAfterAdd(w.pool, w.regions, size, a);
    case _ =>
  }

  // ------------------------------------------------- sizes that wrap in create

  lemma AlignedStays(x: nat)
    requires x % 4 == 0
    ensures AlignPtr(x % WORD) == x % WORD
  {
  }

  lemma WholeRoom(last: nat, size: nat)
    requires size < WORD
    ensures ((last + size) % WORD - last % WORD) % WORD == size
  {
  }

  // The first request of a new pool is always served from its block; it lies in the
  // region malloc gave exactly if header and size do not wrap. If they do, the region
  // does not even hold the header.
  lemma FirstRequestInsideIff(size: nat, a: nat, n: nat)
    requires size < WORD && 0 < a && a % 4 == 0 && a + MallocSize(size) <= WORD - 4 && 0 < n <= size
    ensures var p := CreatePool(size, a); var m := AllocResult(p, n, 0);
      && RouteOf(p, n) == FromBlock(0)
      && (a <= m && m + n <= a + MallocSize(size) <==> size + HEADER < WORD)
    ensures size + HEADER >= WORD ==> MallocSize(size) < HEADER
  {
    FirstRequestServed(size, a, n);
    FirstStart(size, a, n);
  }

  lemma FirstRequestServed(size: nat, a: nat, n: nat)
    requires size < WORD && a % 4 == 0 && n <= size
    ensures var p := CreatePool(size, a); RouteOf(p, n) == FromBlock(0) && AllocResult(p, n, 0) == (a + HEADER) % WORD
  {
    AlignedStays(a + HEADER);
    WholeRoom(a + HEADER, size);
    assert a + size + HEADER == a + HEADER + size;
    assert Room(CreatePool(size, a).blocks[0]) == size;
  }

  lemma FirstStart(size: nat, a: nat, n: nat)
    requires size < WORD && a + MallocSize(size) <= WORD - 4 && 0 < n <= size
    ensures a <= (a + HEADER) % WORD && (a + HEADER) % WORD + n <= a + MallocSize(size) <==> size + HEADER < WORD
    ensures size + HEADER >= WORD ==> MallocSize(size) < HEADER
  {
  }

  // A pool of 2^32 - 1 bytes: malloc is asked for 27, and the first byte is served
  // behind them.
  lemma HugePoolHappens()
    ensures MallocSize(WORD - 1) == 27 && Grants(map[], 1024, 27)
    ensures RouteOf(CreatePool(WORD - 1, 1024), 1) == FromBlock(0)
    ensures AllocResult(CreatePool(WORD - 1, 1024), 1, 0) == 1052 > 1024 + 27
  {
    FirstRequestInsideIff(WORD - 1, 1024, 1);
  }

  // A pool of five bytes: the second request is served behind the block.
  predicate EscapedPiece(w: World) {
    |w.regions| == 2 && w.regions[1] == Region(false, 0, 1060, 1) &&
    |w.pool.blocks| == 1 && w.pool.blocks[0].end == 1057
  }

  lemma EscapeHappens()
    ensures exists w :: Reachable(w) && EscapedPiece(w)
  {
    var e, f := Alloc(5, 0, 0), Alloc(1, 0, 0);
    EscapeStep0();
    EscapeStep1();
    RunTwo(Escape(0), e, f);
    assert StartsRun(map[], 5, 1024, [e, f], Escape(2));
    assert EscapedPiece(Escape(2));
  }

  // The worlds of that run.
  function Escape(i: nat): World {
    var last := if i == 0 then 1052 else if i == 1 then 1057 else 1061;
    World(map[1024 := 33], Pool(5, [Block(1024, last, 1057, 0)], 0, []),
          if i == 0 then [] else if i == 1 then [Region(false, 0, 1052, 5)]
          else [Region(false, 0, 1052, 5), Region(false, 0, 1060, 1)], [], 0, 0)
  }

  lemma EscapeStep0()
    ensures Create(map[], 5, 1024) == Escape(0)
    ensures Step(Escape(0), Alloc(5, 0, 0)) == Escape(1)
  {
  }

  lemma EscapeStep1()
    ensures Step(Escape(1), Alloc(1, 0, 0)) == Escape(2)
  {
    assert Room(Escape(1).pool.blocks[0]) == WORD - 3;
  }

  // What an escape can hit: a large region is live at 1060 when a request of one byte
  // is served there.
  function LargeHit(i: nat): World {
    var w := Escape(if i == 2 then 1 else 0);
    if i == 0 then w
    else World(w.heap[1060 := 8][2000 := 8], w.pool.(large := [Node(2000, 1060)]), w.regions, [], 1, 0)
  }

  lemma LargeHitStep0()
    ensures Step(LargeHit(0), Alloc(8, 1060, 2000)) == LargeHit(1)
  {
    assert RouteOf(LargeHit(0).pool, 8) == PushNode;
  }

  lemma LargeHitStep1()
    ensures Step(LargeHit(1), Alloc(5, 0, 0)) == LargeHit(2)
  {
    assert RouteOf(LargeHit(1).pool, 5) == FromBlock(0);
  }

  lemma EscapeHitsLarge()
    ensures exists w :: Reachable(w) && NoEscape(w.pool.blocks, w.regions) && HitsLarge(w)
  {
    var e, f := Alloc(8, 1060, 2000), Alloc(5, 0, 0);
    EscapeStep0();
    LargeHitStep0();
    LargeHitStep1();
    RunTwo(LargeHit(0), e, f);
    assert StartsRun(map[], 5, 1024, [e, f], LargeHit(2));
    LargeHitShape(LargeHit(2));
  }

  // The next byte comes from the head, and from a live large region.
  predicate HitsLarge(w: World) {
    && w.pool.current < |w.pool.blocks| && RouteOf(w.pool, 1) == FromBlock(0)
    && LiveLarge(w, 0) && w.pool.large[0].alloc == 1060 && AllocResult(w.pool, 1, 0) == 1060
  }

  lemma LargeHitShape(w: World)
    requires w == LargeHit(2)
    ensures NoEscape(w.pool.blocks, w.regions) && HitsLarge(w)
  {
    assert Room(w.pool.blocks[0]) == WORD - 3;
  }

  ghost predicate MultiplesOfFour(events: seq<Event>) {
    forall i :: 0 <= i < |events| && events[i].Alloc? ==> events[i].size % 4 == 0
  }

  lemma EndAligned(size: nat, a: nat)
    requires size % 4 == 0 && a % 4 == 0
    ensures (a + HEADER + size) % 4 == 0
  {
  }

  lemma EndsAlignedAfterAdd(p: Pool, size: nat, a: nat)
    requires p.current < |p.blocks| && EndsAligned(p.blocks) && size % 4 == 0 && a % 4 == 0
    ensures EndsAligned(AddBlock(p, size, a).blocks)
  {
    HomesAfterAdd(p, size, a);
    EndAligned(size, a);
    var q := AddBlock(p, size, a);
    forall age | 0 <= age < |q.blocks| ensures Home(q.blocks, age).end % 4 == 0 {
      if age < |p.blocks| { assert SameSpan(Home(q.blocks, age), Home(p.blocks, age)); }
    }
  }

  lemma EndsAlignedAfterBump(blocks: seq<Block>, k: nat, size: nat)
    requires k < |blocks| && EndsAligned(blocks)
    ensures EndsAligned(blocks[k := Bumped(blocks[k], size)])
  {
    HomesAfterBump(blocks, k, size);
    var blocks' := blocks[k := Bumped(blocks[k], size)];
    forall age | 0 <= age < |blocks'| ensures Home(blocks', age).end % 4 == 0 {
      assert Home(blocks, age).end % 4 == 0;
      assert Home(blocks, AgeAt(blocks, k)).end % 4 == 0;
    }
  }

  // Callers who only ask for multiples of four keep every block end aligned.
  lemma {:induction false} MultiplesKeepEndsAligned(w: World, events: seq<Event>)
    requires EndsAligned(w.pool.blocks) && MultiplesOfFour(events)
    ensures EndsAligned(Run(w, events).pool.blocks)
    decreases |events|
  {
    if events != [] {
      var e := events[0];
      if e.Alloc? && Enabled(w, e) {
        match RouteOf(w.pool, e.size)
        case FromBlock(k) => EndsAlignedAfterBump(w.pool.blocks, k, e.size);
        case NewBlock => EndsAlignedAfterAdd(w.pool, e.size, e.a);
        case _ =>
      }
      MultiplesKeepEndsAligned(Step(w, e), events[1..]);
    }
  }

  // --------------------------------------------------------- large regions

  // Non-empty slots are the large allocations that were not given back.
  lemma SlotsBalance(w: World)
    requires Reachable(w)
    ensures Occupied(w.pool.large) == w.largeAllocs - w.largeFrees
  {
    ReachableInv(w);
  }

  lemma NoEmptySlotIff(w: World)
    ensures (FindSlot(w.pool.large, 0) >= |w.pool.large| || FindSlot(w.pool.large, 0) >= 4)
      <==> forall k :: 0 <= k < |w.pool.large| && k < 4 ==> LiveLarge(w, k)
  {
    var k := FindSlot(w.pool.large, 0);
    assert k < |w.pool.large| ==> !LiveLarge(w, k);
  }

  // A node is added exactly by a large request that finds none of the first four
  // nodes empty; no other step changes the number of nodes.
  lemma ListGrowsIff(w: World, e: Event)
    requires Reachable(w)
    ensures |w.pool.large| <= |Step(w, e).pool.large| <= |w.pool.large| + 1
    ensures |Step(w, e).pool.large| == |w.pool.large| + 1 <==>
      Enabled(w, e) && e.Alloc? && w.pool.max < e.size &&
      (forall k :: 0 <= k < |w.pool.large| && k < 4 ==> LiveLarge(w, k))
  {
    NoEmptySlotIff(w);
    if Enabled(w, e) { StepNodes(w, e); }
  }

  lemma StepNodes(w: World, e: Event)
    requires Enabled(w, e)
    ensures |Step(w, e).pool.large| == |w.pool.large| + if e.Alloc? && RouteOf(w.pool, e.size).PushNode? then 1 else 0
  {
  }

  // Giving back a non-null pointer works exactly for the live large regions, and
  // then ends that region and changes nothing else.
  lemma FreeWorksIff(w: World, q: nat)
    requires Reachable(w) && q != 0
    ensures FreeResult(w.pool, q) == 0 <==> exists k :: LiveLarge(w, k) && w.pool.large[k].alloc == q
    ensures FreeResult(w.pool, q) == 0 ==> q in w.heap && Step(w, Free(q)).heap == w.heap - {q}
    ensures FreeResult(w.pool, q) == 0 ==> |Step(w, Free(q)).pool.large| == |w.pool.large|
    ensures FreeResult(w.pool, q) == 0 ==> forall k :: 0 <= k < |w.pool.large| ==>
      Step(w, Free(q)).pool.large[k]
      == if w.pool.large[k].alloc == q then Node(w.pool.large[k].addr, 0) else w.pool.large[k]
    ensures FreeResult(w.pool, q) != 0 ==> FreeResult(w.pool, q) == -1 && Step(w, Free(q)) == w
  {
    ReachableInv(w);
    var k := FindSlot(w.pool.large, q);
    if k < |w.pool.large| {
      assert LiveLarge(w, k);
      LargeIsApart(w, k);
    }
  }
}
