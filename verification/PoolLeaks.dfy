/** memory_pool_destroy after any run: the heap is what it was before the pool
    was created. */
module PoolLeaks {
  import opened PoolModel
  import opened PoolRuns
  import opened PoolTheorems
  import opened MemoryPool

  ghost predicate NodeHas(n: Node, b: nat) {
    n.addr == b || (b != 0 && n.alloc == b)
  }

  // b is a block, a large node or a live large region of p.
  ghost predicate Has(p: Pool, b: nat) {
    (exists i :: 0 <= i < |p.blocks| && p.blocks[i].addr == b) ||
    (exists i :: 0 <= i < |p.large| && NodeHas(p.large[i], b))
  }

  // The heap consists of what was there before and of what the pool owns.
  ghost predicate NoLeak(before: HeapMap, heap: HeapMap, p: Pool) {
    && (forall b :: b in before ==> b in heap && heap[b] == before[b] && !Has(p, b))
    && (forall b :: b in heap ==> b in before || Has(p, b))
  }

  lemma HasAfterBump(p: Pool, k: nat, size: nat, b: nat)
    requires k < |p.blocks|
    ensures Has(p.(blocks := p.blocks[k := Bumped(p.blocks[k], size)]), b) <==> Has(p, b)
  {
    var q := p.(blocks := p.blocks[k := Bumped(p.blocks[k], size)]);
    assert forall i :: 0 <= i < |p.blocks| ==> q.blocks[i].addr == p.blocks[i].addr;
    if i :| 0 <= i < |p.blocks| && p.blocks[i].addr == b { assert q.blocks[i].addr == b; }
    if i :| 0 <= i < |q.blocks| && q.blocks[i].addr == b { assert p.blocks[i].addr == b; }
  }

  lemma HasAfterAdd(p: Pool, size: nat, a: nat, b: nat)
    requires p.current < |p.blocks|
    ensures Has(AddBlock(p, size, a), b) <==> b == a || Has(p, b)
  {
    var q := AddBlock(p, size, a);
    assert q.blocks[0].addr == p.blocks[0].addr && q.blocks[1].addr == a;
    AddrsAfterAdd(p, size, a);
    if i :| 0 <= i < |p.blocks| && p.blocks[i].addr == b {
      assert q.blocks[if i == 0 then 0 else i + 1].addr == b;
    }
    if i :| 0 <= i < |q.blocks| && q.blocks[i].addr == b && i != 1 {
      assert p.blocks[if i == 0 then 0 else i - 1].addr == b;
    }
  }

  // Emptying or filling slot k.
  lemma HasAfterSlot(p: Pool, k: nat, a: nat, b: nat)
    requires k < |p.large| && (a == 0 || p.large[k].alloc == 0)
    requires a == 0 ==> forall i :: 0 <= i < |p.large| && i != k && p.large[k].alloc != 0 ==> !NodeHas(p.large[i], p.large[k].alloc)
    requires forall i :: 0 <= i < |p.blocks| ==> p.blocks[i].addr != p.large[k].alloc
    requires p.large[k].addr != p.large[k].alloc
    ensures Has(p.(large := p.large[k := p.large[k].(alloc := a)]), b)
      <==> (if a == 0 then Has(p, b) && (b == 0 || b != p.large[k].alloc) else Has(p, b) || b == a)
  {
    var q := p.(large := p.large[k := p.large[k].(alloc := a)]);
    assert q.large[k] == Node(p.large[k].addr, a);
    if i :| 0 <= i < |p.large| && NodeHas(p.large[i], b) && (i != k || b == p.large[k].addr) { assert NodeHas(q.large[i], b); }
    if i :| 0 <= i < |q.large| && NodeHas(q.large[i], b) && (i != k || b == p.large[k].addr) { assert NodeHas(p.large[i], b); }
    if b == a && a != 0 { assert NodeHas(q.large[k], b); }
  }

  lemma HasAfterPush(p: Pool, a: nat, n: nat, b: nat)
    requires a != 0
    ensures Has(p.(large := [Node(n, a)] + p.large), b) <==> b == a || b == n || Has(p, b)
  {
    var q := p.(large := [Node(n, a)] + p.large);
    if i :| 0 <= i < |p.large| && NodeHas(p.large[i], b) { assert NodeHas(q.large[i + 1], b); }
    if i :| 0 < i < |q.large| && NodeHas(q.large[i], b) { assert NodeHas(p.large[i - 1], b); }
    assert NodeHas(q.large[0], a) && NodeHas(q.large[0], n);
  }

  lemma NoLeakGrows(before: HeapMap, heap: HeapMap, p: Pool, q: Pool, a: nat, n: nat)
    requires NoLeak(before, heap, p) && a !in heap
    requires forall b :: Has(q, b) <==> b == a || Has(p, b)
    ensures NoLeak(before, heap[a := n], q)
  {
  }

  lemma NoLeakGrowsTwice(before: HeapMap, heap: HeapMap, p: Pool, q: Pool, a: nat, m: nat, c: nat, n: nat)
    requires NoLeak(before, heap, p) && a !in heap && c !in heap
    requires forall b :: Has(q, b) <==> b == a || b == c || Has(p, b)
    ensures NoLeak(before, heap[a := m][c := n], q)
  {
  }

  lemma NoLeakAfterBump(before: HeapMap, heap: HeapMap, p: Pool, k: nat, size: nat)
    requires NoLeak(before, heap, p) && k < |p.blocks|
    ensures NoLeak(before, heap, p.(blocks := p.blocks[k := Bumped(p.blocks[k], size)]))
  {
    forall b ensures Has(p.(blocks := p.blocks[k := Bumped(p.blocks[k], size)]), b) <==> Has(p, b) {
      HasAfterBump(p, k, size, b);
    }
  }

  lemma NoLeakAfterReuse(before: HeapMap, heap: HeapMap, p: Pool, k: nat, a: nat, n: nat)
    requires NoLeak(before, heap, p) && Owns(heap, p) && a !in heap && a != 0 && k < |p.large| && p.large[k].alloc == 0
    ensures NoLeak(before, heap[a := n], p.(large := p.large[k := p.large[k].(alloc := a)]))
  {
    assert NodeOk(heap, p.large[k]);
    var q := p.(large := p.large[k := p.large[k].(alloc := a)]);
    forall i | 0 <= i < |p.blocks| ensures p.blocks[i].addr != p.large[k].alloc { }
    forall b ensures Has(q, b) <==> b == a || Has(p, b) { HasAfterSlot(p, k, a, b); }
    NoLeakGrows(before, heap, p, q, a, n);
  }

  lemma NoLeakAfterAlloc(before: HeapMap, w: World, size: nat, a: nat, n: nat)
    requires HeapOk(w.heap) && Owns(w.heap, w.pool) && NoLeak(before, w.heap, w.pool)
    requires AllocGranted(w.heap, w.pool, size, a, n)
    ensures NoLeak(before, AllocHeap(w.heap, w.pool, size, a, n), AllocPool(w.pool, size, a, n))
  {
    var p := w.pool;
    match RouteOf(p, size)
    case FromBlock(k) => NoLeakAfterBump(before, w.heap, p, k, size);
    case NewBlock =>
      GrantedIsFresh(w.heap, a, size + HEADER);
      forall b ensures Has(AddBlock(p, size, a), b) <==> b == a || Has(p, b) { HasAfterAdd(p, size, a, b); }
      NoLeakGrows(before, w.heap, p, AddBlock(p, size, a), a, size + HEADER);
    case ReuseSlot(k) =>
      GrantedIsFresh(w.heap, a, size);
      NoLeakAfterReuse(before, w.heap, p, k, a, size);
    case PushNode =>
      GrantedIsFresh(w.heap, a, size);
      GrantedIsFresh(w.heap[a := size], n, NODE);
      var q := p.(large := [Node(n, a)] + p.large);
      forall b ensures Has(q, b) <==> b == a || b == n || Has(p, b) { HasAfterPush(p, a, n, b); }
      NoLeakGrowsTwice(before, w.heap, p, q, a, size, n, NODE);
  }

  lemma OthersHaveNot(heap: HeapMap, p: Pool, k: nat, q: nat)
    requires LargeOk(heap, p.large) && k < |p.large| && p.large[k].alloc == q != 0
    ensures forall i :: 0 <= i < |p.large| && i != k ==> !NodeHas(p.large[i], q)
  {
    forall i | 0 <= i < |p.large| && i != k ensures !NodeHas(p.large[i], q) {
      assert if i < k then NodesApart(p.large[i], p.large[k]) else NodesApart(p.large[k], p.large[i]);
    }
  }

  lemma HasAfterFree(heap: HeapMap, p: Pool, q: nat, b: nat)
    requires Owns(heap, p) && FindSlot(p.large, q) < |p.large|
    ensures Has(FreePool(p, q), b) <==> Has(p, b) && (b == 0 || b != q)
  {
    var k := FindSlot(p.large, q);
    assert NodeOk(heap, p.large[k]);
    if q != 0 { OthersHaveNot(heap, p, k, q); }
    HasAfterSlot(p, k, 0, b);
  }

  lemma NoLeakShrinks(before: HeapMap, heap: HeapMap, p: Pool, r: Pool, q: nat)
    requires NoLeak(before, heap, p) && (q != 0 ==> Has(p, q))
    requires forall b :: Has(r, b) <==> Has(p, b) && (b == 0 || b != q)
    ensures NoLeak(before, if q != 0 then heap - {q} else heap, r)
  {
  }

  lemma NoLeakAfterFree(before: HeapMap, w: World, q: nat)
    requires Owns(w.heap, w.pool) && NoLeak(before, w.heap, w.pool)
    ensures NoLeak(before, FreeHeap(w.heap, w.pool, q), FreePool(w.pool, q))
  {
    var k := FindSlot(w.pool.large, q);
    if k < |w.pool.large| {
      assert q != 0 ==> NodeHas(w.pool.large[k], q);
      forall b ensures Has(FreePool(w.pool, q), b) <==> Has(w.pool, b) && (b == 0 || b != q) {
        HasAfterFree(w.heap, w.pool, q, b);
      }
      NoLeakShrinks(before, w.heap, w.pool, FreePool(w.pool, q), q);
    }
  }

  lemma NoLeakAfterStep(before: HeapMap, w: World, e: Event)
    requires Inv(w) && NoLeak(before, w.heap, w.pool)
    ensures NoLeak(before, Step(w, e).heap, Step(w, e).pool)
  {
    if Enabled(w, e) {
      match e
      case Alloc(size, a, n) => NoLeakAfterAlloc(before, w, size, a, n);
      case Free(q) => NoLeakAfterFree(before, w, q);
    }
  }

  lemma {:induction false} NoLeakAfterRun(before: HeapMap, w: World, events: seq<Event>)
    requires Inv(w) && NoLeak(before, w.heap, w.pool)
    ensures NoLeak(before, Run(w, events).heap, Run(w, events).pool)
    decreases |events|
  {
    if events != [] {
      NoLeakAfterStep(before, w, events[0]);
      InvAfterStep(w, events[0]);
      NoLeakAfterRun(before, Step(w, events[0]), events[1..]);
    }
  }

  lemma FreesAreWhatItHas(heap: HeapMap, p: Pool, b: nat)
    requires Owns(heap, p)
    ensures b in Frees(p) <==> Has(p, b)
  {
    FreesAreOwnedOnce(heap, p);
    if i :| 0 <= i < |p.large| && NodeHas(p.large[i], b) { assert InNodes(p.large, |p.large|, b); }
    if InNodes(p.large, |p.large|, b) {
      var j :| 0 <= j < |p.large| && (p.large[j].addr == b || (b != 0 && p.large[j].alloc == b));
      assert NodeHas(p.large[j], b);
    }
  }

  lemma HadIsLive(heap: HeapMap, p: Pool, b: nat)
    requires Owns(heap, p) && Has(p, b)
    ensures b in heap
  {
    if i :| 0 <= i < |p.large| && NodeHas(p.large[i], b) { assert NodeOk(heap, p.large[i]); }
  }

  lemma NoLeakAfterCreate(before: HeapMap, size: nat, a: nat)
    requires HeapOk(before) && Grants(before, a, size + HEADER)
    ensures NoLeak(before, Create(before, size, a).heap, Create(before, size, a).pool)
  {
    GrantedIsFresh(before, a, size + HEADER);
    assert Create(before, size, a).pool.blocks[0].addr == a;
  }

  lemma FreeAllRestores(before: HeapMap, heap: HeapMap, p: Pool)
    requires Owns(heap, p) && NoLeak(before, heap, p)
    ensures forall b :: b in Frees(p) ==> b in heap
    ensures FreeAll(heap, Frees(p)) == before
  {
    forall b: nat
      ensures b in FreeAll(heap, Frees(p)) <==> b in before
      ensures b in before ==> FreeAll(heap, Frees(p))[b] == before[b]
      ensures b in Frees(p) ==> b in heap
    {
      FreesAreWhatItHas(heap, p, b);
      FreeAllKeeps(heap, Frees(p), b);
      if Has(p, b) { HadIsLive(heap, p, b); }
    }
  }

  // Create, any run, destroy: the frees are distinct live regions, and afterwards
  // the heap is exactly the one the pool was created in.
  lemma DestroyRestoresHeap(before: HeapMap, size: nat, a: nat, events: seq<Event>)
    requires HeapOk(before) && Grants(before, a, size + HEADER)
    ensures var w := Run(Create(before, size, a), events);
      && Owns(w.heap, w.pool) && NoRepeats(Frees(w.pool))
      && (forall b :: b in Frees(w.pool) ==> b in w.heap)
      && FreeAll(w.heap, Frees(w.pool)) == before
  {
    var w0 := Create(before, size, a);
    var w := Run(w0, events);
    InvAfterCreate(before, size, a);
    NoLeakAfterCreate(before, size, a);
    InvAfterRun(w0, events);
    NoLeakAfterRun(before, w0, events);
    FreesAreOwnedOnce(w.heap, w.pool);
    FreeAllRestores(before, w.heap, w.pool);
  }
}
