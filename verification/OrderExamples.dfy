/** Runs step by step: one in which a frame reaches the classifier and an accept request
    becomes an order, and two in which the browser side sees a class with a price that
    is not its own, since class and price are stored in two critical sections, and the
    message is built from a price that is read again after the snapshot. */
module OrderExamples {
  import opened Bytes
  import opened Scale
  import opened OrderProtocol
  import opened OrderLocks
  import opened OrderSafety
  import opened OrderRuns
  import opened OrderMessages

  // One-pixel images, and one vegetable.
  const SHOP: Config := Config(map[2 := 5.0], 1, 1, 1, 1)

  lemma {:induction false} RunAppend(cfg: Config, s: State, events: seq<Event>, e: Event)
    requires cfg.Valid()
    ensures Run(cfg, s, events + [e]) == Run(cfg, Run(cfg, s, events), [e])
    decreases |events|
  {
    if events == [] {
      assert events + [e] == [e];
    } else {
      assert (events + [e])[1..] == events[1..] + [e];
      match Step(cfg, s, events[0].thread, events[0].input)
      case None => RunAppend(cfg, s, events[1..], e);
      case Some(u) => RunAppend(cfg, u, events[1..], e);
    }
  }

  lemma Do(s: State, t: Thread, x: Input) returns (u: State)
    requires Reachable(SHOP, s) && Step(SHOP, s, t, x).Some?
    ensures Reachable(SHOP, u) && u == Step(SHOP, s, t, x).value && s.h.data <= u.h.data
  {
    u := Step(SHOP, s, t, x).value;
    var rgb: seq<byte>, resize: seq<byte>, weight: real, events: seq<Event> :|
      ReachedBy(SHOP, rgb, resize, weight, events, s);
    var e := Event(t, x);
    RunAppend(SHOP, Init(rgb, resize, weight), events, e);
    assert Run(SHOP, u, []) == u && [e][1..] == [];
    assert ReachedBy(SHOP, rgb, resize, weight, events + [e], u);
    DataGrows(SHOP, s, t, x);
  }

  // --------------------------------------------------- one call at a time

  const FREE: Locks := Locks(OPEN, OPEN, OPEN)

  // The locks when only this claim holds one.
  function Held(t: Thread, c: Claim): Locks {
    if c.Claim? then FREE.Put(c.name, Acquire(OPEN, t, c.write)) else FREE
  }

  // The other thread holds nothing.
  ghost predicate Alone(s: State, t: Thread) {
    s.live && s.ctl == CRead && Reachable(SHOP, s) && s.locks == Held(t, Holds(s, t))
  }

  lemma LockCall(s: State, t: Thread) returns (u: State)
    requires Alone(s, t) && t != Control && (Asks(s, t).Claim? || Gives(s, t))
    ensures Alone(u, t) && u == Past(s, t).(locks := u.locks)
  {
    PastHolds(s, t);
    u := Do(s, t, Ok);
    if Gives(s, t) {
      var h := Holds(s, t);
      assert Release(Acquire(OPEN, t, h.write), t, h.write) == OPEN;
    }
  }

  lemma Sync(s: State) returns (u: State)
    requires Alone(s, Balance) && (BalanceAsks(s.b.pc).Claim? || BalanceGives(s.b.pc))
    ensures Alone(u, Balance) && u.b == s.b.(pc := BalanceAfter(s.b.pc))
    ensures u.d == s.d && u.g == s.g && u.h == s.h
  {
    u := LockCall(s, Balance);
  }

  lemma DisplaySync(s: State) returns (u: State)
    requires Alone(s, Display) && (DisplayAsks(s.d.pc).Claim? || DisplayGives(s.d.pc))
    ensures Alone(u, Display) && u.d == s.d.(pc := DisplayAfter(s.d.pc))
    ensures u.b == s.b && u.g == s.g && u.h == s.h
  {
    u := LockCall(s, Display);
  }

  lemma Move(s: State, x: Input) returns (u: State)
    requires Alone(s, Balance) && !Asks(s, Balance).Claim? && !Gives(s, Balance)
    requires BalanceAct(SHOP, s, x).Some? && BalanceAct(SHOP, s, x).value.live
    requires s.d.pc != DIdle
    ensures Alone(u, Balance) && u == BalanceAct(SHOP, s, x).value && s.h.data <= u.h.data
  {
    u := Do(s, Balance, x);
    ActKeeps(SHOP, s, Balance, x);
  }

  lemma Look(s: State, x: Input) returns (u: State)
    requires Alone(s, Display) && !Asks(s, Display).Claim? && !Gives(s, Display) && s.d.pc != DIdle
    requires ShowAct(SHOP, s, x).Some? && ShowAct(SHOP, s, x).value.live
    ensures Alone(u, Display) && u == ShowAct(SHOP, s, x).value
  {
    u := Do(s, Display, x);
    ActKeeps(SHOP, s, Display, x);
    ShowStays(SHOP, s, x);
  }

  // -------------------------------------------- the display thread gets ready

  ghost predicate Ready(s: State) {
    |s.g.rgb| == 3 && |s.g.resize| == 3 && s.h.frames != []
  }

  predicate NothingDone(h: History) {
    h.orders == [] && h.sent == []
  }

  // The frame in the buffer is the camera's.
  predicate Shot(h: History) {
    |h.frames| == 2 && h.frames[1] == [1, 2, 3]
  }

  ghost predicate Fresh(s: State) {
    Ready(s) && s.b.pc == BReset && s.g.price == 0.0 && s.g.weight == 1.0 && !s.g.flag && NothingDone(s.h)
  }

  lemma ToTheCapture() returns (s: State)
    ensures Alone(s, Display) && Fresh(s) && s.d.pc == DLImage && |s.h.frames| == 1
  {
    s := Init([0, 0, 0], [0, 0, 0], 1.0);
    assert Run(SHOP, s, []) == s;
    assert ReachedBy(SHOP, [0, 0, 0], [0, 0, 0], 1.0, [], s);
    s := Do(s, Display, Connect);
  }

  lemma ToTheCopy() returns (s: State)
    ensures Alone(s, Display) && Fresh(s) && s.d.pc == DCopy && s.d.i == 0
    ensures |s.h.frames| == 1 && s.d.frame == [1, 2, 3]
  {
    s := ToTheCapture();
    s := DisplaySync(s);
    s := Do(s, Display, Camera([1, 2, 3]));
  }

  lemma {:induction false} CopyOn(s: State) returns (u: State)
    requires Alone(s, Display) && Fresh(s) && s.d.pc == DCopy && s.d.i <= 3
    requires |s.h.frames| == 1 && s.d.frame == [1, 2, 3]
    ensures Alone(u, Display) && Fresh(u) && u.d.pc == DUImage && Shot(u.h)
    decreases 3 - s.d.i
  {
    u := Do(s, Display, Ok);
    if u.d.pc == DCopy { u := CopyOn(u); }
  }

  lemma ToTheSnapshot() returns (s: State)
    ensures Alone(s, Display) && Fresh(s) && s.d.pc == DLSnapshot && Shot(s.h)
  {
    s := ToTheCopy();
    s := CopyOn(s);
    s := DisplaySync(s);
    s := Do(s, Display, Ok);
  }

  // ------------------------------------------- the balance thread gets a reply

  // The display thread waits before its snapshot.
  ghost predicate Weighing(s: State, pc: BalancePc) {
    && Alone(s, Balance) && Ready(s) && s.b.pc == pc && s.g.price == 0.0 && s.g.weight == 1.0
    && s.d.pc == DLSnapshot && s.h.orders == [] && Shot(s.h)
  }

  lemma ToTheTest() returns (s: State)
    ensures Weighing(s, BTest) && !s.g.flag && s.h.sent == []
  {
    s := ToTheSnapshot();
    s := Move(s, Ok);
    s := Move(s, Ok);
    s := Move(s, NoSample);
  }

  lemma ToTheFlag() returns (s: State)
    ensures Weighing(s, BGetFlag) && !s.g.flag && s.h.sent == []
  {
    s := ToTheTest();
    s := Move(s, Ok);
    s := Sync(s);
  }

  lemma ToTheBranch() returns (s: State)
    ensures Weighing(s, BBranch) && !s.b.sawFlag && s.h.sent == []
  {
    s := ToTheFlag();
    s := Move(s, Ok);
    s := Sync(s);
  }

  lemma ToThePicture() returns (s: State)
    ensures Weighing(s, BSendHead) && s.h.sent == []
  {
    s := ToTheBranch();
    s := Move(s, Ok);
    s := Move(s, Ok);
  }

  lemma ToTheHead() returns (s: State)
    ensures Weighing(s, BLImage) && s.h.sent == []
  {
    s := ToThePicture();
    s := Move(s, Ok);
  }

  lemma ToTheScaling() returns (s: State)
    ensures Weighing(s, BScale) && s.b.k == 0 && s.b.scaledFrom == 1 && s.h.sent == []
  {
    s := ToTheHead();
    s := Sync(s);
    s := Move(s, Ok);
  }

  lemma {:induction false} ScaleOn(s: State) returns (u: State)
    requires Weighing(s, BScale) && s.b.k <= 3 && s.b.scaledFrom == 1 && s.h.sent == []
    ensures Weighing(u, BUImage) && u.b.scaledFrom == 1 && u.h.sent == []
    decreases 3 - s.b.k
  {
    if s.b.k < 3 { SourceInRange(s.b.k, 1, 1, 1, 1); }
    u := Move(s, Ok);
    if s.b.k < 3 { u := ScaleOn(u); }
  }

  lemma ToTheImage() returns (s: State)
    ensures Weighing(s, BSendImage) && s.b.scaledFrom == 1 && s.h.sent == []
  {
    s := ToTheScaling();
    s := ScaleOn(s);
    assert BalanceAfter(BUImage) == BSendImage;
    s := Sync(s);
  }

  lemma ToTheReply() returns (s: State)
    ensures Weighing(s, BReceive) && |s.h.sent| == 1 && s.h.sent[0].frame == 1 && |s.h.sent[0].bytes| == 3
  {
    s := ToTheImage();
    s := Move(s, Wrote(3));
  }

  lemma OnePixel(img: seq<byte>)
    requires |img| == 3
    ensures Scaled(img, 1, 1, 1, 1) == img
  {
    forall k | 0 <= k < 3 ensures Source(k, 1, 1, 1, 1) == k { OnePixelSource(k); }
  }

  lemma OnePixelSource(k: nat)
    requires k < 3
    ensures Source(k, 1, 1, 1, 1) == k
  {
  }

  // The image of a camera event reaches the classifier.
  lemma ImageHappens() returns (s: State)
    ensures Reachable(SHOP, s) && |s.h.sent| == 1 && s.h.sent[0].bytes == [1, 2, 3]
  {
    s := ToTheReply();
    ImagesAreWhole(SHOP, s);
    OnePixel(s.h.frames[1]);
  }

  lemma ToTheAnswer() returns (s: State)
    ensures Weighing(s, BLReply) && s.b.packType == 2
  {
    s := ToTheReply();
    s := Move(s, Reply(2, 2));
  }

  lemma ToTheClass() returns (s: State)
    ensures Weighing(s, BSetClass) && s.b.packType == 2
  {
    s := ToTheAnswer();
    s := Sync(s);
    assert s.b.pc == BSetClass;
  }

  lemma ToTheStore() returns (s: State)
    ensures Weighing(s, BUReply) && s.g.classId == 2
  {
    s := ToTheClass();
    s := Move(s, Ok);
  }

  lemma ToTheGap() returns (s: State)
    ensures Weighing(s, BQuery) && s.g.classId == 2
  {
    s := ToTheStore();
    s := Sync(s);
    assert s.b.pc == BQuery;
  }

  // ------------------------------------------------------ a stale snapshot

  lemma TakeSnapshot(s: State) returns (u: State)
    requires Alone(s, Display) && s.d.pc == DLSnapshot
    ensures Alone(u, Display) && u.d.pc == DUSnapshot && u.b == s.b && u.g == s.g && u.h == s.h
    ensures u.d.classId == s.g.classId && u.d.price == Trunc(s.g.price)
    ensures u.d.msg.classId == s.g.classId && u.d.msg.classAt == |u.h.data|
  {
    u := DisplaySync(s);
    u := Look(u, Ok);
    u := Look(u, Ok);
    u := Look(u, Ok);
  }

  // The snapshot is one state of the shared data, but its price is not the price of
  // its class.
  lemma StalePriceHappens() returns (s: State)
    ensures Reachable(SHOP, s) && s.d.pc == DUSnapshot && Pricing(s.b.pc)
    ensures s.d.classId == 2 && SHOP.table[2] == 5.0 && s.d.price == 0
  {
    s := ToTheGap();
    s := TakeSnapshot(s);
  }

  // -------------------------------------------------------- a wrong message

  lemma ToTheRow() returns (s: State)
    ensures Weighing(s, BLPrice) && s.b.queried == 5.0 && s.g.classId == 2
  {
    s := ToTheGap();
    s := Move(s, Ok);
  }

  lemma ToTheQuery() returns (s: State)
    ensures Weighing(s, BSetPrice) && s.b.queried == 5.0 && s.g.classId == 2
  {
    s := ToTheRow();
    s := Sync(s);
    assert s.b.pc == BSetPrice;
  }

  lemma ToThePrice() returns (s: State)
    ensures Alone(s, Balance) && s.b.pc == BReset && s.d.pc == DLSnapshot && s.g.classId == 2 && s.g.price == 5.0
    ensures s.g.weight == 1.0 && s.h.orders == []
  {
    s := ToTheQuery();
    s := Move(s, Ok);
    s := Sync(s);
  }

  // ---------------------------------------------------------------- an order

  // An accept request arrives while class 2 is in force with price 5.
  ghost predicate Selling(s: State, pc: BalancePc) {
    && Alone(s, Balance) && s.b.pc == pc && s.d.pc == DLSnapshot
    && s.g.classId == 2 && s.g.price == 5.0 && s.g.weight == 1.0 && s.h.orders == []
  }

  lemma TakeRequest(s: State) returns (u: State)
    requires Alone(s, Balance) && s.b.pc == BReset
    ensures Alone(u, Balance) && u.g == s.g.(flag := true) && u.b == s.b && u.d == s.d && u.h.orders == s.h.orders
  {
    u := Do(s, Control, Request);
    assert u.ctl == CLFlag;
    u := Do(u, Control, Ok);
    assert u.ctl == CSet;
    u := Do(u, Control, Ok);
    assert u.ctl == CUFlag;
    u := Do(u, Control, Ok);
  }

  lemma ToTheRequest() returns (s: State)
    ensures Selling(s, BReset) && s.g.flag
  {
    s := ToThePrice();
    s := TakeRequest(s);
  }

  lemma ToTheHeavyLoad() returns (s: State)
    ensures Selling(s, BLFlag) && s.g.flag
  {
    s := ToTheRequest();
    s := Move(s, Ok);
    s := Move(s, Ok);
    s := Move(s, NoSample);
    s := Move(s, Ok);
  }

  lemma ToTheSeenFlag() returns (s: State)
    ensures Selling(s, BUFlag) && s.b.sawFlag
  {
    s := ToTheHeavyLoad();
    s := Sync(s);
    assert s.b.pc == BGetFlag;
    s := Move(s, Ok);
  }

  lemma ToTheClearing() returns (s: State)
    ensures Selling(s, BLClear)
  {
    s := ToTheSeenFlag();
    s := Sync(s);
    assert s.b.pc == BBranch && s.b.sawFlag;
    s := Move(s, Ok);
  }

  lemma ToTheCleared() returns (s: State)
    ensures Selling(s, BUClear)
  {
    s := ToTheClearing();
    s := Sync(s);
    assert s.b.pc == BClear;
    s := Move(s, Ok);
  }

  lemma ToTheWeight() returns (s: State)
    ensures Selling(s, BGetWeight)
  {
    s := ToTheCleared();
    s := Sync(s);
  }

  lemma ToTheLocals() returns (s: State)
    ensures Selling(s, BCheck) && s.b.classId == 2 && s.b.price == 5.0 && s.b.weight == 1.0
  {
    s := ToTheWeight();
    s := Move(s, Ok);
    s := Move(s, Ok);
    s := Move(s, Ok);
  }

  // The request becomes an order of the class, weight and price in force.
  lemma OrderHappens() returns (s: State)
    ensures Reachable(SHOP, s) && |s.h.orders| == 1
    ensures s.h.orders[0].classId == 2 && s.h.orders[0].weight == 1.0 && s.h.orders[0].price == 5.0
  {
    s := ToTheLocals();
    s := Move(s, Ok);
    s := Move(s, Ok);
  }

  // The display thread has its snapshot of class 2 with price 5.
  ghost predicate Showing(s: State, pc: BalancePc) {
    && Alone(s, Balance) && s.b.pc == pc && s.d.pc == DShow && s.d.msg.classId == 2
    && 1 <= s.d.msg.classAt <= |s.h.data| && s.h.data[s.d.msg.classAt - 1].price == 5.0
  }

  lemma LastPrice(s: State)
    requires Reachable(SHOP, s)
    ensures s.h.data != [] && s.h.data[|s.h.data| - 1].price == s.g.price
  {
    ReachableShows(SHOP, s);
  }

  lemma ToTheName() returns (s: State)
    ensures Showing(s, BReset)
  {
    s := ToThePrice();
    LastPrice(s);
    s := TakeSnapshot(s);
    s := DisplaySync(s);
    assert s.d.pc == DName;
    s := Look(s, Ok);
  }

  lemma ToTheEmptyScale() returns (s: State)
    ensures Showing(s, BSetWeight) && s.b.tmp == 0.0
  {
    s := ToTheName();
    s := Move(s, Ok);
    s := Move(s, Ok);
    s := Move(s, Sample(0.0));
    s := Sync(s);
  }

  lemma ToTheNoWeight() returns (s: State)
    ensures Showing(s, BLoop) && s.g.weight == 0.0
  {
    s := ToTheEmptyScale();
    s := Move(s, Ok);
    s := Sync(s);
  }

  lemma ToTheReset() returns (s: State)
    ensures Showing(s, BLZero) && s.g.weight == 0.0
  {
    s := ToTheNoWeight();
    s := Move(s, Ok);
    if s.b.pc == BRead { s := Move(s, NoSample); }
    s := Move(s, Ok);
  }

  lemma ToTheNoClass() returns (s: State)
    ensures Showing(s, BZeroClass) && s.g.weight == 0.0
  {
    s := ToTheReset();
    s := Sync(s);
  }

  lemma ToTheNoPrice() returns (s: State)
    ensures Showing(s, BZeroWeight) && s.g.weight == 0.0 && s.g.price == 0.0
  {
    s := ToTheNoClass();
    s := Move(s, Ok);
    s := Move(s, Ok);
  }

  // The snapshot was taken outside the gap and had the right price; the message built
  // from it shows class 2 for nothing.
  lemma WrongMessageHappens() returns (s: State, m: Message)
    ensures Reachable(SHOP, s) && m in s.h.messages && !Pricing(s.b.pc)
    ensures m.classId == 2 && SHOP.table[2] == 5.0 && m.price == 0.0
    ensures 1 <= m.classAt <= |s.h.data| && s.h.data[m.classAt - 1].price == 5.0
  {
    s := ToTheNoPrice();
    s := Do(s, Display, Ok);
    assert s.d.pc == DShowPrice && s.g.price == 0.0;
    s := Do(s, Display, Ok);
    m := s.d.msg;
    assert s.h.messages[|s.h.messages| - 1] == m;
  }
}
