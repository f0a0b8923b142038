/** What the balance thread decides, and what becomes of an accept request: which way
    each branch goes, what a taken request leads to, and what may change each shared
    field under which lock. */
module OrderDecisions {
  import opened Bytes
  import opened OrderProtocol
  import opened OrderLocks
  import opened OrderSafety
  import opened OrderFrames
  import opened OrderRuns
  import opened OrderMessages

  // ------------------------------------------------------ accepts and orders

  // The pass goes on to the orders exactly if the weight is above 0.005.
  lemma WeightDecides(cfg: Config, s: State, x: Input)
    requires cfg.Valid() && s.b.pc == BTest && Step(cfg, s, Balance, x).Some?
    ensures var u := Step(cfg, s, Balance, x).value;
      u.b.pc == if s.g.weight > 0.005 then BLFlag else BLZero
  {
  }

  // From the read of a set flag to the end of its request.
  predicate Taking(b: Balancing) {
    match b.pc
    case BUFlag | BBranch => b.sawFlag
    case BLClear | BClear => true
    case _ => InFlight(b.pc)
  }

  // How many steps of a run satisfy p.
  ghost function Count(cfg: Config, s: State, events: seq<Event>, p: (State, Thread, Input) -> bool): nat
    requires cfg.Valid()
    decreases |events|
  {
    if events == [] then 0 else
      match Step(cfg, s, events[0].thread, events[0].input)
      case None => Count(cfg, s, events[1..], p)
      case Some(u) => One(p(s, events[0].thread, events[0].input)) + Count(cfg, u, events[1..], p)
  }

  // The thread reads the flag set.
  predicate SeesFlag(s: State, t: Thread, x: Input) {
    t == Balance && s.b.pc == BGetFlag && s.g.flag
  }

  predicate Settled(s: State, seen: nat) {
    seen == |s.h.orders| + s.h.dropped + One(Taking(s.b))
  }

  // Steps of other points and threads.
  predicate LeavesTaking(s: State, u: State) {
    Taking(u.b) == Taking(s.b) && |u.h.orders| == |s.h.orders| && u.h.dropped == s.h.dropped
  }

  lemma WeighLeavesTaking(s: State, x: Input)
    requires WeighAct(s, x).Some?
    ensures LeavesTaking(s, WeighAct(s, x).value)
  {
    match s.b.pc
    case BReset => case BLoop => case BRead => case BSetWeight => case BTest =>
    case BZeroClass => case BZeroPrice => case BZeroWeight =>
  }

  lemma PictureLeavesTaking(cfg: Config, s: State, x: Input)
    requires cfg.Valid() && ImageAct(cfg, s, x).Some?
    ensures LeavesTaking(s, ImageAct(cfg, s, x).value)
  {
    match s.b.pc
    case BPack => case BSendHead => case BStart => case BScale => case BSendImage =>
  }

  lemma AnswerLeavesTaking(cfg: Config, s: State, x: Input)
    requires ReplyAct(cfg, s, x).Some?
    ensures LeavesTaking(s, ReplyAct(cfg, s, x).value)
  {
    match s.b.pc
    case BReceive => case BOffline => case BSetClass => case BQuery => case BSetPrice =>
  }

  lemma DealSettles(s: State, x: Input, seen: nat)
    requires OrderAct(s, x).Some? && Settled(s, seen)
    ensures Settled(OrderAct(s, x).value, seen + One(SeesFlag(s, Balance, x)))
  {
    match s.b.pc
    case BGetFlag => case BBranch => case BClear => case BGetWeight => case BGetPrice => case BGetClass => case BCheck =>
    case BInsert => case BOrderClass =>
  }

  lemma BalanceSettles(cfg: Config, s: State, x: Input, seen: nat)
    requires cfg.Valid() && BalanceAct(cfg, s, x).Some? && Settled(s, seen)
    ensures Settled(BalanceAct(cfg, s, x).value, seen + One(SeesFlag(s, Balance, x)))
  {
    match PartOf(s.b.pc)
    case Weigh => WeighLeavesTaking(s, x);
    case Deal => DealSettles(s, x, seen);
    case Picture => PictureLeavesTaking(cfg, s, x);
    case Answer => AnswerLeavesTaking(cfg, s, x);
  }

  lemma AfterKeepsTaking(b: Balancing)
    requires BalanceAsks(b.pc).Claim? || BalanceGives(b.pc)
    ensures Taking(b.(pc := BalanceAfter(b.pc))) == Taking(b) && b.pc != BGetFlag
  {
  }

  lemma StepSettles(cfg: Config, s: State, t: Thread, x: Input, seen: nat)
    requires cfg.Valid() && Settled(s, seen) && Step(cfg, s, t, x).Some?
    ensures Settled(Step(cfg, s, t, x).value, seen + One(SeesFlag(s, t, x)))
  {
    if Asks(s, t).Claim? || Gives(s, t) {
      PastHolds(s, t);
      if t == Balance { AfterKeepsTaking(s.b); }
    } else {
      match t
      case Balance => BalanceSettles(cfg, s, x, seen);
      case Display => DisplayLeaves(cfg, s, x);
      case Control =>
    }
  }

  lemma {:induction false} RunSettles(cfg: Config, s: State, events: seq<Event>, seen: nat)
    requires cfg.Valid() && Settled(s, seen)
    ensures Settled(Run(cfg, s, events), seen + Count(cfg, s, events, SeesFlag))
    decreases |events|
  {
    if events != [] {
      var e := events[0];
      if Step(cfg, s, e.thread, e.input).Some? {
        StepSettles(cfg, s, e.thread, e.input, seen);
        RunSettles(cfg, Step(cfg, s, e.thread, e.input).value, events[1..], seen + One(SeesFlag(s, e.thread, e.input)));
      } else {
        RunSettles(cfg, s, events[1..], seen);
      }
    }
  }

  // In every run, each time the thread read the flag set there is an order or a drop,
  // but for the request it is at.
  lemma SeenFlagsAreSettled(cfg: Config, rgb: seq<byte>, resize: seq<byte>, weight: real, events: seq<Event>)
    requires cfg.Valid()
    ensures var s0 := Init(rgb, resize, weight);
      var s := Run(cfg, s0, events);
      Count(cfg, s0, events, SeesFlag) == |s.h.orders| + s.h.dropped + One(Taking(s.b))
  {
    RunSettles(cfg, Init(rgb, resize, weight), events, 0);
  }

  // The order that states the data in force.
  function OrderInForce(s: State): Order {
    Order(s.g.classId, s.g.weight, s.g.price, |s.h.replies|, |s.h.samples|)
  }

  lemma DealDecides(s: State, x: Input)
    requires OrderAct(s, x).Some? && LocalInv(s.g, s.b)
    ensures var u := OrderAct(s, x).value;
      && (u.h.orders == s.h.orders || (s.b.pc == BInsert && s.g.classId != 255 && u.h.orders == s.h.orders + [OrderInForce(s)]))
      && (u.h.dropped == s.h.dropped || (s.b.pc == BCheck && s.g.classId == 255 && u.h.dropped == s.h.dropped + 1))
      && (InFlight(s.b.pc) && !InFlight(u.b.pc) ==>
            if s.g.classId == 255 then u.h.dropped == s.h.dropped + 1 else u.h.orders == s.h.orders + [OrderInForce(s)])
  {
    match s.b.pc
    case BGetFlag => case BBranch => case BClear => case BGetWeight => case BGetPrice => case BGetClass => case BCheck =>
    case BInsert => case BOrderClass =>
  }

  ghost predicate Decides(s: State, u: State) {
    && (u.h.orders == s.h.orders || (InFlight(s.b.pc) && s.g.classId != 255 && u.h.orders == s.h.orders + [OrderInForce(s)]))
    && (u.h.dropped == s.h.dropped || (InFlight(s.b.pc) && s.g.classId == 255 && u.h.dropped == s.h.dropped + 1))
    && (InFlight(s.b.pc) && !InFlight(u.b.pc) ==>
          if s.g.classId == 255 then u.h.orders == s.h.orders && u.h.dropped == s.h.dropped + 1
          else u.h.dropped == s.h.dropped && u.h.orders == s.h.orders + [OrderInForce(s)])
  }

  lemma BalanceDecides(cfg: Config, s: State, x: Input)
    requires cfg.Valid() && BalanceAct(cfg, s, x).Some? && LocalInv(s.g, s.b)
    ensures Decides(s, BalanceAct(cfg, s, x).value)
  {
    match PartOf(s.b.pc)
    case Weigh => WeighHasNoNews(s, x); WeighLeavesTaking(s, x);
    case Deal => DealDecides(s, x);
    case Picture => PictureIsQuiet(cfg, s, x);
    case Answer => AnswerOrdersNothing(cfg, s, x);
  }

  lemma AnswerOrdersNothing(cfg: Config, s: State, x: Input)
    requires ReplyAct(cfg, s, x).Some?
    ensures var u := ReplyAct(cfg, s, x).value; u.h.orders == s.h.orders && u.h.dropped == s.h.dropped
  {
    match s.b.pc
    case BReceive => case BOffline => case BSetClass => case BQuery => case BSetPrice =>
  }

  lemma ReachableLocal(cfg: Config, s: State)
    requires cfg.Valid() && Reachable(cfg, s)
    ensures LocalInv(s.g, s.b) && WeightInv(s.g, s.b, s.h.samples) && PriceInv(cfg, s.g, s.b, s.h.replies)
  {
    ReachableInv(cfg, s);
  }

  // In every run a step inserts an order only for a taken request with a class in force,
  // and then one of exactly the data in force; it drops a request only if the class in
  // force is 255; and a taken request ends in the one or the other, unless the process
  // exits.
  lemma RequestsAreDecided(cfg: Config, s: State, t: Thread, x: Input)
    requires cfg.Valid() && Reachable(cfg, s) && Step(cfg, s, t, x).Some?
    ensures Decides(s, Step(cfg, s, t, x).value)
  {
    ReachableLocal(cfg, s);
    if Asks(s, t).Claim? || Gives(s, t) {
      PastHolds(s, t);
      if t == Balance { AfterKeepsFlight(s.b.pc); }
    } else {
      match t
      case Balance => BalanceDecides(cfg, s, x);
      case Display => DisplayLeaves(cfg, s, x);
      case Control =>
    }
  }

  // A request the control thread hands over leaves the flag set, and counts as merged
  // exactly if it already was; nothing else merges requests or sets the flag.
  lemma RequestsAreHandedOver(cfg: Config, s: State, t: Thread, x: Input)
    requires cfg.Valid() && Step(cfg, s, t, x).Some?
    ensures var u := Step(cfg, s, t, x).value;
      if t == Control && s.ctl == CSet then u.g.flag && u.h.coalesced == s.h.coalesced + One(s.g.flag)
      else u.h.coalesced == s.h.coalesced && (u.g.flag ==> s.g.flag)
  {
    if !Asks(s, t).Claim? && !Gives(s, t) {
      match t
      case Balance => BalanceMergesNothing(cfg, s, x);
      case Display => DisplayLeaves(cfg, s, x);
      case Control =>
    } else {
      PastHolds(s, t);
    }
  }

  // The balance thread clears the flag at one point, under the lock, and nothing else.
  predicate FlagOnlyCleared(s: State, u: State) {
    u.h.coalesced == s.h.coalesced && (if s.b.pc == BClear then !u.g.flag else u.g.flag == s.g.flag)
  }

  lemma DealClears(s: State, x: Input)
    requires OrderAct(s, x).Some?
    ensures FlagOnlyCleared(s, OrderAct(s, x).value)
  {
    match s.b.pc
    case BGetFlag => case BBranch => case BClear => case BGetWeight => case BGetPrice => case BGetClass => case BCheck =>
    case BInsert => case BOrderClass =>
  }

  lemma BalanceMergesNothing(cfg: Config, s: State, x: Input)
    requires cfg.Valid() && BalanceAct(cfg, s, x).Some?
    ensures FlagOnlyCleared(s, BalanceAct(cfg, s, x).value)
  {
    match PartOf(s.b.pc)
    case Weigh => WeighLeavesLedger(s, x);
    case Deal => DealClears(s, x);
    case Picture => PictureIsQuiet(cfg, s, x);
    case Answer => AnswerLeavesLedger(cfg, s, x);
  }

  // -------------------------------------------------- what changes the fields

  // Points at which the weight was found to be light, and the one after an insertion.
  predicate Light(pc: BalancePc) {
    match pc
    case BLZero | BZeroClass | BZeroPrice | BZeroWeight => true
    case _ => false
  }

  predicate JustOrdered(g: Shared, h: History) {
    h.orders != [] && h.orders[|h.orders| - 1].reply == |h.replies| && h.orders[|h.orders| - 1].classId == g.classId
  }

  ghost predicate PointInv(s: State) {
    (Light(s.b.pc) ==> s.g.weight <= 0.005) && (JustInserted(s.b.pc) ==> JustOrdered(s.g, s.h))
  }

  lemma WeighKeepsPoints(s: State, x: Input)
    requires PointInv(s) && WeighAct(s, x).Some?
    ensures PointInv(WeighAct(s, x).value)
  {
    match s.b.pc
    case BReset => case BLoop => case BRead => case BSetWeight => case BTest =>
    case BZeroClass => case BZeroPrice => case BZeroWeight =>
  }

  lemma DealKeepsPoints(s: State, x: Input)
    requires PointInv(s) && LocalInv(s.g, s.b) && OrderAct(s, x).Some?
    ensures PointInv(OrderAct(s, x).value)
  {
    match s.b.pc
    case BGetFlag => case BBranch => case BClear => case BGetWeight => case BGetPrice => case BGetClass => case BCheck =>
    case BInsert => case BOrderClass =>
  }

  lemma PictureKeepsPoints(cfg: Config, s: State, x: Input)
    requires cfg.Valid() && ImageAct(cfg, s, x).Some?
    ensures PointInv(ImageAct(cfg, s, x).value)
  {
    match s.b.pc
    case BPack => case BSendHead => case BStart => case BScale => case BSendImage =>
  }

  lemma AnswerKeepsPoints(cfg: Config, s: State, x: Input)
    requires ReplyAct(cfg, s, x).Some?
    ensures PointInv(ReplyAct(cfg, s, x).value)
  {
    match s.b.pc
    case BReceive => case BOffline => case BSetClass => case BQuery => case BSetPrice =>
  }

  lemma BalanceKeepsPoints(cfg: Config, s: State, x: Input)
    requires cfg.Valid() && PointInv(s) && LocalInv(s.g, s.b) && BalanceAct(cfg, s, x).Some?
    ensures PointInv(BalanceAct(cfg, s, x).value)
  {
    match PartOf(s.b.pc)
    case Weigh => WeighKeepsPoints(s, x);
    case Deal => DealKeepsPoints(s, x);
    case Picture => PictureKeepsPoints(cfg, s, x);
    case Answer => AnswerKeepsPoints(cfg, s, x);
  }

  lemma AfterKeepsLight(pc: BalancePc)
    requires BalanceAsks(pc).Claim? || BalanceGives(pc)
    ensures Light(BalanceAfter(pc)) ==> Light(pc)
  {
  }

  lemma StepKeepsPoints(cfg: Config, s: State, t: Thread, x: Input)
    requires cfg.Valid() && PointInv(s) && LocalInv(s.g, s.b) && Step(cfg, s, t, x).Some?
    ensures PointInv(Step(cfg, s, t, x).value)
  {
    if Asks(s, t).Claim? || Gives(s, t) {
      PastHolds(s, t);
      if t == Balance {
        AfterKeepsLight(s.b.pc);
        AfterKeepsPoints(s.b.pc);
      }
    } else if t == Balance {
      BalanceKeepsPoints(cfg, s, x);
    } else {
      OthersLeaveSales(cfg, s, t, x);
    }
  }

  lemma {:induction false} RunKeepsPoints(cfg: Config, s: State, events: seq<Event>)
    requires cfg.Valid() && Inv(cfg, s) && PointInv(s)
    ensures PointInv(Run(cfg, s, events))
    decreases |events|
  {
    if events != [] {
      var e := events[0];
      if Step(cfg, s, e.thread, e.input).Some? {
        StepInv(cfg, s, e.thread, e.input);
        StepKeepsPoints(cfg, s, e.thread, e.input);
        RunKeepsPoints(cfg, Step(cfg, s, e.thread, e.input).value, events[1..]);
      } else {
        RunKeepsPoints(cfg, s, events[1..]);
      }
    }
  }

  lemma ReachablePoints(cfg: Config, s: State)
    requires cfg.Valid() && Reachable(cfg, s)
    ensures PointInv(s)
  {
    var rgb: seq<byte>, resize: seq<byte>, weight: real, events: seq<Event> :|
      ReachedBy(cfg, rgb, resize, weight, events, s);
    InitInv(cfg, rgb, resize, weight);
    RunKeepsPoints(cfg, Init(rgb, resize, weight), events);
  }

  // The class in force is replaced by a reply, or withdrawn because of a light load or
  // because it was ordered; nothing else changes it, and every reply does.
  ghost predicate ClassMoves(s: State, u: State) {
    if u.h.replies != s.h.replies then u.h.replies == s.h.replies + [u.g.classId]
    else u.g.classId == s.g.classId || (u.g.classId == 255 && (s.g.weight <= 0.005 || JustOrdered(s.g, s.h)))
  }

  // The price is that of the class in force, or is withdrawn because of a light load.
  ghost predicate PriceMoves(cfg: Config, s: State, u: State) {
    || u.g.price == s.g.price
    || (u.g.classId in cfg.table && u.g.price == cfg.table[u.g.classId])
    || (u.g.price == 0.0 && s.g.weight <= 0.005)
  }

  // The weight is a new sample, or is withdrawn because it is light.
  ghost predicate WeightMoves(s: State, u: State) {
    if u.h.samples != s.h.samples then u.h.samples == s.h.samples + [u.g.weight]
    else u.g.weight == s.g.weight || (u.g.weight == 0.0 && s.g.weight <= 0.005)
  }

  lemma WeighMoves(cfg: Config, s: State, x: Input)
    requires WeighAct(s, x).Some? && PointInv(s)
    ensures var u := WeighAct(s, x).value; ClassMoves(s, u) && PriceMoves(cfg, s, u) && WeightMoves(s, u)
  {
    match s.b.pc
    case BReset => case BLoop => case BRead => case BSetWeight => case BTest =>
    case BZeroClass => case BZeroPrice => case BZeroWeight =>
  }

  lemma DealMoves(cfg: Config, s: State, x: Input)
    requires OrderAct(s, x).Some? && PointInv(s)
    ensures var u := OrderAct(s, x).value; ClassMoves(s, u) && PriceMoves(cfg, s, u) && WeightMoves(s, u)
  {
    match s.b.pc
    case BGetFlag => case BBranch => case BClear => case BGetWeight => case BGetPrice => case BGetClass => case BCheck =>
    case BInsert => case BOrderClass =>
  }

  lemma AnswerMoves(cfg: Config, s: State, x: Input)
    requires ReplyAct(cfg, s, x).Some? && PriceInv(cfg, s.g, s.b, s.h.replies)
    ensures var u := ReplyAct(cfg, s, x).value; ClassMoves(s, u) && PriceMoves(cfg, s, u) && WeightMoves(s, u)
  {
    match s.b.pc
    case BReceive => case BOffline => case BSetClass => case BQuery => case BSetPrice =>
  }

  lemma BalanceMoves(cfg: Config, s: State, x: Input)
    requires cfg.Valid() && BalanceAct(cfg, s, x).Some? && PointInv(s) && PriceInv(cfg, s.g, s.b, s.h.replies)
    ensures var u := BalanceAct(cfg, s, x).value; ClassMoves(s, u) && PriceMoves(cfg, s, u) && WeightMoves(s, u)
  {
    match PartOf(s.b.pc)
    case Weigh => WeighMoves(cfg, s, x);
    case Deal => DealMoves(cfg, s, x);
    case Picture => PictureIsQuiet(cfg, s, x);
    case Answer => AnswerMoves(cfg, s, x);
  }

  // So in every run, whatever step is taken by whichever thread.
  lemma OrderDataChangesBy(cfg: Config, s: State, t: Thread, x: Input)
    requires cfg.Valid() && Reachable(cfg, s) && Step(cfg, s, t, x).Some?
    ensures var u := Step(cfg, s, t, x).value; ClassMoves(s, u) && PriceMoves(cfg, s, u) && WeightMoves(s, u)
  {
    ReachablePoints(cfg, s);
    ReachableLocal(cfg, s);
    if Asks(s, t).Claim? || Gives(s, t) {
      PastHolds(s, t);
    } else if t == Balance {
      BalanceMoves(cfg, s, x);
    } else {
      OthersLeaveSales(cfg, s, t, x);
    }
  }

  // ------------------------------------------------------- under which locks

  ghost predicate SameOrderData(s: State, u: State) {
    u.g.classId == s.g.classId && u.g.price == s.g.price && u.g.weight == s.g.weight
  }

  lemma BalanceStoresLocked(cfg: Config, s: State, x: Input)
    requires cfg.Valid() && BalanceAct(cfg, s, x).Some?
    ensures var u := BalanceAct(cfg, s, x).value;
      && (u.g.flag == s.g.flag || BalanceHolds(s.b.pc) == Claim(AcceptLock, true))
      && (SameOrderData(s, u) || BalanceHolds(s.b.pc) == Claim(WeightLock, true))
  {
    BalanceMergesNothing(cfg, s, x);
    if BalanceHolds(s.b.pc) != Claim(WeightLock, true) { StoresAreLocked(cfg, s, x); }
  }

  lemma BalanceLeavesBuffer(cfg: Config, s: State, x: Input)
    requires cfg.Valid() && BalanceAct(cfg, s, x).Some?
    ensures BalanceAct(cfg, s, x).value.g.rgb == s.g.rgb
  {
    match PartOf(s.b.pc)
    case Weigh => WeighLeavesImages(s, x);
    case Deal => DealLeavesImages(s, x);
    case Picture => PictureLeavesBuffer(cfg, s, x);
    case Answer => AnswerLeavesImages(cfg, s, x);
  }

  lemma PictureLeavesBuffer(cfg: Config, s: State, x: Input)
    requires cfg.Valid() && ImageAct(cfg, s, x).Some?
    ensures ImageAct(cfg, s, x).value.g.rgb == s.g.rgb
  {
  }

  lemma CaptureStoresLocked(s: State, x: Input)
    requires CaptureAct(s, x).Some?
    ensures CaptureAct(s, x).value.g.rgb == s.g.rgb || DisplayHolds(s.d.pc) == Claim(ImageLock, true)
  {
  }

  // A step that changes the flag, the order data or the frame buffer holds the lock of
  // that field for writing.
  lemma StoresHoldTheirLock(cfg: Config, s: State, t: Thread, x: Input)
    requires cfg.Valid() && Step(cfg, s, t, x).Some?
    ensures var u := Step(cfg, s, t, x).value;
      && (u.g.flag == s.g.flag || Holds(s, t) == Claim(AcceptLock, true))
      && (SameOrderData(s, u) || Holds(s, t) == Claim(WeightLock, true))
      && (u.g.rgb == s.g.rgb || Holds(s, t) == Claim(ImageLock, true))
  {
    if !Asks(s, t).Claim? && !Gives(s, t) {
      match t
      case Balance =>
        BalanceStoresLocked(cfg, s, x);
        BalanceLeavesBuffer(cfg, s, x);
      case Display =>
        DisplayLeaves(cfg, s, x);
        if CaptureAct(s, x).Some? { CaptureStoresLocked(s, x); } else { ShowStays(cfg, s, x); }
      case Control =>
    } else {
      PastHolds(s, t);
    }
  }

  // And the reads that belong together hold it for reading.
  lemma ReadsHoldTheirLock(s: State)
    ensures s.b.pc == BGetFlag ==> Holds(s, Balance) == Claim(AcceptLock, false)
    ensures s.b.pc == BStart || s.b.pc == BScale ==> Holds(s, Balance) == Claim(ImageLock, false)
    ensures s.d.pc == DGetWeight || s.d.pc == DGetPrice || s.d.pc == DGetClass ==> Holds(s, Display) == Claim(WeightLock, false)
  {
  }
}
