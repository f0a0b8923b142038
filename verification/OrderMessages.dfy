/** What the display thread shows: its snapshot of the order data, and the messages it
    builds with the class of the snapshot and a weight and a price it reads again
    without the lock. */
module OrderMessages {
  import opened Bytes
  import opened OrderProtocol
  import opened OrderLocks
  import opened OrderSafety
  import opened OrderRuns

  // ---------------------------------------------- states of the order data

  // The table price of the class of reply n, 0 for none.
  function Worth(cfg: Config, replies: seq<nat>, n: nat): real {
    if 1 <= n <= |replies| && replies[n - 1] in cfg.table then cfg.table[replies[n - 1]] else 0.0
  }

  // The class is that of the last reply heard; the price is that of the reply priced
  // last, or zero at the start and after a reset.
  ghost predicate DataOk(cfg: Config, replies: seq<nat>, x: OrderData) {
    && x.priced <= x.heard <= |replies|
    && x.price == Worth(cfg, replies, x.priced)
    && (x.priced > 0 ==> replies[x.priced - 1] in cfg.table)
    && (x.classId != NO_CLASS ==> 1 <= x.heard && x.classId == replies[x.heard - 1])
  }

  ghost predicate AllDataOk(cfg: Config, h: History) {
    forall i :: 0 <= i < |h.data| ==> DataOk(cfg, h.replies, h.data[i])
  }

  predicate Current(g: Shared, h: History) {
    h.data != [] &&
    var x := h.data[|h.data| - 1];
    x.classId == g.classId && x.price == g.price && x.weight == g.weight && x.heard == |h.replies|
  }

  predicate SameData(s: State, u: State) {
    && u.h.data == s.h.data && u.h.replies == s.h.replies
    && u.g.classId == s.g.classId && u.g.price == s.g.price && u.g.weight == s.g.weight
  }

  // Where the price in force after a store comes from.
  predicate PriceFrom(s: State, u: State) {
    || (Priced(u.h) == Priced(s.h) && u.g.price == s.g.price)
    || (Priced(u.h) == 0 && u.g.price == 0.0)
    || (Priced(u.h) == |u.h.replies| && u.h.replies == s.h.replies && s.b.pc == BSetPrice && u.g.price == s.b.queried)
  }

  predicate Stored(s: State, u: State) {
    && u.h.data == s.h.data + [OrderData(u.g.classId, u.g.price, u.g.weight, Priced(u.h), |u.h.replies|)]
    && s.h.replies <= u.h.replies && PriceFrom(s, u)
  }

  // Every store to the order data adds a state, and only a store does.
  predicate DataStep(s: State, u: State) {
    u.d == s.d && u.h.messages == s.h.messages && (SameData(s, u) || Stored(s, u))
  }

  lemma SampleData(s: State, x: Input)
    requires WeighAct(s, x).Some? && s.b.pc != BZeroClass && s.b.pc != BZeroPrice && s.b.pc != BZeroWeight
    ensures DataStep(s, WeighAct(s, x).value)
  {
    match s.b.pc
    case BReset => case BLoop => case BRead => case BSetWeight => case BTest =>
  }

  lemma ResetData(s: State, x: Input)
    requires WeighAct(s, x).Some? && (s.b.pc == BZeroClass || s.b.pc == BZeroPrice || s.b.pc == BZeroWeight)
    ensures DataStep(s, WeighAct(s, x).value)
  {
  }

  lemma DealData(s: State, x: Input)
    requires OrderAct(s, x).Some?
    ensures DataStep(s, OrderAct(s, x).value)
  {
    match s.b.pc
    case BGetFlag => case BBranch => case BClear => case BGetWeight => case BGetPrice => case BGetClass => case BCheck =>
    case BInsert => case BOrderClass =>
  }

  lemma PictureData(cfg: Config, s: State, x: Input)
    requires cfg.Valid() && ImageAct(cfg, s, x).Some?
    ensures DataStep(s, ImageAct(cfg, s, x).value)
  {
    match s.b.pc
    case BPack => case BSendHead => case BStart => case BScale => case BSendImage =>
  }

  lemma AnswerData(cfg: Config, s: State, x: Input)
    requires ReplyAct(cfg, s, x).Some?
    ensures DataStep(s, ReplyAct(cfg, s, x).value)
  {
    match s.b.pc
    case BReceive => case BOffline => case BSetClass => case BQuery => case BSetPrice =>
  }

  lemma BalanceData(cfg: Config, s: State, x: Input)
    requires cfg.Valid() && BalanceAct(cfg, s, x).Some?
    ensures DataStep(s, BalanceAct(cfg, s, x).value)
  {
    match PartOf(s.b.pc)
    case Weigh =>
      if s.b.pc == BZeroClass || s.b.pc == BZeroPrice || s.b.pc == BZeroWeight { ResetData(s, x); } else { SampleData(s, x); }
    case Deal => DealData(s, x);
    case Picture => PictureData(cfg, s, x);
    case Answer => AnswerData(cfg, s, x);
  }

  // ------------------------------------------------ class and price in step

  // Between a new class and its price the reply priced last is an older one; otherwise
  // it is the one that gave the class.
  ghost predicate GapInv(s: State) {
    && Priced(s.h) <= |s.h.replies|
    && (Pricing(s.b.pc) ==> Priced(s.h) < |s.h.replies|)
    && (!Pricing(s.b.pc) && s.g.classId != NO_CLASS ==> Priced(s.h) == |s.h.replies|)
  }

  // Outside the gap a step keeps class and priced reply, or leaves no class.
  predicate Outside(s: State, u: State) {
    && !Pricing(s.b.pc) && !Pricing(u.b.pc) && u.h.replies == s.h.replies && Priced(u.h) <= Priced(s.h)
    && (u.g.classId == NO_CLASS || (u.g.classId == s.g.classId && Priced(u.h) == Priced(s.h)))
  }

  lemma OutsideKeepsGap(s: State, u: State)
    requires GapInv(s) && Outside(s, u)
    ensures GapInv(u)
  {
  }

  lemma SampleOutside(s: State, x: Input)
    requires WeighAct(s, x).Some? && s.b.pc != BZeroClass && s.b.pc != BZeroPrice && s.b.pc != BZeroWeight
    ensures Outside(s, WeighAct(s, x).value)
  {
    match s.b.pc
    case BReset => case BLoop => case BRead => case BSetWeight => case BTest =>
  }

  lemma ResetOutside(s: State, x: Input)
    requires WeighAct(s, x).Some? && (s.b.pc == BZeroClass || s.b.pc == BZeroPrice || s.b.pc == BZeroWeight)
    requires s.b.pc == BZeroPrice ==> s.g.classId == NO_CLASS
    ensures Outside(s, WeighAct(s, x).value)
  {
  }

  lemma DealOutside(s: State, x: Input)
    requires OrderAct(s, x).Some?
    ensures Outside(s, OrderAct(s, x).value)
  {
    match s.b.pc
    case BGetFlag => case BBranch => case BClear => case BGetWeight => case BGetPrice => case BGetClass => case BCheck =>
    case BInsert => case BOrderClass =>
  }

  lemma PictureOutside(cfg: Config, s: State, x: Input)
    requires cfg.Valid() && ImageAct(cfg, s, x).Some?
    ensures Outside(s, ImageAct(cfg, s, x).value)
  {
    match s.b.pc
    case BPack => case BSendHead => case BStart => case BScale => case BSendImage =>
  }

  lemma ReceiveOutside(cfg: Config, s: State, x: Input)
    requires (s.b.pc == BReceive || s.b.pc == BOffline) && ReplyAct(cfg, s, x).Some?
    ensures Outside(s, ReplyAct(cfg, s, x).value)
  {
  }

  // A step into the gap hears a reply, and the step out of it stores its price.
  lemma LearnKeepsGap(cfg: Config, s: State, x: Input)
    requires GapInv(s) && ReplyAct(cfg, s, x).Some?
    requires s.b.pc == BSetClass || s.b.pc == BQuery || s.b.pc == BSetPrice
    ensures GapInv(ReplyAct(cfg, s, x).value)
  {
    match s.b.pc
    case BSetClass => case BQuery => case BSetPrice =>
  }

  lemma WeighOutside(s: State, x: Input)
    requires WeighAct(s, x).Some? && (s.b.pc == BZeroPrice ==> s.g.classId == NO_CLASS)
    ensures Outside(s, WeighAct(s, x).value)
  {
    if s.b.pc == BZeroClass || s.b.pc == BZeroPrice || s.b.pc == BZeroWeight { ResetOutside(s, x); } else { SampleOutside(s, x); }
  }

  lemma BalanceOutside(cfg: Config, s: State, x: Input)
    requires cfg.Valid() && BalanceAct(cfg, s, x).Some? && (s.b.pc == BZeroPrice ==> s.g.classId == NO_CLASS)
    requires s.b.pc != BSetClass && s.b.pc != BQuery && s.b.pc != BSetPrice
    ensures Outside(s, BalanceAct(cfg, s, x).value)
  {
    match PartOf(s.b.pc)
    case Weigh => WeighOutside(s, x);
    case Deal => DealOutside(s, x);
    case Picture => PictureOutside(cfg, s, x);
    case Answer => ReceiveOutside(cfg, s, x);
  }

  lemma BalanceKeepsGap(cfg: Config, s: State, x: Input)
    requires cfg.Valid() && GapInv(s) && PriceInv(cfg, s.g, s.b, s.h.replies) && BalanceAct(cfg, s, x).Some?
    ensures GapInv(BalanceAct(cfg, s, x).value)
  {
    if s.b.pc == BSetClass || s.b.pc == BQuery || s.b.pc == BSetPrice {
      LearnKeepsGap(cfg, s, x);
    } else {
      BalanceOutside(cfg, s, x);
      OutsideKeepsGap(s, BalanceAct(cfg, s, x).value);
    }
  }

  lemma OthersKeepGap(cfg: Config, s: State, t: Thread, x: Input)
    requires cfg.Valid() && GapInv(s) && t != Balance && Act(cfg, s, t, x).Some?
    ensures GapInv(Act(cfg, s, t, x).value)
  {
    if t == Display { DisplayLeaves(cfg, s, x); }
  }

  lemma PastKeepsGap(s: State, t: Thread)
    requires GapInv(s) && (Asks(s, t).Claim? || Gives(s, t))
    ensures GapInv(Past(s, t))
  {
    if t == Balance { AfterKeepsPoints(s.b.pc); }
  }

  lemma StepKeepsGap(cfg: Config, s: State, t: Thread, x: Input)
    requires cfg.Valid() && GapInv(s) && PriceInv(cfg, s.g, s.b, s.h.replies) && Step(cfg, s, t, x).Some?
    ensures GapInv(Step(cfg, s, t, x).value)
  {
    if Asks(s, t).Claim? || Gives(s, t) {
      PastHolds(s, t);
      PastKeepsGap(s, t);
    } else if t == Balance {
      BalanceKeepsGap(cfg, s, x);
    } else {
      OthersKeepGap(cfg, s, t, x);
    }
  }

  lemma OldDataOk(cfg: Config, replies: seq<nat>, more: seq<nat>, x: OrderData)
    requires DataOk(cfg, replies, x) && replies <= more
    ensures DataOk(cfg, more, x)
  {
  }

  lemma NewDataOk(cfg: Config, s: State, u: State)
    requires Current(s.g, s.h) && AllDataOk(cfg, s.h) && Stored(s, u)
    requires PriceInv(cfg, s.g, s.b, s.h.replies) && PriceInv(cfg, u.g, u.b, u.h.replies)
    ensures Current(u.g, u.h) && DataOk(cfg, u.h.replies, u.h.data[|s.h.data|])
  {
    OldDataOk(cfg, s.h.replies, u.h.replies, s.h.data[|s.h.data| - 1]);
  }

  lemma StoredKeepsData(cfg: Config, s: State, u: State)
    requires Current(s.g, s.h) && AllDataOk(cfg, s.h) && Stored(s, u)
    requires PriceInv(cfg, s.g, s.b, s.h.replies) && PriceInv(cfg, u.g, u.b, u.h.replies)
    ensures Current(u.g, u.h) && AllDataOk(cfg, u.h)
  {
    NewDataOk(cfg, s, u);
    forall i | 0 <= i < |u.h.data| ensures DataOk(cfg, u.h.replies, u.h.data[i]) {
      if i < |s.h.data| { OldDataOk(cfg, s.h.replies, u.h.replies, s.h.data[i]); }
    }
  }

  // ------------------------------------------------------------ the message

  predicate Before(n: nat, data: seq<OrderData>) {
    1 <= n <= |data|
  }

  predicate ClassSeen(data: seq<OrderData>, m: Message) {
    Before(m.classAt, data) && m.classId == data[m.classAt - 1].classId
  }

  predicate WeightSeen(data: seq<OrderData>, m: Message) {
    m.classAt <= m.weightAt && Before(m.weightAt, data) && m.weight == data[m.weightAt - 1].weight
  }

  predicate PriceSeen(data: seq<OrderData>, m: Message) {
    m.classAt <= m.priceAt && Before(m.priceAt, data) && m.price == data[m.priceAt - 1].price
  }

  predicate MessageOk(cfg: Config, data: seq<OrderData>, m: Message) {
    ClassSeen(data, m) && WeightSeen(data, m) && PriceSeen(data, m) && (m.classId == NO_CLASS || m.classId in cfg.table)
  }

  // After the class was read, and after its name was found.
  predicate HasClass(pc: DisplayPc) {
    match pc
    case DUSnapshot | DName | DShow | DShowWeight | DShowPrice => true
    case _ => false
  }

  predicate HasName(pc: DisplayPc) {
    match pc
    case DShow | DShowWeight | DShowPrice => true
    case _ => false
  }

  ghost predicate BuildInv(cfg: Config, d: Displaying, data: seq<OrderData>) {
    && (HasClass(d.pc) ==> ClassSeen(data, d.msg) && d.msg.classId == d.classId)
    && (HasName(d.pc) ==> d.classId == NO_CLASS || d.classId in cfg.table)
    && (d.pc == DShowPrice ==> WeightSeen(data, d.msg))
    && (d.pc == DShowWeight ==> PriceSeen(data, d.msg))
  }

  ghost predicate MessagesOk(cfg: Config, h: History) {
    forall i :: 0 <= i < |h.messages| ==> MessageOk(cfg, h.data, h.messages[i])
  }

  ghost predicate ShowInv(cfg: Config, s: State) {
    && Current(s.g, s.h) && AllDataOk(cfg, s.h)
    && BuildInv(cfg, s.d, s.h.data) && MessagesOk(cfg, s.h)
  }

  lemma MoreDataKeeps(cfg: Config, d: Displaying, h: History, data: seq<OrderData>)
    requires BuildInv(cfg, d, h.data) && MessagesOk(cfg, h) && h.data <= data
    ensures BuildInv(cfg, d, data) && forall i :: 0 <= i < |h.messages| ==> MessageOk(cfg, data, h.messages[i])
  {
    forall i | 0 <= i < |h.messages| ensures MessageOk(cfg, data, h.messages[i]) {
      assert MessageOk(cfg, h.data, h.messages[i]);
    }
  }

  lemma BalanceKeepsShow(cfg: Config, s: State, u: State)
    requires ShowInv(cfg, s) && DataStep(s, u)
    requires PriceInv(cfg, s.g, s.b, s.h.replies) && PriceInv(cfg, u.g, u.b, u.h.replies)
    ensures ShowInv(cfg, u)
  {
    if Stored(s, u) { StoredKeepsData(cfg, s, u); }
    MoreDataKeeps(cfg, s.d, s.h, u.h.data);
  }

  lemma CaptureKeepsShow(cfg: Config, s: State, x: Input)
    requires ShowInv(cfg, s) && CaptureAct(s, x).Some?
    ensures ShowInv(cfg, CaptureAct(s, x).value)
  {
    CaptureLeaves(s, x);
    CaptureBuilds(s, x);
  }

  lemma CaptureBuilds(s: State, x: Input)
    requires CaptureAct(s, x).Some?
    ensures var u := CaptureAct(s, x).value; !HasClass(u.d.pc) && u.h.messages == s.h.messages
  {
  }

  // A step of the display thread that completes no message.
  lemma SnapshotBuilds(cfg: Config, s: State, x: Input)
    requires Current(s.g, s.h) && BuildInv(cfg, s.d, s.h.data) && ShowAct(cfg, s, x).Some?
    requires s.d.pc != DShowWeight && s.d.pc != DShowPrice
    ensures var u := ShowAct(cfg, s, x).value; BuildInv(cfg, u.d, u.h.data) && u.h == s.h
  {
    match s.d.pc
    case DGetWeight => case DGetPrice => case DGetClass => case DName => case DShow => case DSend =>
  }

  lemma LastReadBuilds(cfg: Config, s: State, x: Input)
    requires Current(s.g, s.h) && BuildInv(cfg, s.d, s.h.data) && ShowAct(cfg, s, x).Some?
    requires s.d.pc == DShowWeight || s.d.pc == DShowPrice
    ensures var u := ShowAct(cfg, s, x).value;
      && u.d.pc == DSend && MessageOk(cfg, s.h.data, u.d.msg) && u.h == s.h.(messages := s.h.messages + [u.d.msg])
  {
  }

  lemma ShowKeepsShow(cfg: Config, s: State, x: Input)
    requires ShowInv(cfg, s) && ShowAct(cfg, s, x).Some?
    ensures ShowInv(cfg, ShowAct(cfg, s, x).value)
  {
    ShowStays(cfg, s, x);
    if s.d.pc == DShowWeight || s.d.pc == DShowPrice { LastReadBuilds(cfg, s, x); } else { SnapshotBuilds(cfg, s, x); }
  }

  lemma ControlKeepsShow(cfg: Config, s: State, x: Input)
    requires ShowInv(cfg, s) && ControlAct(s, x).Some?
    ensures ShowInv(cfg, ControlAct(s, x).value)
  {
  }

  lemma PastKeepsShow(cfg: Config, s: State, t: Thread)
    requires ShowInv(cfg, s) && (Asks(s, t).Claim? || Gives(s, t))
    ensures ShowInv(cfg, Past(s, t))
  {
  }

  lemma StepKeepsShow(cfg: Config, s: State, t: Thread, x: Input)
    requires cfg.Valid() && ShowInv(cfg, s) && SalesInv(cfg, s) && Step(cfg, s, t, x).Some?
    ensures ShowInv(cfg, Step(cfg, s, t, x).value)
  {
    if Asks(s, t).Claim? || Gives(s, t) {
      PastHolds(s, t);
      PastKeepsShow(cfg, s, t);
    } else {
      match t
      case Balance =>
        StepKeepsSales(cfg, s, t, x);
        BalanceData(cfg, s, x);
        BalanceKeepsShow(cfg, s, BalanceAct(cfg, s, x).value);
      case Display => if CaptureAct(s, x).Some? { CaptureKeepsShow(cfg, s, x); } else { ShowKeepsShow(cfg, s, x); }
      case Control => ControlKeepsShow(cfg, s, x);
    }
  }

  lemma DataGrows(cfg: Config, s: State, t: Thread, x: Input)
    requires cfg.Valid() && Step(cfg, s, t, x).Some?
    ensures s.h.data <= Step(cfg, s, t, x).value.h.data
  {
    if Asks(s, t).Claim? || Gives(s, t) {
      PastHolds(s, t);
    } else {
      match t
      case Balance => BalanceData(cfg, s, x);
      case Display => DisplayLeaves(cfg, s, x);
      case Control =>
    }
  }

  // ----------------------------------------------------------- the snapshot

  // While the display thread takes its snapshot under the read lock, what it has read
  // so far is still what the fields hold.
  ghost predicate SnapshotInv(g: Shared, d: Displaying) {
    && (d.pc == DGetPrice || d.pc == DGetClass || d.pc == DUSnapshot ==> d.weight == Trunc(g.weight))
    && (d.pc == DGetClass || d.pc == DUSnapshot ==> d.price == Trunc(g.price))
    && (d.pc == DUSnapshot ==> d.classId == g.classId)
  }

  // A store of the balance thread to the order data happens under the weight lock.
  lemma StoresAreLocked(cfg: Config, s: State, x: Input)
    requires cfg.Valid() && BalanceAct(cfg, s, x).Some? && BalanceHolds(s.b.pc) != Claim(WeightLock, true)
    ensures SameData(s, BalanceAct(cfg, s, x).value)
  {
    match PartOf(s.b.pc) {
      case Weigh => WeighStoresLocked(s, x);
      case Deal => DealStoresLocked(s, x);
      case Picture => PictureStoresNothing(cfg, s, x);
      case Answer => AnswerStoresLocked(cfg, s, x);
    }
  }

  lemma WeighStoresLocked(s: State, x: Input)
    requires WeighAct(s, x).Some? && BalanceHolds(s.b.pc) != Claim(WeightLock, true)
    ensures SameData(s, WeighAct(s, x).value)
  {
  }

  lemma DealStoresLocked(s: State, x: Input)
    requires OrderAct(s, x).Some? && BalanceHolds(s.b.pc) != Claim(WeightLock, true)
    ensures SameData(s, OrderAct(s, x).value)
  {
  }

  lemma PictureStoresNothing(cfg: Config, s: State, x: Input)
    requires cfg.Valid() && ImageAct(cfg, s, x).Some?
    ensures SameData(s, ImageAct(cfg, s, x).value)
  {
  }

  lemma AnswerStoresLocked(cfg: Config, s: State, x: Input)
    requires ReplyAct(cfg, s, x).Some? && BalanceHolds(s.b.pc) != Claim(WeightLock, true)
    ensures SameData(s, ReplyAct(cfg, s, x).value)
  {
  }

  lemma ReaderExcludesWriter(s: State)
    requires LocksAgree(s) && DisplayHolds(s.d.pc) == Claim(WeightLock, false)
    ensures BalanceHolds(s.b.pc) != Claim(WeightLock, true)
  {
    assert AgreeOn(s, Display, WeightLock) && AgreeOn(s, Balance, WeightLock);
  }

  lemma CaptureKeepsSnapshot(s: State, x: Input)
    requires CaptureAct(s, x).Some?
    ensures var u := CaptureAct(s, x).value; SnapshotInv(u.g, u.d)
  {
  }

  lemma ShowKeepsSnapshot(cfg: Config, s: State, x: Input)
    requires SnapshotInv(s.g, s.d) && ShowAct(cfg, s, x).Some?
    ensures var u := ShowAct(cfg, s, x).value; SnapshotInv(u.g, u.d)
  {
    match s.d.pc
    case DGetWeight => case DGetPrice => case DGetClass => case DName =>
    case DShow => case DShowWeight => case DShowPrice => case DSend =>
  }

  lemma BalanceKeepsSnapshot(cfg: Config, s: State, x: Input)
    requires cfg.Valid() && LocksAgree(s) && SnapshotInv(s.g, s.d) && BalanceAct(cfg, s, x).Some?
    ensures var u := BalanceAct(cfg, s, x).value; SnapshotInv(u.g, u.d)
  {
    BalanceData(cfg, s, x);
    if DisplayHolds(s.d.pc) == Claim(WeightLock, false) {
      ReaderExcludesWriter(s);
      StoresAreLocked(cfg, s, x);
    }
  }

  lemma SnapshotStep(cfg: Config, s: State, t: Thread, x: Input)
    requires cfg.Valid() && LocksAgree(s) && SnapshotInv(s.g, s.d) && Step(cfg, s, t, x).Some?
    ensures var u := Step(cfg, s, t, x).value; SnapshotInv(u.g, u.d)
  {
    if Asks(s, t).Claim? || Gives(s, t) {
      PastHolds(s, t);
    } else {
      match t
      case Balance => BalanceKeepsSnapshot(cfg, s, x);
      case Display => if CaptureAct(s, x).Some? { CaptureKeepsSnapshot(s, x); } else { ShowKeepsSnapshot(cfg, s, x); }
      case Control =>
    }
  }

  // --------------------------------------------------------------- all runs

  lemma {:induction false} ShowRun(cfg: Config, s: State, events: seq<Event>)
    requires cfg.Valid() && Inv(cfg, s) && ShowInv(cfg, s) && SnapshotInv(s.g, s.d) && GapInv(s)
    ensures var u := Run(cfg, s, events); Inv(cfg, u) && ShowInv(cfg, u) && SnapshotInv(u.g, u.d) && GapInv(u)
    decreases |events|
  {
    if events != [] {
      var e := events[0];
      if Step(cfg, s, e.thread, e.input).Some? {
        StepInv(cfg, s, e.thread, e.input);
        StepKeepsShow(cfg, s, e.thread, e.input);
        StepKeepsGap(cfg, s, e.thread, e.input);
        SnapshotStep(cfg, s, e.thread, e.input);
        ShowRun(cfg, Step(cfg, s, e.thread, e.input).value, events[1..]);
      } else {
        ShowRun(cfg, s, events[1..]);
      }
    }
  }

  lemma ReachableShows(cfg: Config, s: State)
    requires cfg.Valid() && Reachable(cfg, s)
    ensures Inv(cfg, s) && ShowInv(cfg, s) && SnapshotInv(s.g, s.d) && GapInv(s)
  {
    var rgb: seq<byte>, resize: seq<byte>, weight: real, events: seq<Event> :|
      ReachedBy(cfg, rgb, resize, weight, events, s);
    InitInv(cfg, rgb, resize, weight);
    ShowRun(cfg, Init(rgb, resize, weight), events);
  }

  // The table has row c with this price.
  predicate IsPriceOf(cfg: Config, c: nat, price: real) {
    c in cfg.table && price == cfg.table[c]
  }

  // The replies say that the price in force suits class c: the one priced last is of a
  // class with the same price, or none was priced since the start or a reset and c
  // costs nothing.
  predicate Suits(cfg: Config, replies: seq<nat>, priced: nat, c: nat)
    requires priced <= |replies|
  {
    c in cfg.table &&
    if priced == 0 then cfg.table[c] == 0.0
    else replies[priced - 1] in cfg.table && cfg.table[replies[priced - 1]] == cfg.table[c]
  }

  lemma ReachablePrice(cfg: Config, s: State)
    requires cfg.Valid() && Reachable(cfg, s)
    ensures PriceInv(cfg, s.g, s.b, s.h.replies) && GapInv(s)
    ensures s.g.price == Worth(cfg, s.h.replies, Priced(s.h))
    ensures 0 < Priced(s.h) <= |s.h.replies| ==> s.h.replies[Priced(s.h) - 1] in cfg.table
  {
    ReachableShows(cfg, s);
    assert DataOk(cfg, s.h.replies, s.h.data[|s.h.data| - 1]);
  }

  // The price in force is that of the reply priced last, or zero at the start and
  // after a reset. Outside the gap between the two stores that reply is the one that
  // gave the class, and the price is right; inside it is an older one, and the price
  // is right exactly if that suits.
  lemma PriceInForceIff(cfg: Config, s: State)
    requires cfg.Valid() && Reachable(cfg, s)
    ensures Priced(s.h) <= |s.h.replies| && s.g.price == Worth(cfg, s.h.replies, Priced(s.h))
    ensures s.g.classId != NO_CLASS ==>
      && s.h.replies != [] && s.g.classId == s.h.replies[|s.h.replies| - 1]
      && (Pricing(s.b.pc) <==> Priced(s.h) < |s.h.replies|)
      && (!Pricing(s.b.pc) ==> IsPriceOf(cfg, s.g.classId, s.g.price))
      && (Pricing(s.b.pc) ==>
            (IsPriceOf(cfg, s.g.classId, s.g.price) <==> Suits(cfg, s.h.replies, Priced(s.h), s.g.classId)))
  {
    ReachablePrice(cfg, s);
  }

  // The same for a price as an int.
  predicate SuitsInt(cfg: Config, replies: seq<nat>, priced: nat, c: nat)
    requires priced <= |replies|
  {
    c in cfg.table &&
    if priced == 0 then Trunc(cfg.table[c]) == 0
    else replies[priced - 1] in cfg.table && Trunc(cfg.table[replies[priced - 1]]) == Trunc(cfg.table[c])
  }

  predicate IsIntPriceOf(cfg: Config, c: nat, price: int) {
    c in cfg.table && price == Trunc(cfg.table[c])
  }

  // The snapshot is one state of the order data (weight and price as ints). Outside
  // the gap its price is the table's for its class; inside it is exactly if the reply
  // priced last has the same price as an int.
  lemma SnapshotIsOneState(cfg: Config, s: State)
    requires cfg.Valid() && Reachable(cfg, s) && s.d.pc == DUSnapshot
    ensures s.d.weight == Trunc(s.g.weight) && s.d.price == Trunc(s.g.price) && s.d.classId == s.g.classId
    ensures Priced(s.h) <= |s.h.replies|
    ensures s.d.classId != NO_CLASS && !Pricing(s.b.pc) ==> IsIntPriceOf(cfg, s.d.classId, s.d.price)
    ensures s.d.classId != NO_CLASS && Pricing(s.b.pc) ==>
      (IsIntPriceOf(cfg, s.d.classId, s.d.price) <==> SuitsInt(cfg, s.h.replies, Priced(s.h), s.d.classId))
  {
    ReachableSnapshot(cfg, s);
    ReachablePrice(cfg, s);
  }

  lemma ReachableSnapshot(cfg: Config, s: State)
    requires cfg.Valid() && Reachable(cfg, s)
    ensures SnapshotInv(s.g, s.d)
  {
    ReachableShows(cfg, s);
  }

  lemma ReachableMessage(cfg: Config, s: State, m: Message)
    requires cfg.Valid() && Reachable(cfg, s) && m in s.h.messages
    ensures MessageOk(cfg, s.h.data, m)
  {
    ReachableShows(cfg, s);
    var k :| 0 <= k < |s.h.messages| && s.h.messages[k] == m;
    assert MessageOk(cfg, s.h.data, s.h.messages[k]);
  }

  lemma ReachableData(cfg: Config, s: State, i: nat)
    requires cfg.Valid() && Reachable(cfg, s) && i < |s.h.data|
    ensures DataOk(cfg, s.h.replies, s.h.data[i])
  {
    ReachableShows(cfg, s);
  }

  // Class, weight and price of a message are each from a state of the order data, the
  // latter two from the state the class is from or from later ones. If no store falls
  // between the reads they are all from one state.
  lemma MessagesAreSound(cfg: Config, s: State, m: Message)
    requires cfg.Valid() && Reachable(cfg, s) && m in s.h.messages
    ensures 1 <= m.classAt <= m.weightAt <= |s.h.data| && m.classAt <= m.priceAt <= |s.h.data|
    ensures m.classId == s.h.data[m.classAt - 1].classId
    ensures m.weight == s.h.data[m.weightAt - 1].weight && m.price == s.h.data[m.priceAt - 1].price
    ensures m.classId == NO_CLASS || m.classId in cfg.table
    ensures m.classAt == m.weightAt == m.priceAt ==>
      exists i :: 0 <= i < |s.h.data| && IsState(m, s.h.data[i])
  {
    ReachableMessage(cfg, s, m);
    if m.classAt == m.weightAt == m.priceAt { assert IsState(m, s.h.data[m.classAt - 1]); }
  }

  predicate IsState(m: Message, x: OrderData) {
    m.classId == x.classId && m.weight == x.weight && m.price == x.price
  }

  // A message with a class shows the table's price exactly if the reply priced last
  // before the price was read has that price, or if none was priced since the start
  // or a reset and the price is zero. It does if that reply is the one that gave the
  // class.
  lemma MessagePriceIff(cfg: Config, s: State, m: Message)
    requires cfg.Valid() && Reachable(cfg, s) && m in s.h.messages && m.classId != NO_CLASS
    ensures 1 <= m.classAt <= m.priceAt <= |s.h.data| && m.classId in cfg.table
    ensures var x, y := s.h.data[m.classAt - 1], s.h.data[m.priceAt - 1];
      && 1 <= x.heard <= |s.h.replies| && m.classId == s.h.replies[x.heard - 1]
      && y.priced <= |s.h.replies| && (y.priced > 0 ==> s.h.replies[y.priced - 1] in cfg.table)
      && (m.price == cfg.table[m.classId] <==>
          (if y.priced == 0 then cfg.table[m.classId] == 0.0
           else cfg.table[s.h.replies[y.priced - 1]] == cfg.table[m.classId]))
      && (y.priced == x.heard ==> m.price == cfg.table[m.classId])
  {
    ReachableMessage(cfg, s, m);
    ReachableData(cfg, s, m.classAt - 1);
    ReachableData(cfg, s, m.priceAt - 1);
  }
}
