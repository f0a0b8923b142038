/** What every run of the order protocol keeps: what an inserted order says, and where
    each accept request goes. */
module OrderSafety {
  import opened OrderProtocol
  import opened OrderLocks

  // -------------------------------------------------- what an order stands for

  ghost predicate OrderOk(cfg: Config, h: History, o: Order) {
    && o.classId != NO_CLASS && o.weight > MIN_WEIGHT
    && o.classId in cfg.table && o.price == cfg.table[o.classId]
    && 1 <= o.reply <= |h.replies| && o.classId == h.replies[o.reply - 1]
    && 1 <= o.sample <= |h.samples| && o.weight == h.samples[o.sample - 1]
  }

  // Between a new class and its price.
  predicate Pricing(pc: BalancePc) {
    match pc
    case BUReply | BQuery | BLPrice | BSetPrice => true
    case _ => false
  }

  // Between the reset of the class and the end of the reset.
  predicate Resetting(pc: BalancePc) {
    match pc
    case BZeroPrice | BZeroWeight | BUZero => true
    case _ => false
  }

  // Points at which samples are counted.
  predicate Counting(pc: BalancePc) {
    match pc
    case BLoop | BRead | BLSample | BSetWeight | BUSample | BTest => true
    case _ => false
  }

  ghost predicate PriceInv(cfg: Config, g: Shared, b: Balancing, replies: seq<nat>) {
    && (g.classId != NO_CLASS && !Pricing(b.pc) ==> g.classId in cfg.table && g.price == cfg.table[g.classId])
    && (b.pc == BLPrice || b.pc == BSetPrice ==> g.classId in cfg.table && b.queried == cfg.table[g.classId])
    && (g.classId != NO_CLASS || Pricing(b.pc) ==> replies != [] && g.classId == replies[|replies| - 1])
    && (Resetting(b.pc) ==> g.classId == NO_CLASS)
    && (b.pc == BZeroWeight || b.pc == BUZero ==> g.price == 0.0)
    && (b.pc == BUZero ==> g.weight == 0.0)
  }

  // From the weight test to the end of the pass.
  predicate Weighed(pc: BalancePc) {
    PartOf(pc) != Weigh
  }

  ghost predicate LocalInv(g: Shared, b: Balancing) {
    && (Weighed(b.pc) ==> g.weight > MIN_WEIGHT)
    && (b.pc == BLFlag ==> g.weight > MIN_WEIGHT)
    && (b.pc == BGetPrice || b.pc == BGetClass || b.pc == BCheck || b.pc == BInsert ==> b.weight == g.weight)
    && (b.pc == BGetClass || b.pc == BCheck || b.pc == BInsert ==> b.price == g.price)
    && (b.pc == BCheck || b.pc == BInsert ==> b.classId == g.classId)
    && (b.pc == BInsert ==> b.classId != NO_CLASS)
  }

  // The weight in force is the last one stored unless it was reset, and a pass stores
  // ten samples; fewer only when the scale has none.
  ghost predicate WeightInv(g: Shared, b: Balancing, samples: seq<real>) {
    && samples != [] && (g.weight == samples[|samples| - 1] || g.weight == 0.0)
    && (b.pc == BLoop || b.pc == BUSample ==> b.taken + b.delay == 10)
    && (b.pc == BRead || b.pc == BLSample || b.pc == BSetWeight ==> b.taken + b.delay == 9)
    && (b.pc == BTest ==> b.taken + b.delay == 9 || b.taken == 10)
  }

  // Orders are sound, and each used a later reply than the one before. Unless an order
  // has just been inserted, a class in force is newer than all of them.
  ghost predicate OrdersInv(cfg: Config, g: Shared, b: Balancing, h: History) {
    && (forall i :: 0 <= i < |h.orders| ==> OrderOk(cfg, h, h.orders[i]))
    && (forall i, j :: 0 <= i < j < |h.orders| ==> h.orders[i].reply < h.orders[j].reply)
    && (JustInserted(b.pc) || g.classId == NO_CLASS ||
        forall i :: 0 <= i < |h.orders| ==> h.orders[i].reply < |h.replies|)
  }

  ghost predicate SalesInv(cfg: Config, s: State) {
    && PriceInv(cfg, s.g, s.b, s.h.replies) && LocalInv(s.g, s.b) && WeightInv(s.g, s.b, s.h.samples)
    && OrdersInv(cfg, s.g, s.b, s.h)
  }

  predicate JustInserted(pc: BalancePc) {
    pc == BLOrder || pc == BOrderClass
  }

  // Steps that insert nothing and hear no reply.
  ghost predicate NoNews(s: State, u: State) {
    && u.h.orders == s.h.orders && u.h.replies == s.h.replies && s.h.samples <= u.h.samples
    && (u.g.classId == s.g.classId || u.g.classId == NO_CLASS)
    && (JustInserted(s.b.pc) ==> JustInserted(u.b.pc) || u.g.classId == NO_CLASS)
  }

  lemma NoNewsKeepsOrders(cfg: Config, s: State, u: State)
    requires OrdersInv(cfg, s.g, s.b, s.h) && NoNews(s, u)
    ensures OrdersInv(cfg, u.g, u.b, u.h)
  {
    forall i | 0 <= i < |u.h.orders| ensures OrderOk(cfg, u.h, u.h.orders[i]) {
      assert OrderOk(cfg, s.h, s.h.orders[i]);
    }
  }

  lemma WeighKeepsSales(cfg: Config, s: State, x: Input)
    requires SalesInv(cfg, s) && PartOf(s.b.pc) == Weigh && WeighAct(s, x).Some?
    ensures SalesInv(cfg, WeighAct(s, x).value)
  {
    WeighKeepsPrice(cfg, s, x);
    WeighKeepsLocal(s, x);
    WeighKeepsWeight(s, x);
    WeighHasNoNews(s, x);
    NoNewsKeepsOrders(cfg, s, WeighAct(s, x).value);
  }

  // Steps away from the points at which the price is queried or reset.
  ghost predicate SamePrice(s: State, u: State) {
    && u.g.price == s.g.price && u.b.queried == s.b.queried && u.h.replies == s.h.replies
    && (u.g.classId == s.g.classId || u.g.classId == NO_CLASS)
    && !Pricing(s.b.pc) && !Pricing(u.b.pc) && !Resetting(u.b.pc)
  }

  lemma SamePriceKeeps(cfg: Config, s: State, u: State)
    requires PriceInv(cfg, s.g, s.b, s.h.replies) && SamePrice(s, u)
    ensures PriceInv(cfg, u.g, u.b, u.h.replies)
  {
  }

  lemma SampleLeavesPrice(s: State, x: Input)
    requires WeighAct(s, x).Some? && !Resetting(s.b.pc) && s.b.pc != BZeroClass
    ensures SamePrice(s, WeighAct(s, x).value)
  {
    match s.b.pc
    case BReset => case BLoop => case BRead => case BSetWeight => case BTest =>
  }

  lemma ResetKeepsPrice(cfg: Config, s: State, x: Input)
    requires PriceInv(cfg, s.g, s.b, s.h.replies) && WeighAct(s, x).Some?
    requires s.b.pc == BZeroClass || s.b.pc == BZeroPrice || s.b.pc == BZeroWeight
    ensures var u := WeighAct(s, x).value; PriceInv(cfg, u.g, u.b, u.h.replies)
  {
  }

  lemma WeighKeepsPrice(cfg: Config, s: State, x: Input)
    requires PriceInv(cfg, s.g, s.b, s.h.replies) && WeighAct(s, x).Some?
    ensures var u := WeighAct(s, x).value; PriceInv(cfg, u.g, u.b, u.h.replies)
  {
    if s.b.pc == BZeroClass || s.b.pc == BZeroPrice || s.b.pc == BZeroWeight {
      ResetKeepsPrice(cfg, s, x);
    } else {
      SampleLeavesPrice(s, x);
      SamePriceKeeps(cfg, s, WeighAct(s, x).value);
    }
  }

  lemma WeighHasNoNews(s: State, x: Input)
    requires PartOf(s.b.pc) == Weigh && WeighAct(s, x).Some?
    ensures NoNews(s, WeighAct(s, x).value)
  {
    match s.b.pc
    case BReset => case BLoop => case BRead => case BSetWeight => case BTest => case BZeroClass =>
    case BZeroPrice => case BZeroWeight =>
  }

  lemma WeighKeepsLocal(s: State, x: Input)
    requires LocalInv(s.g, s.b) && PartOf(s.b.pc) == Weigh && WeighAct(s, x).Some?
    ensures var u := WeighAct(s, x).value; LocalInv(u.g, u.b)
  {
    match s.b.pc
    case BReset => case BLoop => case BRead => case BSetWeight => case BTest => case BZeroClass =>
    case BZeroPrice => case BZeroWeight =>
  }

  lemma SampleKeepsWeight(s: State, x: Input)
    requires WeightInv(s.g, s.b, s.h.samples) && Counting(s.b.pc) && WeighAct(s, x).Some?
    ensures var u := WeighAct(s, x).value; WeightInv(u.g, u.b, u.h.samples)
  {
  }

  lemma WeighKeepsWeight(s: State, x: Input)
    requires WeightInv(s.g, s.b, s.h.samples) && WeighAct(s, x).Some?
    ensures var u := WeighAct(s, x).value; WeightInv(u.g, u.b, u.h.samples)
  {
    if Counting(s.b.pc) { SampleKeepsWeight(s, x); }
  }

  // Outside the weighing the weight stays.
  ghost predicate SameWeight(s: State, u: State) {
    u.g.weight == s.g.weight && u.h.samples == s.h.samples && !Counting(u.b.pc)
  }

  lemma DealLeavesPrice(s: State, x: Input)
    requires OrderAct(s, x).Some?
    ensures SamePrice(s, OrderAct(s, x).value)
  {
    match s.b.pc
    case BGetFlag => case BBranch => case BClear => case BGetWeight => case BGetPrice => case BGetClass => case BCheck =>
    case BInsert => case BOrderClass =>
  }

  lemma DealKeepsLocal(s: State, x: Input)
    requires LocalInv(s.g, s.b) && PartOf(s.b.pc) == Deal && OrderAct(s, x).Some?
    ensures var u := OrderAct(s, x).value; LocalInv(u.g, u.b)
  {
    match s.b.pc
    case BGetFlag => case BBranch => case BClear => case BGetWeight => case BGetPrice =>
    case BGetClass => case BCheck => case BInsert => case BOrderClass =>
  }

  lemma DealKeepsSales(cfg: Config, s: State, x: Input)
    requires SalesInv(cfg, s) && PartOf(s.b.pc) == Deal && OrderAct(s, x).Some?
    ensures SalesInv(cfg, OrderAct(s, x).value)
  {
    DealLeavesPrice(s, x);
    SamePriceKeeps(cfg, s, OrderAct(s, x).value);
    DealKeepsLocal(s, x);
    DealKeepsWeight(s, x);
    if s.b.pc != BInsert {
      DealHasNoNews(s, x);
      NoNewsKeepsOrders(cfg, s, OrderAct(s, x).value);
    } else {
      InsertKeepsOrders(cfg, s, x);
    }
  }

  lemma DealKeepsWeight(s: State, x: Input)
    requires PartOf(s.b.pc) == Deal && OrderAct(s, x).Some?
    ensures SameWeight(s, OrderAct(s, x).value)
  {
    match s.b.pc
    case BGetFlag => case BBranch => case BClear => case BGetWeight => case BGetPrice =>
    case BGetClass => case BCheck => case BInsert => case BOrderClass =>
  }

  lemma DealHasNoNews(s: State, x: Input)
    requires PartOf(s.b.pc) == Deal && s.b.pc != BInsert && OrderAct(s, x).Some?
    ensures NoNews(s, OrderAct(s, x).value)
  {
    match s.b.pc
    case BGetFlag => case BBranch => case BClear => case BGetWeight => case BGetPrice =>
    case BGetClass => case BCheck => case BInsert => case BOrderClass =>
  }

  function NewOrder(s: State): Order {
    Order(s.b.classId, s.b.weight, s.b.price, |s.h.replies|, |s.h.samples|)
  }

  // The one place an order is made: class, price, weight and reply are those in force.
  lemma NewOrderIsOk(cfg: Config, s: State)
    requires PriceInv(cfg, s.g, s.b, s.h.replies) && LocalInv(s.g, s.b) && WeightInv(s.g, s.b, s.h.samples)
    requires s.b.pc == BInsert
    ensures OrderOk(cfg, s.h, NewOrder(s))
    ensures s.g.classId != NO_CLASS
  {
  }

  lemma InsertKeepsOrders(cfg: Config, s: State, x: Input)
    requires SalesInv(cfg, s) && s.b.pc == BInsert && OrderAct(s, x).Some?
    ensures var u := OrderAct(s, x).value; OrdersInv(cfg, u.g, u.b, u.h)
  {
    NewOrderIsOk(cfg, s);
    if x == Ok {
      OrdersGrow(cfg, s.h, NewOrder(s));
    }
  }

  lemma OrdersGrow(cfg: Config, h: History, o: Order)
    requires forall i :: 0 <= i < |h.orders| ==> OrderOk(cfg, h, h.orders[i]) && h.orders[i].reply < |h.replies|
    requires forall i, j :: 0 <= i < j < |h.orders| ==> h.orders[i].reply < h.orders[j].reply
    requires OrderOk(cfg, h, o) && o.reply == |h.replies|
    ensures var u := h.(orders := h.orders + [o]);
      && (forall i :: 0 <= i < |u.orders| ==> OrderOk(cfg, u, u.orders[i]))
      && (forall i, j :: 0 <= i < j < |u.orders| ==> u.orders[i].reply < u.orders[j].reply)
  {
    var u := h.(orders := h.orders + [o]);
    forall i | 0 <= i < |u.orders| ensures OrderOk(cfg, u, u.orders[i]) {
      if i < |h.orders| { assert OrderOk(cfg, h, h.orders[i]); }
    }
  }

  // Steps that leave everything about orders alone, outside the points that matter.
  ghost predicate Quiet(s: State, u: State) {
    && u.g.classId == s.g.classId && u.g.price == s.g.price && u.g.weight == s.g.weight && u.g.flag == s.g.flag
    && u.h.orders == s.h.orders && u.h.replies == s.h.replies && u.h.samples == s.h.samples && u.ctl == s.ctl
    && u.h.received == s.h.received && u.h.dropped == s.h.dropped && u.h.coalesced == s.h.coalesced
    && PartOf(s.b.pc) == Picture && (PartOf(u.b.pc) == Picture || u.b.pc == BReceive)
  }

  lemma PictureIsQuiet(cfg: Config, s: State, x: Input)
    requires cfg.Valid() && PartOf(s.b.pc) == Picture && ImageAct(cfg, s, x).Some?
    ensures Quiet(s, ImageAct(cfg, s, x).value)
  {
    match s.b.pc
    case BPack => case BSendHead => case BStart => case BScale => case BSendImage =>
  }

  lemma QuietKeepsSales(cfg: Config, s: State, u: State)
    requires SalesInv(cfg, s) && Quiet(s, u)
    ensures SalesInv(cfg, u)
  {
    NoNewsKeepsOrders(cfg, s, u);
  }

  lemma PictureKeepsSales(cfg: Config, s: State, x: Input)
    requires cfg.Valid() && SalesInv(cfg, s) && PartOf(s.b.pc) == Picture && ImageAct(cfg, s, x).Some?
    ensures SalesInv(cfg, ImageAct(cfg, s, x).value)
  {
    PictureIsQuiet(cfg, s, x);
    QuietKeepsSales(cfg, s, ImageAct(cfg, s, x).value);
  }

  lemma AnswerKeepsSales(cfg: Config, s: State, x: Input)
    requires SalesInv(cfg, s) && PartOf(s.b.pc) == Answer && ReplyAct(cfg, s, x).Some?
    ensures SalesInv(cfg, ReplyAct(cfg, s, x).value)
  {
    AnswerKeepsPrice(cfg, s, x);
    AnswerKeepsLocal(cfg, s, x);
    AnswerKeepsWeight(cfg, s, x);
    if s.b.pc != BSetClass {
      AnswerHasNoNews(cfg, s, x);
      NoNewsKeepsOrders(cfg, s, ReplyAct(cfg, s, x).value);
    } else {
      ReplyKeepsOrders(cfg, s, x);
    }
  }

  lemma ReceiveLeavesPrice(cfg: Config, s: State, x: Input)
    requires (s.b.pc == BReceive || s.b.pc == BOffline) && ReplyAct(cfg, s, x).Some?
    ensures SamePrice(s, ReplyAct(cfg, s, x).value)
  {
  }

  lemma LearnKeepsPrice(cfg: Config, s: State, x: Input)
    requires PriceInv(cfg, s.g, s.b, s.h.replies) && ReplyAct(cfg, s, x).Some?
    requires s.b.pc == BSetClass || s.b.pc == BQuery || s.b.pc == BSetPrice
    ensures var u := ReplyAct(cfg, s, x).value; PriceInv(cfg, u.g, u.b, u.h.replies)
  {
  }

  lemma AnswerKeepsPrice(cfg: Config, s: State, x: Input)
    requires PriceInv(cfg, s.g, s.b, s.h.replies) && ReplyAct(cfg, s, x).Some?
    ensures var u := ReplyAct(cfg, s, x).value; PriceInv(cfg, u.g, u.b, u.h.replies)
  {
    if s.b.pc == BReceive || s.b.pc == BOffline {
      ReceiveLeavesPrice(cfg, s, x);
      SamePriceKeeps(cfg, s, ReplyAct(cfg, s, x).value);
    } else {
      LearnKeepsPrice(cfg, s, x);
    }
  }

  lemma AnswerKeepsLocal(cfg: Config, s: State, x: Input)
    requires LocalInv(s.g, s.b) && PartOf(s.b.pc) == Answer && ReplyAct(cfg, s, x).Some?
    ensures var u := ReplyAct(cfg, s, x).value; LocalInv(u.g, u.b)
  {
    match s.b.pc
    case BReceive => case BOffline => case BSetClass => case BQuery => case BSetPrice =>
  }

  lemma AnswerKeepsWeight(cfg: Config, s: State, x: Input)
    requires PartOf(s.b.pc) == Answer && ReplyAct(cfg, s, x).Some?
    ensures SameWeight(s, ReplyAct(cfg, s, x).value)
  {
    match s.b.pc
    case BReceive => case BOffline => case BSetClass => case BQuery => case BSetPrice =>
  }

  lemma AnswerHasNoNews(cfg: Config, s: State, x: Input)
    requires PartOf(s.b.pc) == Answer && s.b.pc != BSetClass && ReplyAct(cfg, s, x).Some?
    ensures NoNews(s, ReplyAct(cfg, s, x).value)
  {
    match s.b.pc
    case BReceive => case BOffline => case BSetClass => case BQuery => case BSetPrice =>
  }

  lemma ReplyKeepsOrders(cfg: Config, s: State, x: Input)
    requires OrdersInv(cfg, s.g, s.b, s.h) && s.b.pc == BSetClass && ReplyAct(cfg, s, x).Some?
    ensures var u := ReplyAct(cfg, s, x).value; OrdersInv(cfg, u.g, u.b, u.h)
  {
    var u := ReplyAct(cfg, s, x).value;
    forall i | 0 <= i < |u.h.orders| ensures OrderOk(cfg, u.h, u.h.orders[i]) && u.h.orders[i].reply < |u.h.replies| {
      assert OrderOk(cfg, s.h, s.h.orders[i]);
    }
  }

  // The other threads do not write what these facts are about.
  lemma OthersKeepSales(cfg: Config, s: State, t: Thread, x: Input)
    requires cfg.Valid() && SalesInv(cfg, s) && t != Balance && Act(cfg, s, t, x).Some?
    ensures SalesInv(cfg, Act(cfg, s, t, x).value)
  {
    OthersLeaveSales(cfg, s, t, x);
    NoNewsKeepsOrders(cfg, s, Act(cfg, s, t, x).value);
  }

  lemma OthersLeaveSales(cfg: Config, s: State, t: Thread, x: Input)
    requires cfg.Valid() && t != Balance && Act(cfg, s, t, x).Some?
    ensures var u := Act(cfg, s, t, x).value;
      u.b == s.b && u.g.classId == s.g.classId && u.g.price == s.g.price && u.g.weight == s.g.weight &&
      u.h.orders == s.h.orders && u.h.replies == s.h.replies && u.h.samples == s.h.samples
  {
    if t == Display { DisplayLeaves(cfg, s, x); }
  }

  // Lock and unlock calls do not enter or leave the points these facts name.
  lemma AfterKeepsPoints(pc: BalancePc)
    requires BalanceAsks(pc).Claim? || BalanceGives(pc)
    ensures var q := BalanceAfter(pc);
      && Pricing(q) == Pricing(pc) && JustInserted(q) == JustInserted(pc)
      && (q == BLPrice || q == BSetPrice ==> pc == BLPrice)
      && q != BZeroPrice && q != BZeroWeight && q != BUZero
  {
  }

  lemma AfterKeepsWeighed(pc: BalancePc)
    requires BalanceAsks(pc).Claim? || BalanceGives(pc)
    ensures var q := BalanceAfter(pc);
      && (Weighed(q) || q == BLFlag ==> Weighed(pc) || pc == BLFlag)
      && q != BGetPrice && q != BGetClass && q != BCheck && q != BInsert
  {
  }

  lemma AfterKeepsSamples(pc: BalancePc)
    requires BalanceAsks(pc).Claim? || BalanceGives(pc)
    ensures var q := BalanceAfter(pc);
      && (q == BLoop ==> pc == BUSample) && (q == BSetWeight ==> pc == BLSample)
      && q != BUSample && q != BRead && q != BLSample && q != BTest
  {
  }

  lemma PastKeepsSales(cfg: Config, s: State, t: Thread)
    requires SalesInv(cfg, s) && (Asks(s, t).Claim? || Gives(s, t))
    ensures SalesInv(cfg, Past(s, t))
  {
    if t == Balance {
      AfterKeepsPoints(s.b.pc);
      AfterKeepsWeighed(s.b.pc);
      AfterKeepsSamples(s.b.pc);
      NoNewsKeepsOrders(cfg, s, Past(s, t));
    }
  }

  lemma StepKeepsSales(cfg: Config, s: State, t: Thread, x: Input)
    requires cfg.Valid() && SalesInv(cfg, s) && Step(cfg, s, t, x).Some?
    ensures SalesInv(cfg, Step(cfg, s, t, x).value)
  {
    if Asks(s, t).Claim? || Gives(s, t) {
      PastHolds(s, t);
      PastKeepsSales(cfg, s, t);
    } else if t != Balance {
      OthersKeepSales(cfg, s, t, x);
    } else {
      match PartOf(s.b.pc) {
        case Weigh => WeighKeepsSales(cfg, s, x);
        case Deal => DealKeepsSales(cfg, s, x);
        case Picture => PictureKeepsSales(cfg, s, x);
        case Answer => AnswerKeepsSales(cfg, s, x);
      }
    }
  }

  // ------------------------------------------------------ the accept requests

  function One(b: bool): nat {
    if b then 1 else 0
  }

  // The flag was cleared for an order that is not yet inserted or dropped.
  predicate InFlight(pc: BalancePc) {
    pc == BUClear || pc == BGetWeight || pc == BGetPrice || pc == BGetClass || pc == BCheck || pc == BInsert
  }

  ghost predicate LedgerInv(s: State) {
    && s.h.received == |s.h.orders| + s.h.dropped + s.h.coalesced
         + One(s.g.flag) + One(InFlight(s.b.pc)) + One(s.ctl == CLFlag || s.ctl == CSet)
    && (s.b.pc == BUFlag || s.b.pc == BBranch ==> s.b.sawFlag ==> s.g.flag)
    && (s.b.pc == BLClear || s.b.pc == BClear ==> s.g.flag)
  }

  lemma ActKeepsLedger(cfg: Config, s: State, t: Thread, x: Input)
    requires cfg.Valid() && LedgerInv(s) && Act(cfg, s, t, x).Some? && (s.d.pc == DIdle ==> s.ctl == CNone)
    requires !Asks(s, t).Claim? && !Gives(s, t)
    ensures LedgerInv(Act(cfg, s, t, x).value)
  {
    match t
    case Balance =>
      match PartOf(s.b.pc) {
        case Weigh => WeighKeepsLedger(s, x);
        case Deal => DealKeepsLedger(s, x);
        case Picture => PictureKeepsLedger(cfg, s, x);
        case Answer => AnswerKeepsLedger(cfg, s, x);
      }
    case Display => DisplayKeepsLedger(cfg, s, x);
    case Control =>
  }

  // Points at which no accept is on its way.
  predicate Calm(pc: BalancePc) {
    PartOf(pc) != Deal || pc == BLFlag
  }

  ghost predicate SameLedger(s: State, u: State) {
    && u.g.flag == s.g.flag && u.ctl == s.ctl && |u.h.orders| == |s.h.orders|
    && u.h.received == s.h.received && u.h.dropped == s.h.dropped && u.h.coalesced == s.h.coalesced
    && Calm(s.b.pc) && Calm(u.b.pc)
  }

  lemma SameLedgerKeeps(s: State, u: State)
    requires LedgerInv(s) && SameLedger(s, u)
    ensures LedgerInv(u)
  {
  }

  lemma WeighKeepsLedger(s: State, x: Input)
    requires LedgerInv(s) && PartOf(s.b.pc) == Weigh && WeighAct(s, x).Some?
    ensures LedgerInv(WeighAct(s, x).value)
  {
    WeighLeavesLedger(s, x);
    SameLedgerKeeps(s, WeighAct(s, x).value);
  }

  lemma WeighLeavesLedger(s: State, x: Input)
    requires PartOf(s.b.pc) == Weigh && WeighAct(s, x).Some?
    ensures SameLedger(s, WeighAct(s, x).value)
  {
    match s.b.pc
    case BReset => case BLoop => case BRead => case BSetWeight => case BTest => case BZeroClass =>
    case BZeroPrice => case BZeroWeight =>
  }

  // Clearing the flag, dropping and inserting move an accept from one account to
  // the next; the other steps leave the accounts alone.
  predicate Books(pc: BalancePc) {
    pc == BClear || pc == BCheck || pc == BInsert
  }

  lemma DealKeepsLedger(s: State, x: Input)
    requires LedgerInv(s) && PartOf(s.b.pc) == Deal && OrderAct(s, x).Some?
    ensures LedgerInv(OrderAct(s, x).value)
  {
    if Books(s.b.pc) { BookingKeepsLedger(s, x); } else { DealingKeepsLedger(s, x); }
  }

  lemma BookingKeepsLedger(s: State, x: Input)
    requires LedgerInv(s) && Books(s.b.pc) && OrderAct(s, x).Some?
    ensures LedgerInv(OrderAct(s, x).value)
  {
    match s.b.pc
    case BGetFlag => case BBranch => case BClear => case BGetWeight => case BGetPrice =>
    case BGetClass => case BCheck => case BInsert => case BOrderClass =>
  }

  // The accounts and the flag stay; the flag was seen set if the branch is taken.
  ghost predicate Dealt(s: State, u: State) {
    && u.h.orders == s.h.orders && u.h.received == s.h.received && u.h.dropped == s.h.dropped
    && u.h.coalesced == s.h.coalesced && u.g.flag == s.g.flag && u.ctl == s.ctl
    && InFlight(u.b.pc) == InFlight(s.b.pc)
    && (u.b.pc == BUFlag ==> u.b.sawFlag == s.g.flag) && u.b.pc != BBranch
    && (u.b.pc == BLClear || u.b.pc == BClear ==> s.b.pc == BBranch && s.b.sawFlag)
  }

  lemma DealingIsDealt(s: State, x: Input)
    requires !Books(s.b.pc) && OrderAct(s, x).Some?
    ensures Dealt(s, OrderAct(s, x).value)
  {
    match s.b.pc
    case BGetFlag => case BBranch => case BClear => case BGetWeight => case BGetPrice =>
    case BGetClass => case BCheck => case BInsert => case BOrderClass =>
  }

  lemma DealingKeepsLedger(s: State, x: Input)
    requires LedgerInv(s) && !Books(s.b.pc) && OrderAct(s, x).Some?
    ensures LedgerInv(OrderAct(s, x).value)
  {
    DealingIsDealt(s, x);
  }

  lemma PictureKeepsLedger(cfg: Config, s: State, x: Input)
    requires cfg.Valid() && LedgerInv(s) && PartOf(s.b.pc) == Picture && ImageAct(cfg, s, x).Some?
    ensures LedgerInv(ImageAct(cfg, s, x).value)
  {
    PictureIsQuiet(cfg, s, x);
    SameLedgerKeeps(s, ImageAct(cfg, s, x).value);
  }

  lemma AnswerKeepsLedger(cfg: Config, s: State, x: Input)
    requires LedgerInv(s) && PartOf(s.b.pc) == Answer && ReplyAct(cfg, s, x).Some?
    ensures LedgerInv(ReplyAct(cfg, s, x).value)
  {
    AnswerLeavesLedger(cfg, s, x);
    SameLedgerKeeps(s, ReplyAct(cfg, s, x).value);
  }

  lemma AnswerLeavesLedger(cfg: Config, s: State, x: Input)
    requires PartOf(s.b.pc) == Answer && ReplyAct(cfg, s, x).Some?
    ensures SameLedger(s, ReplyAct(cfg, s, x).value)
  {
    match s.b.pc
    case BReceive => case BOffline => case BSetClass => case BQuery => case BSetPrice =>
  }

  lemma DisplayKeepsLedger(cfg: Config, s: State, x: Input)
    requires LedgerInv(s) && DisplayAct(cfg, s, x).Some? && (s.d.pc == DIdle ==> s.ctl == CNone)
    ensures LedgerInv(DisplayAct(cfg, s, x).value)
  {
    DisplayLeaves(cfg, s, x);
  }

  // Lock and unlock calls of the balance thread neither start nor end a delivery.
  lemma AfterKeepsFlight(pc: BalancePc)
    requires BalanceAsks(pc).Claim? || BalanceGives(pc)
    ensures InFlight(BalanceAfter(pc)) == InFlight(pc)
    ensures BalanceAfter(pc) == BBranch ==> pc == BUFlag
    ensures BalanceAfter(pc) == BClear ==> pc == BLClear
    ensures BalanceAfter(pc) != BUFlag && BalanceAfter(pc) != BLClear
  {
  }

  lemma PastKeepsLedger(s: State, t: Thread)
    requires LedgerInv(s) && (Asks(s, t).Claim? || Gives(s, t))
    ensures LedgerInv(Past(s, t))
  {
    if t == Balance { AfterKeepsFlight(s.b.pc); }
  }

  lemma StepKeepsLedger(cfg: Config, s: State, t: Thread, x: Input)
    requires cfg.Valid() && LedgerInv(s) && Step(cfg, s, t, x).Some? && (s.d.pc == DIdle ==> s.ctl == CNone)
    ensures LedgerInv(Step(cfg, s, t, x).value)
  {
    if Asks(s, t).Claim? || Gives(s, t) {
      PastHolds(s, t);
      PastKeepsLedger(s, t);
    } else {
      ActKeepsLedger(cfg, s, t, x);
    }
  }
}
