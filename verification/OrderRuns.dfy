/** The order protocol from start to finish: what holds of every run, under every
    schedule of the three threads and every behaviour of the outside world. */
module OrderRuns {
  import opened Bytes
  import opened Scale
  import opened OrderProtocol
  import opened OrderLocks
  import opened OrderSafety
  import opened OrderFrames

  ghost predicate Inv(cfg: Config, s: State)
    requires cfg.Valid()
  {
    && LocksAgree(s) && SalesInv(cfg, s) && LedgerInv(s) && FrameInv(cfg, s)
  }

  // Any buffer contents and any weight: the source does not set them before the start.
  predicate Starts(cfg: Config, rgb: seq<byte>, resize: seq<byte>) {
    cfg.Valid() && |rgb| == 3 * (cfg.ow * cfg.oh) && |resize| == 3 * (cfg.nw * cfg.nh)
  }

  lemma InitInv(cfg: Config, rgb: seq<byte>, resize: seq<byte>, weight: real)
    requires Starts(cfg, rgb, resize)
    ensures Inv(cfg, Init(rgb, resize, weight))
  {
  }

  lemma StepInv(cfg: Config, s: State, t: Thread, x: Input)
    requires cfg.Valid() && Inv(cfg, s) && Step(cfg, s, t, x).Some?
    ensures Inv(cfg, Step(cfg, s, t, x).value)
  {
    StepKeepsAgreement(cfg, s, t, x);
    StepKeepsSales(cfg, s, t, x);
    StepKeepsLedger(cfg, s, t, x);
    StepKeepsFrames(cfg, s, t, x);
  }

  lemma {:induction false} RunInv(cfg: Config, s: State, events: seq<Event>)
    requires cfg.Valid() && Inv(cfg, s)
    ensures Inv(cfg, Run(cfg, s, events))
    decreases |events|
  {
    if events != [] {
      var e := events[0];
      if Step(cfg, s, e.thread, e.input).Some? {
        StepInv(cfg, s, e.thread, e.input);
        RunInv(cfg, Step(cfg, s, e.thread, e.input).value, events[1..]);
      } else {
        RunInv(cfg, s, events[1..]);
      }
    }
  }

  ghost predicate Reachable(cfg: Config, s: State)
    requires cfg.Valid()
  {
    exists rgb: seq<byte>, resize: seq<byte>, weight: real, events: seq<Event> ::
      ReachedBy(cfg, rgb, resize, weight, events, s)
  }

  ghost predicate ReachedBy(cfg: Config, rgb: seq<byte>, resize: seq<byte>, weight: real, events: seq<Event>, s: State)
    requires cfg.Valid()
  {
    Starts(cfg, rgb, resize) && s == Run(cfg, Init(rgb, resize, weight), events)
  }

  lemma ReachableInv(cfg: Config, s: State)
    requires cfg.Valid() && Reachable(cfg, s)
    ensures Inv(cfg, s)
  {
    var rgb: seq<byte>, resize: seq<byte>, weight: real, events: seq<Event> :|
      ReachedBy(cfg, rgb, resize, weight, events, s);
    InitInv(cfg, rgb, resize, weight);
    RunInv(cfg, Init(rgb, resize, weight), events);
  }

  // Every order has a class, more than the least weight, and the table's price for
  // that class; its class is a classifier's reply, and no two orders use the same one;
  // its weight is one the scale gave, or the initial one (the first of the samples).
  lemma OrdersAreSound(cfg: Config, s: State)
    requires cfg.Valid() && Reachable(cfg, s)
    ensures forall i :: 0 <= i < |s.h.orders| ==>
      var o := s.h.orders[i];
      && o.classId != 255 && o.weight > 0.005
      && o.classId in cfg.table && o.price == cfg.table[o.classId]
      && 1 <= o.reply <= |s.h.replies| && o.classId == s.h.replies[o.reply - 1]
      && 1 <= o.sample <= |s.h.samples| && o.weight == s.h.samples[o.sample - 1]
    ensures forall i, j :: 0 <= i < j < |s.h.orders| ==> s.h.orders[i].reply < s.h.orders[j].reply
    ensures |s.h.orders| <= |s.h.replies|
  {
    ReachableInv(cfg, s);
    forall i | 0 <= i < |s.h.orders| ensures OrderOk(cfg, s.h, s.h.orders[i]) { }
    OrdersFit(s.h.orders, |s.h.replies|);
  }

  lemma {:induction false} OrdersFit(orders: seq<Order>, n: nat)
    requires forall i :: 0 <= i < |orders| ==> 1 <= orders[i].reply <= n
    requires forall i, j :: 0 <= i < j < |orders| ==> orders[i].reply < orders[j].reply
    ensures |orders| <= n
  {
    if orders != [] {
      var last := |orders| - 1;
      OrdersFit(orders[..last], orders[last].reply - 1);
    }
  }

  // Each pass stores ten samples before it tests the weight, fewer only when the scale
  // has none; and when a light load resets the order data, it resets all of it before
  // anybody else can look.
  lemma PassesAreSound(cfg: Config, s: State)
    requires cfg.Valid() && Reachable(cfg, s)
    ensures s.b.pc == BTest ==> s.b.taken == 10 || s.b.taken + s.b.delay == 9
    ensures s.b.pc == BUZero ==> s.g.classId == NO_CLASS && s.g.price == 0.0 && s.g.weight == 0.0
    ensures s.b.pc == BUZero ==> forall t :: t != Balance ==> !Holds(s, t).Claim? || Holds(s, t).name != WeightLock
  {
    ReachableInv(cfg, s);
    if s.b.pc == BUZero {
      forall t | t != Balance ensures !Holds(s, t).Claim? || Holds(s, t).name != WeightLock {
        WriterIsAlone(s, Balance, t, WeightLock);
      }
    }
  }

  // Where every accept request is, at any moment: ordered, dropped for want of a
  // class, merged into one not yet taken, waiting in the flag, taken and about to be
  // ordered or dropped, or in the control thread's hands.
  lemma AcceptLedger(cfg: Config, s: State)
    requires cfg.Valid() && Reachable(cfg, s)
    ensures s.h.received == |s.h.orders| + s.h.dropped + s.h.coalesced
      + One(s.g.flag) + One(InFlight(s.b.pc)) + One(s.ctl == CLFlag || s.ctl == CSet)
    ensures |s.h.orders| <= s.h.received
  {
    ReachableInv(cfg, s);
  }

  // Each image sent is a prefix of one whole frame scaled (all of it unless the write
  // was short), and the frames do not go backwards.
  lemma ImagesAreWhole(cfg: Config, s: State)
    requires cfg.Valid() && Reachable(cfg, s)
    ensures FramesWhole(cfg, s.h.frames)
    ensures forall i :: 0 <= i < |s.h.sent| ==>
      var x := s.h.sent[i];
      && x.frame < |s.h.frames|
      && x.bytes <= Scaled(s.h.frames[x.frame], cfg.ow, cfg.oh, cfg.nw, cfg.nh)
      && (|x.bytes| == 3 * (cfg.nw * cfg.nh) ==> x.bytes == Scaled(s.h.frames[x.frame], cfg.ow, cfg.oh, cfg.nw, cfg.nh))
    ensures forall i, j :: 0 <= i < j < |s.h.sent| ==> s.h.sent[i].frame <= s.h.sent[j].frame
  {
    ReachableInv(cfg, s);
    forall i | 0 <= i < |s.h.sent| ensures SentOk(cfg, s.h.frames, s.h.sent[i]) { }
  }

  // A writer excludes every other holder of its lock, and no live state is a deadlock:
  // whoever cannot step waits for a thread that can, or for the outside world.
  lemma LocksAreSafe(cfg: Config, s: State)
    requires cfg.Valid() && Reachable(cfg, s)
    ensures forall t, v, n :: t != v && Holds(s, t) == Claim(n, true) ==> Holds(s, v) != Claim(n, true) && Holds(s, v) != Claim(n, false)
    ensures s.live ==> forall t :: CanStep(cfg, s, t) || Resting(s, t) || WaitsForRunner(cfg, s, t)
    ensures s.live ==> exists t :: CanStep(cfg, s, t)
  {
    ReachableInv(cfg, s);
    forall t, v, n | t != v && Holds(s, t) == Claim(n, true)
      ensures Holds(s, v) != Claim(n, true) && Holds(s, v) != Claim(n, false) {
      WriterIsAlone(s, t, v, n);
    }
    if s.live { NoDeadlock(cfg, s); }
  }
}
