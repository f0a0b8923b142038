/** The way through the threads' loops, counted over whole runs: what each weighing,
    each frame and each snapshot leads to, and where the threads end. */
module OrderFlow {
  import opened Bytes
  import opened OrderProtocol
  import opened OrderLocks
  import opened OrderSafety
  import opened OrderDecisions

  // ---------------------------------------------------- the balance thread

  // A weight above the limit is found.
  predicate FindsLoad(s: State, t: Thread, x: Input) {
    t == Balance && s.b.pc == BTest && s.g.weight > 0.005
  }

  predicate Serving(pc: BalancePc) {
    match PartOf(pc)
    case Deal => true
    case Picture => true
    case _ => false
  }

  predicate Served(s: State, loads: nat) {
    loads == s.h.dropped + |s.h.sent| + One(Serving(s.b.pc))
  }

  predicate KeepsServing(s: State, u: State) {
    Serving(u.b.pc) == Serving(s.b.pc) && u.h.dropped == s.h.dropped && |u.h.sent| == |s.h.sent|
  }

  lemma WeighServes(s: State, x: Input, loads: nat)
    requires WeighAct(s, x).Some? && Served(s, loads)
    ensures Served(WeighAct(s, x).value, loads + One(FindsLoad(s, Balance, x)))
  {
    match s.b.pc
    case BReset => case BLoop => case BRead => case BSetWeight => case BTest =>
    case BZeroClass => case BZeroPrice => case BZeroWeight =>
  }

  lemma DealServes(s: State, x: Input, loads: nat)
    requires OrderAct(s, x).Some? && Served(s, loads)
    ensures Served(OrderAct(s, x).value, loads)
  {
    match s.b.pc
    case BGetFlag => case BBranch => case BClear => case BGetWeight => case BGetPrice => case BGetClass => case BCheck =>
    case BInsert => case BOrderClass =>
  }

  lemma PictureServes(cfg: Config, s: State, x: Input, loads: nat)
    requires cfg.Valid() && ImageAct(cfg, s, x).Some? && Served(s, loads)
    ensures Served(ImageAct(cfg, s, x).value, loads)
  {
    match s.b.pc
    case BPack => case BSendHead => case BStart => case BScale => case BSendImage =>
  }

  lemma AnswerServes(cfg: Config, s: State, x: Input)
    requires ReplyAct(cfg, s, x).Some?
    ensures KeepsServing(s, ReplyAct(cfg, s, x).value)
  {
    match s.b.pc
    case BReceive => case BOffline => case BSetClass => case BQuery => case BSetPrice =>
  }

  lemma AfterKeepsServing(pc: BalancePc)
    requires BalanceAsks(pc).Claim? || BalanceGives(pc)
    ensures Serving(BalanceAfter(pc)) == Serving(pc) && pc != BTest
  {
  }

  lemma StepServes(cfg: Config, s: State, t: Thread, x: Input, loads: nat)
    requires cfg.Valid() && Served(s, loads) && Step(cfg, s, t, x).Some?
    ensures Served(Step(cfg, s, t, x).value, loads + One(FindsLoad(s, t, x)))
  {
    if Asks(s, t).Claim? || Gives(s, t) {
      PastHolds(s, t);
      if t == Balance { AfterKeepsServing(s.b.pc); }
    } else {
      match t
      case Balance =>
        match PartOf(s.b.pc) {
          case Weigh => WeighServes(s, x, loads);
          case Deal => DealServes(s, x, loads);
          case Picture => PictureServes(cfg, s, x, loads);
          case Answer => AnswerServes(cfg, s, x);
        }
      case Display => DisplayLeaves(cfg, s, x);
      case Control =>
    }
  }

  lemma {:induction false} RunServes(cfg: Config, s: State, events: seq<Event>, loads: nat)
    requires cfg.Valid() && Served(s, loads)
    ensures Served(Run(cfg, s, events), loads + Count(cfg, s, events, FindsLoad))
    decreases |events|
  {
    if events != [] {
      var e := events[0];
      if Step(cfg, s, e.thread, e.input).Some? {
        StepServes(cfg, s, e.thread, e.input, loads);
        RunServes(cfg, Step(cfg, s, e.thread, e.input).value, events[1..], loads + One(FindsLoad(s, e.thread, e.input)));
      } else {
        RunServes(cfg, s, events[1..], loads);
      }
    }
  }

  // ---------------------------------------------------- the display thread

  // An encoding fails.
  predicate FailsToEncode(s: State, t: Thread, x: Input) {
    t == Display && s.d.pc == DEncode && x == Fault
  }

  // From the complete frame to the message.
  predicate Showing(pc: DisplayPc) {
    match pc
    case DUImage | DEncode | DLSnapshot | DGetWeight | DGetPrice | DGetClass | DUSnapshot | DName
       | DShow | DShowWeight | DShowPrice => true
    case _ => false
  }

  predicate FramesShown(s: State, failures: nat) {
    |s.h.frames| == 1 + |s.h.messages| + failures + One(Showing(s.d.pc))
  }

  lemma CaptureShows(s: State, x: Input, failures: nat)
    requires CaptureAct(s, x).Some? && FramesShown(s, failures)
    ensures FramesShown(CaptureAct(s, x).value, failures + One(FailsToEncode(s, Display, x)))
  {
    match s.d.pc
    case DIdle => case DCapture => case DCopy => case DEncode => case DJoin =>
  }

  lemma ShowShows(cfg: Config, s: State, x: Input, failures: nat)
    requires ShowAct(cfg, s, x).Some? && FramesShown(s, failures)
    ensures FramesShown(ShowAct(cfg, s, x).value, failures)
  {
    match s.d.pc
    case DGetWeight => case DGetPrice => case DGetClass => case DName => case DShow =>
    case DShowWeight => case DShowPrice => case DSend =>
  }

  predicate SameShows(s: State, u: State) {
    u.d == s.d && u.h.frames == s.h.frames && u.h.messages == s.h.messages
  }

  lemma BalanceShowsNothing(cfg: Config, s: State, x: Input)
    requires cfg.Valid() && BalanceAct(cfg, s, x).Some?
    ensures SameShows(s, BalanceAct(cfg, s, x).value)
  {
    match PartOf(s.b.pc)
    case Weigh => WeighShowsNothing(s, x);
    case Deal => DealShowsNothing(s, x);
    case Picture => PictureShowsNothing(cfg, s, x);
    case Answer => AnswerShowsNothing(cfg, s, x);
  }

  lemma WeighShowsNothing(s: State, x: Input)
    requires WeighAct(s, x).Some?
    ensures SameShows(s, WeighAct(s, x).value)
  {
  }

  lemma DealShowsNothing(s: State, x: Input)
    requires OrderAct(s, x).Some?
    ensures SameShows(s, OrderAct(s, x).value)
  {
  }

  lemma PictureShowsNothing(cfg: Config, s: State, x: Input)
    requires cfg.Valid() && ImageAct(cfg, s, x).Some?
    ensures SameShows(s, ImageAct(cfg, s, x).value)
  {
  }

  lemma AnswerShowsNothing(cfg: Config, s: State, x: Input)
    requires ReplyAct(cfg, s, x).Some?
    ensures SameShows(s, ReplyAct(cfg, s, x).value)
  {
  }

  lemma StepShows(cfg: Config, s: State, t: Thread, x: Input, failures: nat)
    requires cfg.Valid() && FramesShown(s, failures) && Step(cfg, s, t, x).Some?
    ensures FramesShown(Step(cfg, s, t, x).value, failures + One(FailsToEncode(s, t, x)))
  {
    if Asks(s, t).Claim? || Gives(s, t) {
      PastHolds(s, t);
    } else {
      match t
      case Balance => BalanceShowsNothing(cfg, s, x);
      case Display => if CaptureAct(s, x).Some? { CaptureShows(s, x, failures); } else { ShowShows(cfg, s, x, failures); }
      case Control =>
    }
  }

  lemma {:induction false} RunShows(cfg: Config, s: State, events: seq<Event>, failures: nat)
    requires cfg.Valid() && FramesShown(s, failures)
    ensures FramesShown(Run(cfg, s, events), failures + Count(cfg, s, events, FailsToEncode))
    decreases |events|
  {
    if events != [] {
      var e := events[0];
      if Step(cfg, s, e.thread, e.input).Some? {
        StepShows(cfg, s, e.thread, e.input, failures);
        RunShows(cfg, Step(cfg, s, e.thread, e.input).value, events[1..], failures + One(FailsToEncode(s, e.thread, e.input)));
      } else {
        RunShows(cfg, s, events[1..], failures);
      }
    }
  }

  // In every run each load found leads to one image sent, or to a dropped request, but
  // for the one being served; and each complete frame leads to one message, or to an
  // encoding that failed, but for the one being shown.
  lemma NothingIsPassedOver(cfg: Config, rgb: seq<byte>, resize: seq<byte>, weight: real, events: seq<Event>)
    requires cfg.Valid()
    ensures var s0 := Init(rgb, resize, weight);
      var s := Run(cfg, s0, events);
      && Count(cfg, s0, events, FindsLoad) == s.h.dropped + |s.h.sent| + One(Serving(s.b.pc))
      && |s.h.frames| == 1 + |s.h.messages| + Count(cfg, s0, events, FailsToEncode) + One(Showing(s.d.pc))
  {
    RunServes(cfg, Init(rgb, resize, weight), events, 0);
    RunShows(cfg, Init(rgb, resize, weight), events, 0);
  }

  // ------------------------------------------------------ how threads end

  // A fault of the scale, the classifier's connection, the database or the browser's
  // connection ends the process; a failed encoding ends the connection's loop, which
  // waits for the control thread; that ends when its connection is gone.
  lemma FaultsEnd(cfg: Config, s: State)
    requires cfg.Valid() && s.live
    ensures s.b.pc in {BRead, BInsert, BSendHead, BSendImage, BReceive, BQuery} ==> Ends(cfg, s, Balance, Fault)
    ensures s.d.pc == DCapture || s.d.pc == DSend || (s.d.pc == DName && s.d.classId != 255) ==> Ends(cfg, s, Display, Fault)
    ensures s.ctl == CRead ==> Ends(cfg, s, Control, Fault)
    ensures s.d.pc == DEncode ==> Step(cfg, s, Display, Fault) == Some(s.(d := s.d.(pc := DJoin)))
    ensures s.ctl == CRead ==> Step(cfg, s, Control, Gone) == Some(s.(ctl := CDone))
    ensures s.d.pc == DJoin ==>
      Step(cfg, s, Display, Ok) == if s.ctl == CDone then Some(s.(d := s.d.(pc := DIdle), ctl := CNone)) else None
    ensures s.d.pc == DIdle ==> Step(cfg, s, Display, Connect) == Some(s.(d := s.d.(pc := DLImage), ctl := CRead))
  {
  }

  predicate Ends(cfg: Config, s: State, t: Thread, x: Input)
    requires cfg.Valid()
  {
    Step(cfg, s, t, x) == Some(s.(live := false))
  }

  // A read of the scale that would block is tried again and does not count; one without
  // content ends the samples of this pass.
  lemma EmptyReads(cfg: Config, s: State)
    requires cfg.Valid() && s.live && s.b.pc == BRead
    ensures Step(cfg, s, Balance, Again) == Some(s.(b := s.b.(pc := BLoop, delay := s.b.delay + 1)))
    ensures Step(cfg, s, Balance, NoSample) == Some(s.(b := s.b.(pc := BTest)))
  {
  }

  // A class without a row ends the process in either thread that looks it up.
  lemma MissingRowEnds(cfg: Config, s: State)
    requires cfg.Valid() && s.live
    ensures s.b.pc == BQuery ==> (Ends(cfg, s, Balance, Ok) <==> s.g.classId !in cfg.table)
    ensures s.d.pc == DName ==> (Ends(cfg, s, Display, Ok) <==> s.d.classId != 255 && s.d.classId !in cfg.table)
  {
  }

  // The conversion of a float to an int drops the fraction.
  lemma TruncDropsFraction(x: real)
    ensures 0.0 <= x ==> 0.0 <= Trunc(x) as real <= x < Trunc(x) as real + 1.0
    ensures x <= 0.0 ==> Trunc(x) as real - 1.0 < x <= Trunc(x) as real <= 0.0
  {
  }
}
