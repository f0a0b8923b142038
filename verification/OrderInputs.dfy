/** What the world gave in a run, read off its events alone, and that the logs of the
    order protocol hold exactly that. */
module OrderInputs {
  import opened Bytes
  import opened OrderProtocol
  import opened OrderLocks
  import opened OrderRuns

  // Camera frames, scale samples in kilograms, reply types, how far image writes got,
  // and accept requests.
  datatype Inputs = Inputs(images: seq<seq<byte>>, kgs: seq<real>, types: seq<nat>, writes: seq<nat>, requests: nat)

  const NOTHING: Inputs := Inputs([], [], [], [], 0)

  function Join(a: Inputs, b: Inputs): Inputs {
    Inputs(a.images + b.images, a.kgs + b.kgs, a.types + b.types, a.writes + b.writes, a.requests + b.requests)
  }

  // What a thread at the point of an input call is given by an event. The type is the
  // reply's second byte; a reply of one byte leaves the type 1 that was sent.
  function Given(s: State, t: Thread, x: Input): Inputs {
    if t == Display && s.d.pc == DCapture && x.Camera? then NOTHING.(images := [x.img])
    else if t == Balance && s.b.pc == BRead && x.Sample? then NOTHING.(kgs := [x.kg])
    else if t == Balance && s.b.pc == BReceive && x.Reply? && x.n > 0 then
      NOTHING.(types := [if x.n == 1 then 1 else x.cls % 256])
    else if t == Balance && s.b.pc == BSendImage && x.Wrote? then NOTHING.(writes := [x.n])
    else if t == Control && s.ctl == CRead && x == Request then NOTHING.(requests := 1)
    else NOTHING
  }

  // ... and in a run; events that are not possible give nothing.
  function Taken(cfg: Config, s: State, events: seq<Event>): Inputs
    requires cfg.Valid()
    decreases |events|
  {
    if events == [] then NOTHING else
      match Step(cfg, s, events[0].thread, events[0].input)
      case None => Taken(cfg, s, events[1..])
      case Some(u) => Join(Given(s, events[0].thread, events[0].input), Taken(cfg, u, events[1..]))
  }

  // All of q, or all but the last if that one is still being stored.
  function Stored<T>(q: seq<T>, open: bool): seq<T> {
    if open && q != [] then q[..|q| - 1] else q
  }

  predicate IsLast<T(==)>(q: seq<T>, v: T) {
    q != [] && q[|q| - 1] == v
  }

  predicate Sampling(pc: BalancePc) {
    match pc
    case BLSample | BSetWeight => true
    case _ => false
  }

  predicate Replying(pc: BalancePc) {
    match pc
    case BLReply | BSetClass => true
    case _ => false
  }

  // The packet's type is the one sent.
  predicate Packed(pc: BalancePc) {
    match pc
    case BSendHead | BLImage | BStart | BScale | BUImage | BSendImage | BReceive => true
    case _ => false
  }

  predicate FramesLogged(frames: seq<seq<byte>>, d: Displaying, rgb: seq<byte>, images: seq<seq<byte>>) {
    && frames == [rgb] + Stored(images, d.pc == DCopy)
    && (d.pc == DCopy ==> IsLast(images, d.frame))
  }

  predicate SamplesLogged(samples: seq<real>, b: Balancing, weight: real, kgs: seq<real>) {
    && samples == [weight] + Stored(kgs, Sampling(b.pc))
    && (Sampling(b.pc) ==> IsLast(kgs, b.tmp))
  }

  predicate RepliesLogged(replies: seq<nat>, b: Balancing, types: seq<nat>) {
    && replies == Stored(types, Replying(b.pc))
    && (Replying(b.pc) ==> IsLast(types, b.packType))
    && (Packed(b.pc) ==> b.packType == 1)
  }

  predicate SentLogged(sent: seq<Sent>, writes: seq<nat>) {
    |sent| == |writes| && forall i :: 0 <= i < |sent| ==> |sent[i].bytes| == writes[i]
  }

  predicate Logged(s: State, rgb: seq<byte>, weight: real, given: Inputs) {
    && FramesLogged(s.h.frames, s.d, rgb, given.images)
    && SamplesLogged(s.h.samples, s.b, weight, given.kgs)
    && RepliesLogged(s.h.replies, s.b, given.types)
    && SentLogged(s.h.sent, given.writes)
    && s.h.received == given.requests
  }

  lemma JoinNothing(a: Inputs)
    ensures Join(a, NOTHING) == a && Join(NOTHING, a) == a
  {
  }

  lemma JoinJoin(a: Inputs, b: Inputs, c: Inputs)
    ensures Join(Join(a, b), c) == Join(a, Join(b, c))
  {
  }

  // ------------------------------------------------------ the balance thread

  predicate LeavesFrames(s: State, u: State) {
    u.d == s.d && u.h.frames == s.h.frames && u.h.received == s.h.received
  }

  predicate LeavesReplies(s: State, u: State) {
    u.h.replies == s.h.replies && !Replying(s.b.pc) && !Replying(u.b.pc)
  }

  predicate LeavesSamples(s: State, u: State) {
    u.h.samples == s.h.samples && !Sampling(s.b.pc) && !Sampling(u.b.pc)
  }

  lemma WeighLeaves(s: State, x: Input)
    requires WeighAct(s, x).Some?
    ensures var u := WeighAct(s, x).value;
      LeavesFrames(s, u) && LeavesReplies(s, u) && u.h.sent == s.h.sent && !Packed(u.b.pc)
  {
    match s.b.pc
    case BReset => case BLoop => case BRead => case BSetWeight => case BTest =>
    case BZeroClass => case BZeroPrice => case BZeroWeight =>
  }

  lemma WeighLogs(s: State, x: Input, weight: real, kgs: seq<real>)
    requires WeighAct(s, x).Some? && SamplesLogged(s.h.samples, s.b, weight, kgs)
    ensures var u := WeighAct(s, x).value; SamplesLogged(u.h.samples, u.b, weight, kgs + Given(s, Balance, x).kgs)
  {
    var u := WeighAct(s, x).value;
    if s.b.pc == BSetWeight {
      assert kgs == kgs[..|kgs| - 1] + [s.b.tmp];
      assert [weight] + kgs[..|kgs| - 1] + [s.b.tmp] == [weight] + (kgs[..|kgs| - 1] + [s.b.tmp]);
    } else if s.b.pc == BRead && x.Sample? {
      assert (kgs + [x.kg])[..|kgs|] == kgs;
    } else {
      WeighLeavesSamples(s, x);
    }
    assert kgs + [] == kgs;
  }

  lemma WeighLeavesSamples(s: State, x: Input)
    requires WeighAct(s, x).Some? && s.b.pc != BSetWeight && !(s.b.pc == BRead && x.Sample?)
    ensures LeavesSamples(s, WeighAct(s, x).value)
  {
    match s.b.pc
    case BReset => case BLoop => case BRead => case BTest =>
    case BZeroClass => case BZeroPrice => case BZeroWeight =>
  }

  lemma DealLeaves(s: State, x: Input)
    requires OrderAct(s, x).Some?
    ensures var u := OrderAct(s, x).value;
      LeavesFrames(s, u) && LeavesReplies(s, u) && LeavesSamples(s, u) && u.h.sent == s.h.sent && !Packed(u.b.pc)
  {
    match s.b.pc
    case BGetFlag => case BBranch => case BClear => case BGetWeight => case BGetPrice => case BGetClass => case BCheck =>
    case BInsert => case BOrderClass =>
  }

  lemma PictureLeaves(cfg: Config, s: State, x: Input)
    requires cfg.Valid() && ImageAct(cfg, s, x).Some? && (Packed(s.b.pc) ==> s.b.packType == 1)
    ensures var u := ImageAct(cfg, s, x).value;
      LeavesFrames(s, u) && LeavesReplies(s, u) && LeavesSamples(s, u) && (Packed(u.b.pc) ==> u.b.packType == 1)
  {
    match s.b.pc
    case BPack => case BSendHead => case BStart => case BScale => case BSendImage =>
  }

  lemma PictureLogs(cfg: Config, s: State, x: Input, writes: seq<nat>)
    requires cfg.Valid() && ImageAct(cfg, s, x).Some? && SentLogged(s.h.sent, writes)
    ensures SentLogged(ImageAct(cfg, s, x).value.h.sent, writes + Given(s, Balance, x).writes)
  {
    match s.b.pc
    case BPack => case BSendHead => case BStart => case BScale => case BSendImage =>
  }

  lemma AnswerLeaves(cfg: Config, s: State, x: Input)
    requires ReplyAct(cfg, s, x).Some?
    ensures var u := ReplyAct(cfg, s, x).value;
      LeavesFrames(s, u) && LeavesSamples(s, u) && u.h.sent == s.h.sent
  {
    match s.b.pc
    case BReceive => case BOffline => case BSetClass => case BQuery => case BSetPrice =>
  }

  lemma StoredLast(q: seq<nat>, v: nat)
    requires IsLast(q, v)
    ensures Stored(q, true) + [v] == q
  {
  }

  lemma StoredMore(q: seq<nat>, v: nat)
    ensures Stored(q + [v], true) == q && IsLast(q + [v], v)
  {
  }

  lemma SetClassLogs(cfg: Config, s: State, x: Input, types: seq<nat>)
    requires s.b.pc == BSetClass && ReplyAct(cfg, s, x).Some? && RepliesLogged(s.h.replies, s.b, types)
    ensures var u := ReplyAct(cfg, s, x).value; RepliesLogged(u.h.replies, u.b, types)
  {
    StoredLast(types, s.b.packType);
  }

  lemma ReceiveLogs(cfg: Config, s: State, x: Input, types: seq<nat>, v: nat)
    requires s.b.pc == BReceive && x.Reply? && x.n > 0 && v == (if x.n == 1 then 1 else x.cls % 256)
    requires ReplyAct(cfg, s, x).Some? && RepliesLogged(s.h.replies, s.b, types)
    ensures var u := ReplyAct(cfg, s, x).value; RepliesLogged(u.h.replies, u.b, types + [v])
  {
    StoredMore(types, v);
  }

  lemma AnswerLogs(cfg: Config, s: State, x: Input, types: seq<nat>)
    requires ReplyAct(cfg, s, x).Some? && RepliesLogged(s.h.replies, s.b, types)
    ensures var u := ReplyAct(cfg, s, x).value; RepliesLogged(u.h.replies, u.b, types + Given(s, Balance, x).types)
  {
    assert types + [] == types;
    if s.b.pc == BSetClass {
      SetClassLogs(cfg, s, x, types);
    } else if s.b.pc == BReceive && x.Reply? && x.n > 0 {
      ReceiveLogs(cfg, s, x, types, if x.n == 1 then 1 else x.cls % 256);
    } else {
      AnswerLeavesReplies(cfg, s, x);
    }
  }

  lemma AnswerLeavesReplies(cfg: Config, s: State, x: Input)
    requires ReplyAct(cfg, s, x).Some? && s.b.pc != BSetClass && !(s.b.pc == BReceive && x.Reply? && x.n > 0)
    ensures var u := ReplyAct(cfg, s, x).value; LeavesReplies(s, u) && (Packed(u.b.pc) ==> u == s.(live := u.live))
  {
    match s.b.pc
    case BReceive => case BOffline => case BQuery => case BSetPrice =>
  }

  lemma BalanceLogs(cfg: Config, s: State, x: Input, rgb: seq<byte>, weight: real, given: Inputs)
    requires cfg.Valid() && Logged(s, rgb, weight, given) && BalanceAct(cfg, s, x).Some?
    ensures Logged(BalanceAct(cfg, s, x).value, rgb, weight, Join(given, Given(s, Balance, x)))
  {
    JoinNothing(given);
    match PartOf(s.b.pc)
    case Weigh => WeighLeaves(s, x); WeighLogs(s, x, weight, given.kgs);
    case Deal => DealLeaves(s, x);
    case Picture => PictureLeaves(cfg, s, x); PictureLogs(cfg, s, x, given.writes);
    case Answer => AnswerLeaves(cfg, s, x); AnswerLogs(cfg, s, x, given.types);
  }

  // ------------------------------------------------------- the other threads

  lemma CopyLogs(s: State, x: Input, rgb: seq<byte>, images: seq<seq<byte>>)
    requires FramesLogged(s.h.frames, s.d, rgb, images) && CaptureAct(s, x).Some?
    ensures var u := CaptureAct(s, x).value; FramesLogged(u.h.frames, u.d, rgb, images + Given(s, Display, x).images)
  {
    if s.d.pc == DCopy {
      assert images == images[..|images| - 1] + [s.d.frame];
      assert [rgb] + images[..|images| - 1] + [s.d.frame] == [rgb] + (images[..|images| - 1] + [s.d.frame]);
    } else if s.d.pc == DCapture && x.Camera? {
      assert (images + [x.img])[..|images|] == images;
    }
    assert images + [] == images;
  }

  lemma ShowLeavesFrames(cfg: Config, s: State, x: Input)
    requires ShowAct(cfg, s, x).Some?
    ensures var u := ShowAct(cfg, s, x).value; s.d.pc != DCopy && u.d.pc != DCopy && u.h.frames == s.h.frames
  {
    match s.d.pc
    case DGetWeight => case DGetPrice => case DGetClass => case DName => case DShow =>
    case DShowWeight => case DShowPrice => case DSend =>
  }

  lemma DisplayLogs(cfg: Config, s: State, x: Input, rgb: seq<byte>, weight: real, given: Inputs)
    requires Logged(s, rgb, weight, given) && DisplayAct(cfg, s, x).Some?
    ensures Logged(DisplayAct(cfg, s, x).value, rgb, weight, Join(given, Given(s, Display, x)))
  {
    JoinNothing(given);
    DisplayLeaves(cfg, s, x);
    if CaptureAct(s, x).Some? { CopyLogs(s, x, rgb, given.images); } else { ShowLeavesFrames(cfg, s, x); }
  }

  lemma ControlLogs(s: State, x: Input, rgb: seq<byte>, weight: real, given: Inputs)
    requires Logged(s, rgb, weight, given) && ControlAct(s, x).Some?
    ensures Logged(ControlAct(s, x).value, rgb, weight, Join(given, Given(s, Control, x)))
  {
    JoinNothing(given);
  }

  lemma AfterKeepsLogs(pc: BalancePc)
    requires BalanceAsks(pc).Claim? || BalanceGives(pc)
    ensures var q := BalanceAfter(pc);
      && Sampling(q) == Sampling(pc) && Replying(q) == Replying(pc) && (Packed(q) ==> Packed(pc))
      && pc != BRead && pc != BReceive && pc != BSendImage
  {
  }

  lemma PastLogs(s: State, t: Thread, x: Input, rgb: seq<byte>, weight: real, given: Inputs)
    requires Logged(s, rgb, weight, given) && (Asks(s, t).Claim? || Gives(s, t))
    ensures Logged(Past(s, t), rgb, weight, given) && Given(s, t, x) == NOTHING
  {
    if t == Balance { AfterKeepsLogs(s.b.pc); }
  }

  lemma StepLogs(cfg: Config, s: State, t: Thread, x: Input, rgb: seq<byte>, weight: real, given: Inputs)
    requires cfg.Valid() && Logged(s, rgb, weight, given) && Step(cfg, s, t, x).Some?
    ensures Logged(Step(cfg, s, t, x).value, rgb, weight, Join(given, Given(s, t, x)))
  {
    if Asks(s, t).Claim? || Gives(s, t) {
      PastHolds(s, t);
      PastLogs(s, t, x, rgb, weight, given);
      JoinNothing(given);
    } else {
      match t
      case Balance => BalanceLogs(cfg, s, x, rgb, weight, given);
      case Display => DisplayLogs(cfg, s, x, rgb, weight, given);
      case Control => ControlLogs(s, x, rgb, weight, given);
    }
  }

  lemma {:induction false} RunLogs(cfg: Config, s: State, events: seq<Event>, rgb: seq<byte>, weight: real, given: Inputs)
    requires cfg.Valid() && Logged(s, rgb, weight, given)
    ensures Logged(Run(cfg, s, events), rgb, weight, Join(given, Taken(cfg, s, events)))
    decreases |events|
  {
    if events == [] {
      JoinNothing(given);
    } else {
      var e := events[0];
      if Step(cfg, s, e.thread, e.input).Some? {
        var u, g := Step(cfg, s, e.thread, e.input).value, Given(s, e.thread, e.input);
        StepLogs(cfg, s, e.thread, e.input, rgb, weight, given);
        RunLogs(cfg, u, events[1..], rgb, weight, Join(given, g));
        JoinJoin(given, g, Taken(cfg, u, events[1..]));
      } else {
        RunLogs(cfg, s, events[1..], rgb, weight, given);
      }
    }
  }

  // In every run the complete frames are the initial buffer and the camera's images,
  // in order, except for one that is still being copied; the weights stored are the
  // initial one and the scale's samples, the replies are the types the classifier
  // sent, each image sent is as long as the write was, and the accepts received are the
  // requests.
  lemma LogsAreInputs(cfg: Config, rgb: seq<byte>, resize: seq<byte>, weight: real, events: seq<Event>)
    requires Starts(cfg, rgb, resize)
    ensures var s0 := Init(rgb, resize, weight);
      var s, given := Run(cfg, s0, events), Taken(cfg, s0, events);
      && s.h.frames == [rgb] + Stored(given.images, s.d.pc == DCopy)
      && s.h.samples == [weight] + Stored(given.kgs, Sampling(s.b.pc))
      && s.h.replies == Stored(given.types, Replying(s.b.pc))
      && |s.h.sent| == |given.writes| && (forall i :: 0 <= i < |s.h.sent| ==> |s.h.sent[i].bytes| == given.writes[i])
      && s.h.received == given.requests
  {
    var s0 := Init(rgb, resize, weight);
    RunLogs(cfg, s0, events, rgb, weight, NOTHING);
    JoinNothing(Taken(cfg, s0, events));
  }
}
