/** The lock discipline of the order protocol: in every reachable state a writer is
    alone, each thread holds at most one lock, and some thread can go on. */
module OrderLocks {
  import opened Scale
  import opened OrderProtocol

  // Each lock says exactly what the program points of the threads say.
  ghost predicate AgreeOn(s: State, t: Thread, n: LockName) {
    && (s.locks.Get(n).writer == Some(t) <==> Holds(s, t) == Claim(n, true))
    && (t in s.locks.Get(n).readers <==> Holds(s, t) == Claim(n, false))
  }

  ghost predicate LocksAgree(s: State) {
    && (forall t, n :: AgreeOn(s, t, n))
    && (forall n :: s.locks.Get(n).writer.Some? ==> s.locks.Get(n).readers == {})
    && (s.d.pc == DIdle ==> s.ctl == CNone)
  }

  // A step of t takes the lock it asks for, gives back the one it holds, or leaves
  // all locks alone.
  ghost predicate Took(s: State, u: State, t: Thread) {
    var a := Asks(s, t);
    && a.Claim? && Holds(s, t) == NoLock && Holds(u, t) == a
    && CanLock(s.locks.Get(a.name), a.write)
    && u.locks == s.locks.Put(a.name, Acquire(s.locks.Get(a.name), t, a.write))
  }

  ghost predicate Gave(s: State, u: State, t: Thread) {
    var h := Holds(s, t);
    && h.Claim? && Holds(u, t) == NoLock
    && u.locks == s.locks.Put(h.name, Release(s.locks.Get(h.name), t, h.write))
  }

  ghost predicate Moves(s: State, u: State, t: Thread) {
    && (forall v :: v != t ==> Holds(u, v) == Holds(s, v))
    && (Took(s, u, t) || Gave(s, u, t) || (u.locks == s.locks && Holds(u, t) == Holds(s, t)))
    && (u.d.pc == DIdle ==> u.ctl == CNone)
  }

  // Actions leave locks and claims alone.
  ghost predicate Keeps(s: State, u: State, t: Thread) {
    && u.locks == s.locks && Holds(u, t) == Holds(s, t)
    && (t != Balance ==> u.b == s.b)
    && (t != Display ==> u.d == s.d)
    && (t == Balance ==> u.ctl == s.ctl)
    && (t == Display ==> u.ctl == s.ctl || (s.ctl == CNone && u.ctl == CRead) || (s.ctl == CDone && u.ctl == CNone))
    && (u.d.pc == DIdle ==> u.ctl == CNone)
  }

  lemma WeighKeeps(s: State, x: Input)
    requires PartOf(s.b.pc) == Weigh && WeighAct(s, x).Some? && (s.d.pc == DIdle ==> s.ctl == CNone)
    ensures Keeps(s, WeighAct(s, x).value, Balance)
  {
  }

  lemma OrderKeeps(s: State, x: Input)
    requires PartOf(s.b.pc) == Deal && OrderAct(s, x).Some? && (s.d.pc == DIdle ==> s.ctl == CNone)
    ensures Keeps(s, OrderAct(s, x).value, Balance)
  {
  }

  lemma ImageKeeps(cfg: Config, s: State, x: Input)
    requires cfg.Valid() && ImageAct(cfg, s, x).Some? && (s.d.pc == DIdle ==> s.ctl == CNone)
    ensures Keeps(s, ImageAct(cfg, s, x).value, Balance)
  {
  }

  lemma ReplyKeeps(cfg: Config, s: State, x: Input)
    requires ReplyAct(cfg, s, x).Some? && (s.d.pc == DIdle ==> s.ctl == CNone)
    ensures Keeps(s, ReplyAct(cfg, s, x).value, Balance)
  {
  }

  // What the display thread leaves alone.
  ghost predicate DisplayOnly(s: State, u: State) {
    && u.b == s.b && u.locks == s.locks
    && u.g == s.g.(rgb := u.g.rgb) && u.h == s.h.(frames := u.h.frames, messages := u.h.messages)
    && (u.ctl == s.ctl || (s.d.pc == DIdle && u.ctl == CRead) || (s.ctl == CDone && u.ctl == CNone))
    && (u.d.pc == DIdle ==> u.ctl == CNone || (s.d.pc == DIdle && u.ctl == s.ctl))
  }

  lemma CaptureLeaves(s: State, x: Input)
    requires CaptureAct(s, x).Some?
    ensures DisplayOnly(s, CaptureAct(s, x).value)
  {
  }

  lemma ShowLeaves(cfg: Config, s: State, x: Input)
    requires ShowAct(cfg, s, x).Some?
    ensures DisplayOnly(s, ShowAct(cfg, s, x).value)
  {
    match s.d.pc
    case DGetWeight => case DGetPrice => case DGetClass => case DName => case DShow =>
    case DShowWeight => case DShowPrice => case DSend =>
  }

  lemma DisplayLeaves(cfg: Config, s: State, x: Input)
    requires DisplayAct(cfg, s, x).Some?
    ensures DisplayOnly(s, DisplayAct(cfg, s, x).value)
  {
    if CaptureAct(s, x).Some? { CaptureLeaves(s, x); } else { ShowLeaves(cfg, s, x); }
  }

  lemma ShowStays(cfg: Config, s: State, x: Input)
    requires ShowAct(cfg, s, x).Some?
    ensures var u := ShowAct(cfg, s, x).value; u.g == s.g && u.ctl == s.ctl
  {
  }

  lemma CaptureHolds(s: State, x: Input)
    requires CaptureAct(s, x).Some?
    ensures DisplayHolds(CaptureAct(s, x).value.d.pc) == DisplayHolds(s.d.pc)
  {
  }

  lemma ShowHolds(cfg: Config, s: State, x: Input)
    requires ShowAct(cfg, s, x).Some?
    ensures DisplayHolds(ShowAct(cfg, s, x).value.d.pc) == DisplayHolds(s.d.pc)
  {
    match s.d.pc
    case DGetWeight => case DGetPrice => case DGetClass => case DName => case DShow =>
    case DShowWeight => case DShowPrice => case DSend =>
  }

  lemma DisplayKeeps(cfg: Config, s: State, x: Input)
    requires DisplayAct(cfg, s, x).Some? && (s.d.pc == DIdle ==> s.ctl == CNone)
    ensures Keeps(s, DisplayAct(cfg, s, x).value, Display)
  {
    DisplayLeaves(cfg, s, x);
    if CaptureAct(s, x).Some? { CaptureHolds(s, x); } else { ShowHolds(cfg, s, x); }
  }

  lemma ControlKeeps(s: State, x: Input)
    requires ControlAct(s, x).Some? && (s.d.pc == DIdle ==> s.ctl == CNone)
    ensures Keeps(s, ControlAct(s, x).value, Control)
  {
  }

  lemma ActKeeps(cfg: Config, s: State, t: Thread, x: Input)
    requires cfg.Valid() && Act(cfg, s, t, x).Some? && (s.d.pc == DIdle ==> s.ctl == CNone)
    ensures Keeps(s, Act(cfg, s, t, x).value, t)
  {
    match t
    case Balance =>
      match PartOf(s.b.pc) {
        case Weigh => WeighKeeps(s, x);
        case Deal => OrderKeeps(s, x);
        case Picture => ImageKeeps(cfg, s, x);
        case Answer => ReplyKeeps(cfg, s, x);
      }
    case Display => DisplayKeeps(cfg, s, x);
    case Control => ControlKeeps(s, x);
  }

  // Where a lock call leads.
  lemma PastHolds(s: State, t: Thread)
    ensures Asks(s, t).Claim? ==> Holds(s, t) == NoLock && Holds(Past(s, t), t) == Asks(s, t)
    ensures Gives(s, t) ==> Holds(s, t).Claim? && Holds(Past(s, t), t) == NoLock
  {
  }

  // Lock and unlock calls move one thread only.
  lemma PastLeaves(s: State, t: Thread, v: Thread)
    requires v != t
    ensures Holds(Past(s, t), v) == Holds(s, v)
    ensures s.ctl == CNone && t == Control ==> !Asks(s, t).Claim? && !Gives(s, t)
    ensures s.d.pc != DIdle ==> Past(s, t).d.pc != DIdle
  {
  }

  lemma CallMoves(cfg: Config, s: State, t: Thread, x: Input)
    requires cfg.Valid() && Step(cfg, s, t, x).Some? && (s.d.pc == DIdle ==> s.ctl == CNone)
    requires Asks(s, t).Claim? || Gives(s, t)
    ensures Moves(s, Step(cfg, s, t, x).value, t)
  {
    PastHolds(s, t);
    var u := Step(cfg, s, t, x).value;
    assert Holds(u, t) == Holds(Past(s, t), t);
    forall v | v != t ensures Holds(u, v) == Holds(s, v) { PastLeaves(s, t, v); }
    PastLeaves(s, t, if t == Balance then Display else Balance);
  }

  lemma ActMoves(cfg: Config, s: State, t: Thread, x: Input)
    requires cfg.Valid() && Act(cfg, s, t, x).Some? && (s.d.pc == DIdle ==> s.ctl == CNone)
    ensures Moves(s, Act(cfg, s, t, x).value, t)
  {
    ActKeeps(cfg, s, t, x);
  }

  lemma StepMoves(cfg: Config, s: State, t: Thread, x: Input)
    requires cfg.Valid() && Step(cfg, s, t, x).Some? && (s.d.pc == DIdle ==> s.ctl == CNone)
    ensures Moves(s, Step(cfg, s, t, x).value, t)
  {
    if Asks(s, t).Claim? || Gives(s, t) {
      CallMoves(cfg, s, t, x);
    } else {
      ActMoves(cfg, s, t, x);
    }
  }

  lemma MovesKeepAgreement(s: State, u: State, t: Thread)
    requires LocksAgree(s) && Moves(s, u, t)
    ensures LocksAgree(u)
  {
    forall v, n ensures AgreeOn(u, v, n) {
      assert AgreeOn(s, v, n) && AgreeOn(s, t, n);
    }
    forall n ensures u.locks.Get(n).writer.Some? ==> u.locks.Get(n).readers == {} {
      if Gave(s, u, t) && Holds(s, t) == Claim(n, true) { assert AgreeOn(s, t, n); }
    }
  }

  lemma StepKeepsAgreement(cfg: Config, s: State, t: Thread, x: Input)
    requires cfg.Valid() && LocksAgree(s) && Step(cfg, s, t, x).Some?
    ensures LocksAgree(Step(cfg, s, t, x).value)
  {
    StepMoves(cfg, s, t, x);
    MovesKeepAgreement(s, Step(cfg, s, t, x).value, t);
  }

  // What the locks are for: a thread inside a writing section is alone in it.
  lemma WriterIsAlone(s: State, t: Thread, v: Thread, n: LockName)
    requires LocksAgree(s) && Holds(s, t) == Claim(n, true) && v != t
    ensures Holds(s, v) != Claim(n, true) && Holds(s, v) != Claim(n, false)
  {
    assert AgreeOn(s, t, n) && AgreeOn(s, v, n);
  }

  // Readers share a lock, a writer is alone.
  lemma ReadersShare(l: RwLock)
    ensures CanLock(l, false) <==> l.writer.None?
    ensures CanLock(l, true) <==> l.writer.None? && l.readers == {}
  {
  }

  // A lock is in the way of a claim.
  predicate Conflicts(a: Claim, h: Claim) {
    a.Claim? && h.Claim? && a.name == h.name && (a.write || h.write)
  }

  // A lock call goes through exactly if no other thread holds the lock, or the call and
  // all the holders only read.
  lemma LockGrantedIff(cfg: Config, s: State, t: Thread, x: Input)
    requires cfg.Valid() && LocksAgree(s) && s.live && Asks(s, t).Claim?
    ensures Step(cfg, s, t, x).Some? <==> forall v :: v != t ==> !Conflicts(Asks(s, t), Holds(s, v))
  {
    PastHolds(s, t);
    var a := Asks(s, t);
    var l := s.locks.Get(a.name);
    forall v | v != t && CanLock(l, a.write) ensures !Conflicts(a, Holds(s, v)) {
      assert AgreeOn(s, v, a.name);
    }
    if !CanLock(l, a.write) {
      var v := if l.writer.Some? then l.writer.value else var r :| r in l.readers; r;
      assert AgreeOn(s, v, a.name);
      assert v != t && Conflicts(a, Holds(s, v));
    }
  }

  // ---------------------------------------------------------------- progress

  // The buffers keep their sizes.
  ghost predicate BuffersOk(cfg: Config, s: State) {
    && cfg.Valid() && |s.g.rgb| == 3 * (cfg.ow * cfg.oh) && |s.g.resize| == 3 * (cfg.nw * cfg.nh)
    && s.h.frames != []
  }

  ghost predicate CanStep(cfg: Config, s: State, t: Thread)
    requires cfg.Valid()
  {
    exists x :: Step(cfg, s, t, x).Some?
  }

  // A thread never waits for anything while it holds a lock.
  lemma HolderCanStep(cfg: Config, s: State, t: Thread)
    requires BuffersOk(cfg, s) && s.live && Holds(s, t).Claim?
    ensures CanStep(cfg, s, t)
  {
    if t == Display && s.d.pc == DCapture {
      assert Step(cfg, s, t, Camera(s.g.rgb)).Some?;
    } else {
      if t == Balance && s.b.pc == BScale && s.b.k < |s.g.resize| { SourceInRange(s.b.k, cfg.ow, cfg.oh, cfg.nw, cfg.nh); }
      assert Step(cfg, s, t, Ok).Some?;
    }
  }

  // It is blocked only if another thread holds the lock it asks for.
  lemma BlockedByHolder(s: State, t: Thread)
    requires LocksAgree(s) && Asks(s, t).Claim? && !CanLock(s.locks.Get(Asks(s, t).name), Asks(s, t).write)
    ensures exists v :: v != t && Holds(s, v).Claim? && Holds(s, v).name == Asks(s, t).name
  {
    var n := Asks(s, t).name;
    var l := s.locks.Get(n);
    var v := if l.writer.Some? then l.writer.value else var r :| r in l.readers; r;
    assert AgreeOn(s, v, n);
  }

  // Waiting on the outside world or on another thread's life, not on a lock.
  predicate Resting(s: State, t: Thread) {
    (t == Display && s.d.pc == DJoin && s.ctl != CDone) || (t == Control && (s.ctl == CNone || s.ctl == CDone))
  }

  lemma FreeThreadCanStep(cfg: Config, s: State, t: Thread)
    requires BuffersOk(cfg, s) && s.live && !Resting(s, t)
    requires Asks(s, t).Claim? ==> CanLock(s.locks.Get(Asks(s, t).name), Asks(s, t).write)
    ensures CanStep(cfg, s, t)
  {
    if Holds(s, t).Claim? {
      HolderCanStep(cfg, s, t);
    } else if Asks(s, t).Claim? {
      assert Step(cfg, s, t, Ok).Some?;
    } else {
      match t
      case Balance =>
        assert Step(cfg, s, t, if s.b.pc == BReceive then Reply(0, 0) else if s.b.pc == BSendImage then Wrote(0)
                               else if s.b.pc == BRead then NoSample else Ok).Some?;
      case Display => assert Step(cfg, s, t, if s.d.pc == DIdle then Connect else Ok).Some?;
      case Control => assert Step(cfg, s, t, Gone).Some?;
    }
  }

  ghost predicate WaitsForRunner(cfg: Config, s: State, t: Thread)
    requires cfg.Valid()
  {
    Asks(s, t).Claim? && exists v :: v != t && Holds(s, v).Claim? && Holds(s, v).name == Asks(s, t).name && CanStep(cfg, s, v)
  }

  // A thread that cannot step waits for a lock whose holder can, or is resting; so no
  // state is a deadlock.
  lemma NoDeadlock(cfg: Config, s: State)
    requires BuffersOk(cfg, s) && LocksAgree(s) && s.live
    ensures forall t :: CanStep(cfg, s, t) || Resting(s, t) || WaitsForRunner(cfg, s, t)
    ensures exists t :: CanStep(cfg, s, t)
  {
    forall t ensures CanStep(cfg, s, t) || Resting(s, t) || WaitsForRunner(cfg, s, t) {
      if !Resting(s, t) {
        if Asks(s, t).Claim? && !CanLock(s.locks.Get(Asks(s, t).name), Asks(s, t).write) {
          BlockedByHolder(s, t);
          var v :| v != t && Holds(s, v).Claim? && Holds(s, v).name == Asks(s, t).name;
          HolderCanStep(cfg, s, v);
        } else {
          FreeThreadCanStep(cfg, s, t);
        }
      }
    }
    assert CanStep(cfg, s, Balance) || WaitsForRunner(cfg, s, Balance);
  }

  // How many own steps a thread is away from giving its lock back.
  function ToRelease(s: State, t: Thread): nat {
    match t
    case Balance =>
      (match s.b.pc
       case BStart => 3 + |s.g.resize|
       case BScale => 2 + if s.b.k < |s.g.resize| then |s.g.resize| - s.b.k else 0
       case BZeroClass => 4
       case BZeroPrice => 3
       case BSetWeight | BZeroWeight | BGetFlag | BClear | BOrderClass | BOffline | BSetClass | BSetPrice => 2
       case _ => 1)
    case Display =>
      (match s.d.pc
       case DCapture => 3 + |s.g.rgb|
       case DCopy => 2 + if s.d.i < |s.g.rgb| then |s.g.rgb| - s.d.i else 0
       case DGetWeight => 4
       case DGetPrice => 3
       case DGetClass => 2
       case _ => 1)
    case Control => if s.ctl == CSet then 2 else 1
  }

  ghost predicate Nearer(s: State, u: State, t: Thread) {
    u.live && Holds(s, t).Claim? ==> ToRelease(u, t) < ToRelease(s, t)
  }

  lemma ActNearer(cfg: Config, s: State, t: Thread, x: Input)
    requires cfg.Valid() && !Gives(s, t) && Act(cfg, s, t, x).Some?
    ensures Nearer(s, Act(cfg, s, t, x).value, t)
  {
    match t
    case Balance =>
      match PartOf(s.b.pc) {
        case Weigh => WeighNearer(s, x);
        case Deal => OrderNearer(s, x);
        case Picture => ImageNearer(cfg, s, x);
        case Answer => ReplyNearer(cfg, s, x);
      }
    case Display => DisplayNearer(cfg, s, x);
    case Control =>
  }

  lemma WeighNearer(s: State, x: Input)
    requires !BalanceGives(s.b.pc) && WeighAct(s, x).Some?
    ensures Nearer(s, WeighAct(s, x).value, Balance)
  {
    match s.b.pc
    case BReset => case BLoop => case BRead => case BSetWeight => case BTest => case BZeroClass =>
    case BZeroPrice => case BZeroWeight =>
  }

  lemma OrderNearer(s: State, x: Input)
    requires !BalanceGives(s.b.pc) && OrderAct(s, x).Some?
    ensures Nearer(s, OrderAct(s, x).value, Balance)
  {
    match s.b.pc
    case BGetFlag => case BBranch => case BClear => case BGetWeight => case BGetPrice =>
    case BGetClass => case BCheck => case BInsert => case BOrderClass =>
  }

  lemma ImageNearer(cfg: Config, s: State, x: Input)
    requires cfg.Valid() && !BalanceGives(s.b.pc) && ImageAct(cfg, s, x).Some?
    ensures Nearer(s, ImageAct(cfg, s, x).value, Balance)
  {
    match s.b.pc
    case BPack => case BSendHead => case BStart => case BScale => case BSendImage =>
  }

  lemma ReplyNearer(cfg: Config, s: State, x: Input)
    requires !BalanceGives(s.b.pc) && ReplyAct(cfg, s, x).Some?
    ensures Nearer(s, ReplyAct(cfg, s, x).value, Balance)
  {
    match s.b.pc
    case BReceive => case BOffline => case BSetClass => case BQuery => case BSetPrice =>
  }

  lemma DisplayNearer(cfg: Config, s: State, x: Input)
    requires !DisplayGives(s.d.pc) && DisplayAct(cfg, s, x).Some?
    ensures Nearer(s, DisplayAct(cfg, s, x).value, Display)
  {
  }

  ghost predicate SameSizes(s: State, u: State) {
    |u.g.rgb| == |s.g.rgb| && |u.g.resize| == |s.g.resize|
  }

  lemma WeighSizes(s: State, x: Input)
    requires WeighAct(s, x).Some?
    ensures SameSizes(s, WeighAct(s, x).value)
  {
    match s.b.pc
    case BReset => case BLoop => case BRead => case BSetWeight => case BTest => case BZeroClass =>
    case BZeroPrice => case BZeroWeight =>
  }

  lemma OrderSizes(s: State, x: Input)
    requires OrderAct(s, x).Some?
    ensures SameSizes(s, OrderAct(s, x).value)
  {
    match s.b.pc
    case BGetFlag => case BBranch => case BClear => case BGetWeight => case BGetPrice =>
    case BGetClass => case BCheck => case BInsert => case BOrderClass =>
  }

  lemma ImageSizes(cfg: Config, s: State, x: Input)
    requires cfg.Valid() && ImageAct(cfg, s, x).Some?
    ensures SameSizes(s, ImageAct(cfg, s, x).value)
  {
    match s.b.pc
    case BPack => case BSendHead => case BStart => case BScale => case BSendImage =>
  }

  lemma ReplySizes(cfg: Config, s: State, x: Input)
    requires ReplyAct(cfg, s, x).Some?
    ensures SameSizes(s, ReplyAct(cfg, s, x).value)
  {
    match s.b.pc
    case BReceive => case BOffline => case BSetClass => case BQuery => case BSetPrice =>
  }

  lemma CaptureSizes(s: State, x: Input)
    requires CaptureAct(s, x).Some?
    ensures SameSizes(s, CaptureAct(s, x).value)
  {
  }

  lemma DisplaySizes(cfg: Config, s: State, x: Input)
    requires DisplayAct(cfg, s, x).Some?
    ensures SameSizes(s, DisplayAct(cfg, s, x).value)
  {
    if CaptureAct(s, x).Some? { CaptureSizes(s, x); } else { ShowStays(cfg, s, x); }
  }

  lemma SizesKept(cfg: Config, s: State, t: Thread, x: Input)
    requires cfg.Valid() && Act(cfg, s, t, x).Some?
    ensures SameSizes(s, Act(cfg, s, t, x).value)
  {
    match t
    case Balance =>
      match PartOf(s.b.pc) {
        case Weigh => WeighSizes(s, x);
        case Deal => OrderSizes(s, x);
        case Picture => ImageSizes(cfg, s, x);
        case Answer => ReplySizes(cfg, s, x);
      }
    case Display => DisplaySizes(cfg, s, x);
    case Control =>
  }

  // A thread that holds a lock gives it back with its next steps: each own step in the
  // section either releases it or brings the release nearer, and steps of other
  // threads do not move it away.
  lemma SectionsEnd(cfg: Config, s: State, t: Thread, v: Thread, x: Input)
    requires cfg.Valid() && LocksAgree(s) && Holds(s, t).Claim? && Step(cfg, s, v, x).Some?
    ensures var u := Step(cfg, s, v, x).value;
      u.live ==> if v == t then Holds(u, t) == NoLock || ToRelease(u, t) < ToRelease(s, t)
                 else Holds(u, t) == Holds(s, t) && ToRelease(u, t) == ToRelease(s, t)
  {
    PastHolds(s, v);
    if !Asks(s, v).Claim? && !Gives(s, v) {
      ActKeeps(cfg, s, v, x);
      SizesKept(cfg, s, v, x);
      if v == t { ActNearer(cfg, s, t, x); }
    }
  }
}
