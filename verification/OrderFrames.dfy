/** Images in the order protocol: although frames are copied and scaled byte by byte
    while other threads run, every image sent was scaled from one whole frame. */
module OrderFrames {
  import opened Bytes
  import opened Scale
  import opened OrderProtocol
  import opened OrderLocks

  // The picture of a whole frame.
  function Picture(cfg: Config, frame: seq<byte>): seq<byte>
    requires cfg.Valid() && |frame| == 3 * (cfg.ow * cfg.oh)
  {
    Scaled(frame, cfg.ow, cfg.oh, cfg.nw, cfg.nh)
  }

  ghost predicate FramesWhole(cfg: Config, frames: seq<seq<byte>>) {
    frames != [] && forall i :: 0 <= i < |frames| ==> |frames[i]| == 3 * (cfg.ow * cfg.oh)
  }

  // Outside the copy the buffer is the last complete frame; inside, the new frame up
  // to the copied byte and the last one from there.
  ghost predicate BufferInv(cfg: Config, g: Shared, d: Displaying, frames: seq<seq<byte>>) {
    && FramesWhole(cfg, frames)
    && |g.rgb| == 3 * (cfg.ow * cfg.oh)
    && (d.pc != DCopy ==> g.rgb == frames[|frames| - 1])
    && (d.pc == DCopy ==>
          |d.frame| == |g.rgb| && d.i <= |g.rgb| && g.rgb[..d.i] == d.frame[..d.i])
  }

  // The scaled bytes so far belong to one frame.
  ghost predicate ScaleInv(cfg: Config, g: Shared, b: Balancing, frames: seq<seq<byte>>)
    requires cfg.Valid() && FramesWhole(cfg, frames)
  {
    && |g.resize| == 3 * (cfg.nw * cfg.nh) && b.scaledFrom < |frames|
    && (b.pc == BScale ==>
          b.scaledFrom == |frames| - 1 && b.k <= |g.resize| &&
          g.resize[..b.k] == Picture(cfg, frames[b.scaledFrom])[..b.k])
    && (b.pc == BUImage || b.pc == BSendImage ==> g.resize == Picture(cfg, frames[b.scaledFrom]))
  }

  ghost predicate SentOk(cfg: Config, frames: seq<seq<byte>>, x: Sent)
    requires cfg.Valid() && FramesWhole(cfg, frames)
  {
    x.frame < |frames| && x.bytes <= Picture(cfg, frames[x.frame])
  }

  ghost predicate SentInv(cfg: Config, b: Balancing, h: History)
    requires cfg.Valid() && FramesWhole(cfg, h.frames)
  {
    && (forall i :: 0 <= i < |h.sent| ==> SentOk(cfg, h.frames, h.sent[i]) && h.sent[i].frame <= b.scaledFrom)
    && (forall i, j :: 0 <= i < j < |h.sent| ==> h.sent[i].frame <= h.sent[j].frame)
  }

  ghost predicate FrameInv(cfg: Config, s: State)
    requires cfg.Valid()
  {
    && BufferInv(cfg, s.g, s.d, s.h.frames)
    && ScaleInv(cfg, s.g, s.b, s.h.frames)
    && SentInv(cfg, s.b, s.h)
  }

  // ------------------------------------------------------ the balance thread

  lemma PictureKeepsFrames(cfg: Config, s: State, x: Input)
    requires cfg.Valid() && FrameInv(cfg, s) && LocksAgree(s) && ImageAct(cfg, s, x).Some?
    ensures FrameInv(cfg, ImageAct(cfg, s, x).value)
  {
    if s.b.pc == BScale {
      ScaleKeepsFrames(cfg, s, x);
    } else if s.b.pc == BSendImage {
      SendKeepsFrames(cfg, s, x);
    }
  }

  lemma OneMoreByte(resize: seq<byte>, pic: seq<byte>, k: nat, v: byte)
    requires k < |resize| == |pic| && resize[..k] == pic[..k] && v == pic[k]
    ensures resize[k := v][..k + 1] == pic[..k + 1]
  {
  }

  // The lock keeps the buffer still while a byte is scaled.
  lemma ScaleKeepsFrames(cfg: Config, s: State, x: Input)
    requires cfg.Valid() && FrameInv(cfg, s) && LocksAgree(s) && s.b.pc == BScale && ImageAct(cfg, s, x).Some?
    ensures FrameInv(cfg, ImageAct(cfg, s, x).value)
  {
    CopierExcluded(s);
    if s.b.k < |s.g.resize| { ScaleByteKeeps(cfg, s, x); } else { ScaleEndKeeps(cfg, s, x); }
  }

  lemma ScaleByteKeeps(cfg: Config, s: State, x: Input)
    requires cfg.Valid() && FrameInv(cfg, s) && s.d.pc != DCopy && s.b.pc == BScale && ImageAct(cfg, s, x).Some?
    requires s.b.k < |s.g.resize|
    ensures FrameInv(cfg, ImageAct(cfg, s, x).value)
  {
    var pic := Picture(cfg, s.g.rgb);
    OneMoreByte(s.g.resize, pic, s.b.k, pic[s.b.k]);
  }

  lemma ScaleEndKeeps(cfg: Config, s: State, x: Input)
    requires cfg.Valid() && FrameInv(cfg, s) && s.d.pc != DCopy && s.b.pc == BScale && ImageAct(cfg, s, x).Some?
    requires s.b.k >= |s.g.resize|
    ensures FrameInv(cfg, ImageAct(cfg, s, x).value)
  {
    var pic := Picture(cfg, s.g.rgb);
    assert s.g.resize[..s.b.k] == s.g.resize && pic[..s.b.k] == pic;
  }

  lemma CopierExcluded(s: State)
    requires LocksAgree(s) && s.b.pc == BScale
    ensures s.d.pc != DCopy
  {
    assert AgreeOn(s, Display, ImageLock) && AgreeOn(s, Balance, ImageLock);
  }

  lemma SendKeepsFrames(cfg: Config, s: State, x: Input)
    requires cfg.Valid() && FrameInv(cfg, s) && s.b.pc == BSendImage && ImageAct(cfg, s, x).Some?
    ensures FrameInv(cfg, ImageAct(cfg, s, x).value)
  {
    match s.b.pc
    case BPack => case BSendHead => case BStart => case BScale => case BSendImage =>
  }

  // The other parts of the balance thread do not touch images.
  ghost predicate SameImages(s: State, u: State) {
    && u.g.rgb == s.g.rgb && u.g.resize == s.g.resize && u.d == s.d
    && u.h.frames == s.h.frames && u.h.sent == s.h.sent && u.b.scaledFrom == s.b.scaledFrom
    && (PartOf(u.b.pc) != Part.Picture || u.b.pc == BPack)
  }

  lemma SameImagesKeepFrames(cfg: Config, s: State, u: State)
    requires cfg.Valid() && FrameInv(cfg, s) && SameImages(s, u)
    ensures FrameInv(cfg, u)
  {
  }

  lemma WeighLeavesImages(s: State, x: Input)
    requires WeighAct(s, x).Some? && PartOf(s.b.pc) == Weigh
    ensures SameImages(s, WeighAct(s, x).value)
  {
    match s.b.pc
    case BReset => case BLoop => case BRead => case BSetWeight => case BTest => case BZeroClass =>
    case BZeroPrice => case BZeroWeight =>
  }

  lemma DealLeavesImages(s: State, x: Input)
    requires OrderAct(s, x).Some? && PartOf(s.b.pc) == Deal
    ensures SameImages(s, OrderAct(s, x).value)
  {
    match s.b.pc
    case BGetFlag => case BBranch => case BClear => case BGetWeight => case BGetPrice =>
    case BGetClass => case BCheck => case BInsert => case BOrderClass =>
  }

  lemma AnswerLeavesImages(cfg: Config, s: State, x: Input)
    requires ReplyAct(cfg, s, x).Some? && PartOf(s.b.pc) == Answer
    ensures SameImages(s, ReplyAct(cfg, s, x).value)
  {
    match s.b.pc
    case BReceive => case BOffline => case BSetClass => case BQuery => case BSetPrice =>
  }

  // ------------------------------------------------------ the display thread

  lemma DisplayKeepsFrames(cfg: Config, s: State, x: Input)
    requires cfg.Valid() && FrameInv(cfg, s) && LocksAgree(s) && DisplayAct(cfg, s, x).Some?
    ensures FrameInv(cfg, DisplayAct(cfg, s, x).value)
  {
    if s.d.pc == DCopy {
      CopyKeepsFrames(cfg, s, x);
    } else {
      if CaptureAct(s, x).Some? { CaptureLeavesImages(s, x); } else { ShowLeavesImages(cfg, s, x); }
      StillImages(cfg, s, DisplayAct(cfg, s, x).value);
    }
  }

  // Outside the copy the buffers stay; a new frame starts at its first byte.
  ghost predicate ImagesStay(s: State, u: State) {
    && u.b == s.b && u.g.rgb == s.g.rgb && u.g.resize == s.g.resize && u.h.frames == s.h.frames && u.h.sent == s.h.sent
    && (u.d.pc == DCopy ==> |u.d.frame| == |u.g.rgb| && u.d.i == 0)
  }

  lemma CaptureLeavesImages(s: State, x: Input)
    requires CaptureAct(s, x).Some? && s.d.pc != DCopy
    ensures ImagesStay(s, CaptureAct(s, x).value)
  {
  }

  lemma ShowLeavesImages(cfg: Config, s: State, x: Input)
    requires ShowAct(cfg, s, x).Some? && s.d.pc != DCopy
    ensures ImagesStay(s, ShowAct(cfg, s, x).value)
  {
  }

  lemma StillImages(cfg: Config, s: State, u: State)
    requires cfg.Valid() && FrameInv(cfg, s) && ImagesStay(s, u) && s.d.pc != DCopy
    ensures FrameInv(cfg, u)
  {
  }

  // A frame joins the complete ones only when its last byte is copied, and nobody is
  // scaling then.
  lemma CopyKeepsFrames(cfg: Config, s: State, x: Input)
    requires cfg.Valid() && FrameInv(cfg, s) && LocksAgree(s) && s.d.pc == DCopy && DisplayAct(cfg, s, x).Some?
    ensures FrameInv(cfg, DisplayAct(cfg, s, x).value)
  {
    var u := DisplayAct(cfg, s, x).value;
    WriterIsAlone(s, Display, Balance, ImageLock);
    if s.d.i < |s.g.rgb| {
      assert u.g.rgb[..u.d.i] == s.g.rgb[..s.d.i] + [s.d.frame[s.d.i]];
      assert s.d.frame[..u.d.i] == s.d.frame[..s.d.i] + [s.d.frame[s.d.i]];
    } else {
      assert s.g.rgb == s.g.rgb[..s.d.i] && s.d.frame == s.d.frame[..s.d.i];
      GrowthKeepsSent(cfg, s.b, s.h, s.d.frame);
    }
  }

  lemma GrowthKeepsSent(cfg: Config, b: Balancing, h: History, frame: seq<byte>)
    requires cfg.Valid() && FramesWhole(cfg, h.frames) && SentInv(cfg, b, h) && |frame| == 3 * (cfg.ow * cfg.oh)
    ensures FramesWhole(cfg, h.frames + [frame]) && SentInv(cfg, b, h.(frames := h.frames + [frame]))
  {
    forall i | 0 <= i < |h.sent| ensures SentOk(cfg, h.frames + [frame], h.sent[i]) {
      assert SentOk(cfg, h.frames, h.sent[i]);
    }
  }

  // ---------------------------------------------------------------- all steps

  lemma ControlLeavesImages(s: State, x: Input)
    requires ControlAct(s, x).Some?
    ensures var u := ControlAct(s, x).value;
      u.b == s.b && u.d == s.d && u.h.frames == s.h.frames && u.h.sent == s.h.sent &&
      u.g.rgb == s.g.rgb && u.g.resize == s.g.resize
  {
  }

  lemma ControlKeepsFrames(cfg: Config, s: State, x: Input)
    requires cfg.Valid() && FrameInv(cfg, s) && ControlAct(s, x).Some?
    ensures FrameInv(cfg, ControlAct(s, x).value)
  {
    ControlLeavesImages(s, x);
  }

  lemma PastKeepsFrames(cfg: Config, s: State, t: Thread)
    requires cfg.Valid() && FrameInv(cfg, s) && (Asks(s, t).Claim? || Gives(s, t))
    ensures FrameInv(cfg, Past(s, t))
  {
  }

  lemma StepKeepsFrames(cfg: Config, s: State, t: Thread, x: Input)
    requires cfg.Valid() && FrameInv(cfg, s) && LocksAgree(s) && Step(cfg, s, t, x).Some?
    ensures FrameInv(cfg, Step(cfg, s, t, x).value)
  {
    if Asks(s, t).Claim? || Gives(s, t) {
      PastHolds(s, t);
      PastKeepsFrames(cfg, s, t);
    } else {
      match t
      case Balance =>
        match PartOf(s.b.pc) {
          case Weigh => WeighLeavesImages(s, x); SameImagesKeepFrames(cfg, s, WeighAct(s, x).value);
          case Deal => DealLeavesImages(s, x); SameImagesKeepFrames(cfg, s, OrderAct(s, x).value);
          case Picture => PictureKeepsFrames(cfg, s, x);
          case Answer => AnswerLeavesImages(cfg, s, x); SameImagesKeepFrames(cfg, s, ReplyAct(cfg, s, x).value);
        }
      case Display => DisplayKeepsFrames(cfg, s, x);
      case Control => ControlKeepsFrames(cfg, s, x);
    }
  }
}
