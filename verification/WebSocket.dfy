/** websocketprotocl.c: the frame header the server sends, and the client frames it
    decodes, against sections 5.2 and 5.3 of RFC 6455. */
module WebSocket {
  import opened Bytes
  import opened Sequences
  import opened ByteOrder
  import opened Rio

  // ------------------------------------------------- a parser for section 5.2

  datatype Frame = Frame(fin: bool, opcode: bv8, payload: seq<bv8>)

  datatype Parsed =
    | Done(frame: Frame, used: nat)
    | Incomplete
    | Malformed

  // The payload length field: how many bytes it takes after the second one, and the
  // length it gives. The shortest form must be used and the top bit must be zero.
  datatype Length = Length(extra: nat, value: nat) | TooShort | BadLength

  function ParseLength(s: seq<bv8>): Length
    requires |s| >= 2
  {
    var l := (s[1] & 0x7F) as nat;
    if l < 126 then Length(0, l)
    else
      var n := if l == 126 then 2 else 8;
      if |s| < 2 + n then TooShort
      else
        var v := FromNetwork(s[2..2 + n]);
        if (if n == 2 then 126 <= v else 0x1_0000 <= v < 0x8000_0000_0000_0000) then Length(n, v) else BadLength
  }

  // Octet i of the payload with octet i mod 4 of the key (section 5.3).
  function Masked(payload: seq<bv8>, key: seq<bv8>): (r: seq<bv8>)
    requires |key| == 4
    ensures |r| == |payload|
  {
    seq(|payload|, i requires 0 <= i < |payload| => payload[i] ^ key[i % 4])
  }

  function ParseFrame(s: seq<bv8>): (p: Parsed)
    ensures p.Done? ==> 2 <= p.used <= |s|
  {
    if |s| < 2 then Incomplete
    else if s[0] & 0x70 != 0 then Malformed
    else match ParseLength(s)
      case TooShort => Incomplete
      case BadLength => Malformed
      case Length(extra, n) =>
        var keyed := s[1] & 0x80 != 0;
        var start := 2 + extra + if keyed then 4 else 0;
        if |s| < start + n then Incomplete
        else
          var payload := if keyed then Masked(s[start..start + n], s[start - 4..start]) else s[start..start + n];
          Done(Frame(s[0] & 0x80 != 0, s[0] & 0x0F, payload), start + n)
  }

  // A whole stream of frames.
  datatype Stream = Frames(frames: seq<Frame>) | Broken

  function ParseStream(s: seq<bv8>): Stream
    decreases |s|
  {
    if s == [] then Frames([])
    else match ParseFrame(s)
      case Done(f, used) =>
        (match ParseStream(s[used..])
         case Frames(fs) => Frames([f] + fs)
         case Broken => Broken)
      case _ => Broken
  }

  // ------------------------------------------------------------ server frames

  // The header for a payload of len bytes; kind is or-ed into the first byte.
  function Header(kind: bv8, len: nat): (h: seq<bv8>)
    ensures 2 <= |h| <= 10
  {
    [0x80 | kind] +
    (if len < 126 then [len as bv8]
     else if len <= 0xFFFF then [126] + Network(len, 2)
     else [127] + Network(len, 8))
  }

  lemma LengthByte(len: nat)
    requires len < 126
    ensures (len as bv8) & 0x7F == len as bv8 && (len as bv8) & 0x80 == 0
    ensures (len as bv8) as nat == len
  {
    ByteValue(len);
    SmallByte(len as bv8);
  }

  lemma SmallByte(b: bv8)
    requires b as nat < 126
    ensures b & 0x7F == b && b & 0x80 == 0
  {
    ByteOrdered(b, 126);
  }

  lemma HeaderLength(kind: bv8, len: nat, rest: seq<bv8>)
    requires len < WORD * WORD
    ensures var s := Header(kind, len) + rest;
      && s[1] & 0x80 == 0
      && ParseLength(s) == if len < 0x8000_0000_0000_0000 then Length(|Header(kind, len)| - 2, len) else BadLength
  {
    var s := Header(kind, len) + rest;
    PowerValues();
    if len < 126 {
      LengthByte(len);
    } else if len <= 0xFFFF {
      assert s[2..4] == Network(len, 2);
      NetworkValue(len, 2);
    } else {
      assert s[2..10] == Network(len, 8);
      NetworkValue(len, 8);
    }
  }

  lemma ShortHeader(kind: bv8, len: nat)
    requires len < 126
    ensures Header(kind, len) == [0x80 | kind, len as bv8]
  {
  }

  lemma MiddleHeader(kind: bv8, len: nat, a: nat, b: nat)
    requires 126 <= len < 0x1_0000 && len / 256 == a && len % 256 == b
    ensures Header(kind, len) == [0x80 | kind, 126, a as bv8, b as bv8]
  {
    TwoBytes(len, 0);
  }

  lemma LongHeader(kind: bv8)
    ensures Header(kind, 65536) == [0x80 | kind, 127, 0, 0, 0, 0, 0, 1, 0, 0]
  {
    NetworkEight();
  }

  // The headers of section 5.7 and those where the length form changes, in bytes.
  lemma ShortHeaderBytes()
    ensures Header(1, 5) == [0x81, 5] && Header(1, 125) == [0x81, 125]
  {
    ShortHeader(1, 5);
    ShortHeader(1, 125);
  }

  lemma MiddleHeaderBytes()
    ensures Header(1, 126) == [0x81, 126, 0, 126] && Header(2, 256) == [0x82, 126, 1, 0]
    ensures Header(2, 65535) == [0x82, 126, 255, 255]
  {
    MiddleHeader(1, 126, 0, 126);
    MiddleHeader(2, 256, 1, 0);
    MiddleHeader(2, 65535, 255, 255);
  }

  lemma LongHeaderBytes()
    ensures Header(2, 65536) == [0x82, 127, 0, 0, 0, 0, 0, 1, 0, 0]
  {
    LongHeader(2);
  }

  lemma NetworkEight()
    ensures Network(65536, 8) == [0, 0, 0, 0, 0, 1, 0, 0]
  {
    NetworkAppend(65536, 4, 4);
    AboveFour(65536);
    FourBytes(0);
    FourBytes(65536);
  }

  lemma FirstByte(kind: bv8)
    ensures (0x80 | kind) & 0x70 == kind & 0x70 && (0x80 | kind) & 0x80 != 0
    ensures (0x80 | kind) & 0x0F == kind & 0x0F
  {
  }

  // A frame as the server sends it parses back, whatever follows, exactly when type
  // leaves the reserved bits alone and the length has its top bit clear. The length
  // is in the shortest form, since the parser accepts no other.
  lemma FrameParsesIff(kind: bv8, payload: seq<bv8>, rest: seq<bv8>)
    requires |payload| < WORD * WORD
    ensures ParseFrame(Header(kind, |payload|) + payload + rest)
         == Done(Frame(true, kind & 0x0F, payload), |Header(kind, |payload|)| + |payload|)
      <==> kind & 0x70 == 0 && |payload| < 0x8000_0000_0000_0000
  {
    var h := Header(kind, |payload|);
    var s := h + payload + rest;
    assert s == h + (payload + rest);
    HeaderLength(kind, |payload|, payload + rest);
    FirstByte(kind);
    assert s[|h|..|h| + |payload|] == payload;
  }

  function FrameBytes(kind: bv8, payload: seq<bv8>): seq<bv8> {
    Header(kind, |payload|) + payload
  }

  function StreamBytes(kind: bv8, payloads: seq<seq<bv8>>): seq<bv8> {
    if payloads == [] then [] else FrameBytes(kind, payloads[0]) + StreamBytes(kind, payloads[1..])
  }

  function SentFrames(kind: bv8, payloads: seq<seq<bv8>>): (r: seq<Frame>)
    ensures |r| == |payloads|
    ensures forall i :: 0 <= i < |r| ==> r[i] == Frame(true, kind & 0x0F, payloads[i])
  {
    seq(|payloads|, i requires 0 <= i < |payloads| => Frame(true, kind & 0x0F, payloads[i]))
  }

  predicate Lengths(payloads: seq<seq<bv8>>) {
    forall i :: 0 <= i < |payloads| ==> |payloads[i]| < 0x8000_0000_0000_0000
  }

  lemma SentFirst(kind: bv8, payloads: seq<seq<bv8>>)
    requires payloads != []
    ensures SentFrames(kind, payloads) == [Frame(true, kind & 0x0F, payloads[0])] + SentFrames(kind, payloads[1..])
  {
  }

  lemma ParseFirst(f: seq<bv8>, rest: seq<bv8>, frame: Frame)
    requires f != [] && ParseFrame(f + rest) == Done(frame, |f|)
    ensures ParseStream(f + rest) == match ParseStream(rest) case Frames(fs) => Frames([frame] + fs) case Broken => Broken
  {
    assert (f + rest)[|f|..] == rest;
  }

  // A stream of such frames parses back to exactly the list of payloads.
  lemma {:induction false} StreamParses(kind: bv8, payloads: seq<seq<bv8>>)
    requires kind & 0x70 == 0 && Lengths(payloads)
    ensures ParseStream(StreamBytes(kind, payloads)) == Frames(SentFrames(kind, payloads))
    decreases |payloads|
  {
    if payloads != [] {
      FrameParsesIff(kind, payloads[0], StreamBytes(kind, payloads[1..]));
      ParseFirst(FrameBytes(kind, payloads[0]), StreamBytes(kind, payloads[1..]), Frame(true, kind & 0x0F, payloads[0]));
      StreamParses(kind, payloads[1..]);
      SentFirst(kind, payloads);
    }
  }

  const MAXLINE: nat := 1024

  // *((uintN_t *)(buf + index)) = v on the little-endian host.
  method StoreAt(buf: array<bv8>, index: nat, v: nat, n: nat)
    requires index + n <= buf.Length
    modifies buf
    ensures buf[..index + n] == old(buf[..index]) + Stored(v, n)
    ensures buf[index + n..] == old(buf[index + n..])
  {
    var bytes := Stored(v, n);
    forall i | 0 <= i < n { buf[index + i] := bytes[i]; }
  }

  // How many of the header's bytes the one write call takes; -1 when it fails.
  function HeaderWrite(script: seq<Outcome>, size: nat): int {
    if script == [] then size
    else match script[0]
      case Moves(k) => Min(k, size)
      case Fails(_) => -1
  }

  // A failing write ends the process (ok is false). The code does not notice a short one.
  method SendWebSocketHeader(fd: Descriptor, kind: bv8, len: nat) returns (ok: bool)
    requires len < WORD * WORD
    modifies fd
    ensures var w := HeaderWrite(old(fd.script), |Header(kind, len)|);
      && (ok <==> w >= 0) && fd.wire == old(fd.wire) + Header(kind, len)[..if w < 0 then 0 else w]
    ensures fd.script == if old(fd.script) == [] then [] else old(fd.script)[1..]
    ensures ok ==> fd.errno == old(fd.errno)
  {
    var pockHeader := new bv8[MAXLINE](_ => 0);
    var index := 0;
    pockHeader[index] := 0x80 | kind;
    index := index + 1;
    if len < 126 {
      pockHeader[index] := len as bv8;
      index := index + 1;
    } else if len <= 0xFFFF {
      pockHeader[index] := 126;
      index := index + 1;
      assert pockHeader[..index] == [0x80 | kind, 126];
      StoreAt(pockHeader, index, Swapped(len, 2), 2);
      SwappedIsStored(len, 2);
      index := index + 2;
    } else {
      pockHeader[index] := 127;
      index := index + 1;
      assert pockHeader[..index] == [0x80 | kind, 127];
      var swapped := Htonll(len);
      StoreAt(pockHeader, index, swapped, 8);
      index := index + 8;
    }
    assert pockHeader[..index] == Header(kind, len);
    var r := fd.Write(pockHeader[..index]);
    ok := r >= 0;
  }

  // What a send puts on the wire, whether it succeeds, whether every header got
  // through whole, and what the descriptor is left with.
  datatype Sending = Sending(bytes: seq<bv8>, ok: bool, whole: bool, rest: seq<Outcome>, errno: int)

  // Header and payload of one frame.
  function FrameSends(script: seq<Outcome>, errno: int, kind: bv8, payload: seq<bv8>): Sending {
    var h := Header(kind, |payload|);
    var w, rest := HeaderWrite(script, |h|), if script == [] then [] else script[1..];
    if w < 0 then Sending([], false, false, rest, errno)
    else
      var t := Writen(rest, errno, |payload|);
      Sending(h[..w] + payload[..t.moved], t.ok, w == |h|, t.rest, t.errno)
  }

  function Sends(script: seq<Outcome>, errno: int, kind: bv8, payloads: seq<seq<bv8>>): Sending
    decreases |payloads|
  {
    if payloads == [] then Sending([], true, true, script, errno)
    else
      var f := FrameSends(script, errno, kind, payloads[0]);
      if !f.ok then f
      else
        var r := Sends(f.rest, f.errno, kind, payloads[1..]);
        r.(bytes := f.bytes + r.bytes, whole := f.whole && r.whole)
  }

  // The kernel takes each header in one write and finally takes each payload, in
  // whatever pieces and with whatever interruptions.
  predicate Delivers(script: seq<Outcome>, errno: int, kind: bv8, payloads: seq<seq<bv8>>)
    decreases |payloads|
  {
    payloads == [] ||
    (HeaderWrite(script, |Header(kind, |payloads[0]|)|) == |Header(kind, |payloads[0]|)| &&
     var t := Writen(if script == [] then [] else script[1..], errno, |payloads[0]|);
     t.ok && Delivers(t.rest, t.errno, kind, payloads[1..]))
  }

  lemma FrameSendsWhole(script: seq<Outcome>, errno: int, kind: bv8, payload: seq<bv8>)
    ensures var f := FrameSends(script, errno, kind, payload);
      && (f.ok && f.whole ==> f.bytes == FrameBytes(kind, payload))
      && (f.ok && !f.whole ==> |f.bytes| < |FrameBytes(kind, payload)|)
  {
    var h := Header(kind, |payload|);
    assert h[..|h|] == h && payload[..|payload|] == payload;
  }

  // A successful send is whole exactly when the kernel delivers; then the wire holds
  // the stream, and otherwise it holds less.
  lemma {:induction false} SendsWhole(script: seq<Outcome>, errno: int, kind: bv8, payloads: seq<seq<bv8>>)
    ensures var t := Sends(script, errno, kind, payloads);
      && (t.ok && t.whole <==> Delivers(script, errno, kind, payloads))
      && (t.ok && t.whole ==> t.bytes == StreamBytes(kind, payloads))
      && (t.ok && !t.whole ==> |t.bytes| < |StreamBytes(kind, payloads)|)
    decreases |payloads|
  {
    if payloads != [] {
      FrameSendsWhole(script, errno, kind, payloads[0]);
      var f := FrameSends(script, errno, kind, payloads[0]);
      if f.ok { SendsWhole(f.rest, f.errno, kind, payloads[1..]); }
    }
  }

  // No shorter encoding of a frame parses to it.
  lemma FrameIsShortest(s: seq<bv8>, kind: bv8)
    requires ParseFrame(s).Done?
    ensures var p := ParseFrame(s); p.used >= |FrameBytes(kind, p.frame.payload)|
  {
    var l := ParseLength(s);
    PowerValues();
    if l.extra == 2 { NetworkBound(s[2..4]); }
  }

  lemma {:induction false} NetworkBound(s: seq<bv8>)
    ensures FromNetwork(s) < Power(|s|)
  {
    if s != [] {
      NetworkBound(s[..|s| - 1]);
      ByteRange(s[|s| - 1]);
    }
  }

  // Fewer bytes than the stream of these payloads never parse to them.
  lemma {:induction false} ShortNeverParses(s: seq<bv8>, kind: bv8, payloads: seq<seq<bv8>>)
    requires |s| < |StreamBytes(kind, payloads)|
    ensures ParseStream(s) != Frames(SentFrames(kind, payloads))
    decreases |payloads|
  {
    if s != [] && ParseFrame(s).Done? && ParseFrame(s).frame == SentFrames(kind, payloads)[0] {
      FrameIsShortest(s, kind);
      ShortNeverParses(s[ParseFrame(s).used..], kind, payloads[1..]);
      SentFirst(kind, payloads);
      TailDiffers(ParseFrame(s).frame, ParseStream(s[ParseFrame(s).used..]), SentFrames(kind, payloads[1..]));
    }
  }

  lemma TailDiffers(f: Frame, rest: Stream, tail: seq<Frame>)
    requires rest != Frames(tail)
    ensures rest.Frames? ==> [f] + rest.frames != [f] + tail
  {
    if rest.Frames? {
      assert ([f] + rest.frames)[1..] == rest.frames && ([f] + tail)[1..] == tail;
    }
  }

  // What a successful send put on the wire parses back to the payloads exactly when
  // every header got through whole.
  lemma SentStreamParsesIff(script: seq<Outcome>, errno: int, kind: bv8, payloads: seq<seq<bv8>>)
    requires kind & 0x70 == 0 && Lengths(payloads) && Sends(script, errno, kind, payloads).ok
    ensures ParseStream(Sends(script, errno, kind, payloads).bytes) == Frames(SentFrames(kind, payloads))
      <==> Delivers(script, errno, kind, payloads)
  {
    var t := Sends(script, errno, kind, payloads);
    SendsWhole(script, errno, kind, payloads);
    if t.whole { StreamParses(kind, payloads); } else { ShortNeverParses(t.bytes, kind, payloads); }
  }

  // One byte of the header is taken, the send reports success, and the stream is
  // broken.
  lemma ShortHeaderHappens()
    ensures var t := Sends([Moves(1)], 0, 1, [[65]]);
      t.ok && t.bytes == [0x81, 65] && ParseStream(t.bytes) != Frames(SentFrames(1, [[65]]))
  {
    var script, payloads := [Moves(1)], [[65 as bv8]];
    var h := Header(1, 1);
    assert (0x80 as bv8) | 1 == 0x81;
    assert HeaderWrite(script, |h|) == 1 && h[..1] == [0x81];
    assert script[1..] == [] && Writen([], 0, 1) == Transfer(1, true, [], 0);
    assert FrameSends(script, 0, 1, [65]) == Sending([0x81, 65], true, false, [], 0);
    assert payloads[1..] == [] && payloads[0] == [65];
    assert Sends([], 0, 1, payloads[1..]) == Sending([], true, true, [], 0);
    SendsWhole(script, 0, 1, payloads);
    ShortNeverParses([0x81, 65], 1, payloads);
  }

  // With done on the wire, sending the payloads from i on does what t says.
  predicate Ahead(t: Sending, done: seq<bv8>, script: seq<Outcome>, errno: int, kind: bv8, payloads: seq<seq<bv8>>, i: nat)
    requires i <= |payloads|
  {
    var r := Sends(script, errno, kind, payloads[i..]);
    t.ok == r.ok && t.bytes == done + r.bytes
  }

  lemma AheadStep(t: Sending, done: seq<bv8>, script: seq<Outcome>, errno: int, kind: bv8, payloads: seq<seq<bv8>>, i: nat)
    requires i < |payloads| && Ahead(t, done, script, errno, kind, payloads, i)
    ensures var f := FrameSends(script, errno, kind, payloads[i]);
      if f.ok then Ahead(t, done + f.bytes, f.rest, f.errno, kind, payloads, i + 1) else !t.ok && t.bytes == done + f.bytes
  {
    var f := FrameSends(script, errno, kind, payloads[i]);
    assert payloads[i..][1..] == payloads[i + 1..];
    if f.ok { Associate(done, f.bytes, Sends(f.rest, f.errno, kind, payloads[i + 1..]).bytes); }
  }

  // Header and payload of one frame. ok is false when the process ended.
  method SendFrame(fd: Descriptor, kind: bv8, payload: seq<bv8>) returns (ok: bool)
    requires |payload| < WORD * WORD
    modifies fd
    ensures var f := FrameSends(old(fd.script), old(fd.errno), kind, payload);
      && ok == f.ok && fd.wire == old(fd.wire) + f.bytes
      && (ok ==> fd.script == f.rest && fd.errno == f.errno)
  {
    ghost var before, h, w := fd.wire, Header(kind, |payload|), HeaderWrite(fd.script, |Header(kind, |payload|)|);
    ok := SendWebSocketHeader(fd, kind, |payload|);
    if !ok {
      return;
    }
    ghost var t := Writen(fd.script, fd.errno, |payload|);
    var n := RioWriten(fd, payload);
    ok := n == |payload|;
    Associate(before, h[..w], payload[..t.moved]);
  }

  ghost predicate Arrives(sent: seq<bv8>, kind: bv8, payloads: seq<seq<bv8>>) {
    ParseStream(sent) == Frames(SentFrames(kind, payloads))
  }

  lemma WireParsesIff(wire: seq<bv8>, script: seq<Outcome>, errno: int, kind: bv8, payloads: seq<seq<bv8>>)
    requires Sends(script, errno, kind, payloads).ok
    ensures kind & 0x70 == 0 && Lengths(payloads) ==>
      (Arrives((wire + Sends(script, errno, kind, payloads).bytes)[|wire|..], kind, payloads)
       <==> Delivers(script, errno, kind, payloads))
  {
    assert (wire + Sends(script, errno, kind, payloads).bytes)[|wire|..] == Sends(script, errno, kind, payloads).bytes;
    if kind & 0x70 == 0 && Lengths(payloads) { SentStreamParsesIff(script, errno, kind, payloads); }
  }

  // The send part of the display loop for one payload after the other.
  method SendAll(fd: Descriptor, kind: bv8, payloads: seq<seq<bv8>>) returns (ok: bool)
    requires forall i :: 0 <= i < |payloads| ==> |payloads[i]| < WORD * WORD
    modifies fd
    ensures var t := Sends(old(fd.script), old(fd.errno), kind, payloads);
      ok == t.ok && fd.wire == old(fd.wire) + t.bytes
    ensures ok && kind & 0x70 == 0 && Lengths(payloads) ==>
      (Arrives(fd.wire[|old(fd.wire)|..], kind, payloads)
       <==> Delivers(old(fd.script), old(fd.errno), kind, payloads))
  {
    var i := 0;
    ok := true;
    ghost var t, done := Sends(fd.script, fd.errno, kind, payloads), [];
    assert payloads[0..] == payloads;
    while i < |payloads|
      invariant i <= |payloads| && ok
      invariant fd.wire == old(fd.wire) + done
      invariant Ahead(t, done, fd.script, fd.errno, kind, payloads, i)
    {
      ghost var f := FrameSends(fd.script, fd.errno, kind, payloads[i]);
      AheadStep(t, done, fd.script, fd.errno, kind, payloads, i);
      Associate(old(fd.wire), done, f.bytes);
      ok := SendFrame(fd, kind, payloads[i]);
      if !ok {
        return;
      }
      done := done + f.bytes;
      i := i + 1;
    }
    assert payloads[i..] == [] && done + [] == done;
    WireParsesIff(old(fd.wire), old(fd.script), old(fd.errno), kind, payloads);
  }

  // ------------------------------------------------------------ client frames

  const CLOSE_CODE: bv8 := 0x8

  // Masking is its own inverse.
  lemma MaskTwice(payload: seq<bv8>, key: seq<bv8>)
    requires |key| == 4
    ensures Masked(Masked(payload, key), key) == payload
  {
    forall i | 0 <= i < |payload| ensures Masked(Masked(payload, key), key)[i] == payload[i] {
      XorTwice(payload[i], key[i % 4]);
    }
  }

  lemma XorTwice(a: bv8, k: bv8)
    ensures a ^ k ^ k == a
  {
  }

  // A client's frame with a payload of less than 126 bytes (section 5.2).
  function ClientFrame(first: bv8, key: seq<bv8>, payload: seq<bv8>): (r: seq<bv8>)
    requires |key| == 4 && |payload| < 126
    ensures |r| == 6 + |payload|
  {
    [first, 0x80 | (|payload| as bv8)] + key + Masked(payload, key)
  }

  lemma MaskedLengthByte(len: nat)
    requires len < 126
    ensures (0x80 | (len as bv8)) & 0x80 != 0 && (0x80 | (len as bv8)) & 0x7F == len as bv8
    ensures (len as bv8) as nat == len
  {
    LengthByte(len);
  }

  lemma MaskedFrame(s: seq<bv8>, n: nat)
    requires |s| >= 6 + n && s[0] & 0x70 == 0 && s[1] & 0x80 != 0 && (s[1] & 0x7F) as nat == n < 126
    ensures ParseFrame(s)
         == Done(Frame(s[0] & 0x80 != 0, s[0] & 0x0F, Masked(s[6..6 + n], s[2..6])), 6 + n)
  {
  }

  lemma FourParts(a: bv8, b: bv8, key: seq<bv8>, body: seq<bv8>, rest: seq<bv8>)
    requires |key| == 4
    ensures var s := [a, b] + key + body + rest;
      && |s| >= 6 + |body| && s[0] == a && s[1] == b && s[2..6] == key && s[6..6 + |body|] == body
  {
  }

  lemma MaskedFrameParses(s: seq<bv8>, first: bv8, second: bv8, key: seq<bv8>, body: seq<bv8>, rest: seq<bv8>)
    requires s == [first, second] + key + body + rest && |key| == 4
    requires first & 0x70 == 0 && second & 0x80 != 0 && (second & 0x7F) as nat == |body| < 126
    ensures ParseFrame(s) == Done(Frame(first & 0x80 != 0, first & 0x0F, Masked(body, key)), 6 + |body|)
  {
    FourParts(first, second, key, body, rest);
    MaskedFrame(s, |body|);
  }

  // The masked "Hello" of section 5.7.
  lemma HelloParses()
    ensures ParseFrame([0x81, 0x85, 0x37, 0xFA, 0x21, 0x3D, 0x7F, 0x9F, 0x4D, 0x51, 0x58])
         == Done(Frame(true, 1, [0x48, 0x65, 0x6C, 0x6C, 0x6F]), 11)
  {
    HelloBits();
    HelloUnmasks();
    MaskedFrameParses([0x81, 0x85, 0x37, 0xFA, 0x21, 0x3D, 0x7F, 0x9F, 0x4D, 0x51, 0x58], 0x81, 0x85,
                      [0x37, 0xFA, 0x21, 0x3D], [0x7F, 0x9F, 0x4D, 0x51, 0x58], []);
  }

  lemma HelloBits()
    ensures (0x85 as bv8) & 0x7F == 5 && (5 as bv8) as nat == 5 && (0x85 as bv8) & 0x80 != 0
    ensures (0x81 as bv8) & 0x70 == 0 && (0x81 as bv8) & 0x80 != 0 && (0x81 as bv8) & 0x0F == 1
  {
  }

  lemma HelloUnmasks()
    ensures Masked([0x7F, 0x9F, 0x4D, 0x51, 0x58], [0x37, 0xFA, 0x21, 0x3D]) == [0x48, 0x65, 0x6C, 0x6C, 0x6F]
  {
    assert (0x7F as bv8) ^ 0x37 == 0x48 && (0x9F as bv8) ^ 0xFA == 0x65 && (0x4D as bv8) ^ 0x21 == 0x6C;
    assert (0x51 as bv8) ^ 0x3D == 0x6C && (0x58 as bv8) ^ 0x37 == 0x6F;
  }

  lemma ClientFrameParses(first: bv8, key: seq<bv8>, payload: seq<bv8>, rest: seq<bv8>)
    requires |key| == 4 && |payload| < 126 && first & 0x70 == 0
    ensures ParseFrame(ClientFrame(first, key, payload) + rest)
         == Done(Frame(first & 0x80 != 0, first & 0x0F, payload), 6 + |payload|)
  {
    MaskedLengthByte(|payload|);
    MaskTwice(payload, key);
    MaskedFrameParses(ClientFrame(first, key, payload) + rest, first, 0x80 | (|payload| as bv8), key,
                      Masked(payload, key), rest);
  }

  // What getPocketDataSize stores for a length field: for the long forms it reads
  // the two bytes at data + 1, which include the length byte itself.
  function SizeField(data: seq<bv8>): nat
    requires |data| >= 2 && ((data[1] & 0x7F) as nat >= 126 ==> |data| >= 3)
  {
    var l := (data[1] & 0x7F) as nat;
    if l < 126 then l
    else if l == 126 then Swapped(FromStored(data[1..3]), 2)
    else Swapped(FromStored(data[1..3]), 8) % WORD
  }

  lemma TwoStored(a: bv8, b: bv8)
    ensures FromStored([a, b]) == a as nat + 256 * b as nat < 0x1_0000
  {
    ByteRange(a);
    ByteRange(b);
    assert [a, b][1..] == [b] && [b][1..] == [];
    assert FromStored([b]) == b as nat + 256 * FromStored([]);
  }

  lemma NetworkOfDigits(x: nat, a: nat, b: nat)
    requires x % 256 == a && x / 256 % 256 == b
    ensures Network(x, 2) == [b as bv8, a as bv8]
  {
    TwoBytes(x, 0);
  }

  lemma NetworkOfPair(a: nat, b: nat)
    requires a < 256 && b < 256
    ensures Network(a + 256 * b, 2) == [b as bv8, a as bv8]
  {
    Digits(a, b);
    NetworkOfDigits(a + 256 * b, a, b);
  }

  lemma NetworkOfStored(a: bv8, b: bv8)
    ensures Network(a as nat + 256 * b as nat, 2) == [b, a]
  {
    ByteRange(a);
    ByteRange(b);
    NetworkOfPair(a as nat, b as nat);
  }

  lemma SizeOf126(a: bv8, b: bv8)
    ensures Swapped(FromStored([a, b]), 2) == 256 * a as nat + b as nat
  {
    TwoStored(a, b);
    NetworkOfStored(a, b);
    TwoStored(b, a);
  }

  lemma SwappedZero()
    ensures Swapped(0, 4) == 0
  {
    FourBytes(0);
    TwoStored(0, 0);
    FromStoredAppend([0, 0], [0, 0]);
    assert [0, 0] + [0, 0] == [0, 0, 0, 0];
  }

  lemma SizeOf127(v: nat)
    requires v < 0x1_0000
    ensures Swapped(v, 8) % WORD == 0
  {
    SwappedHalves(v);
    assert v / WORD == 0;
    SwappedZero();
    MultipleOfWord(Swapped(v % WORD, 4));
  }

  lemma MultipleOfWord(x: nat)
    ensures WORD * x % WORD == 0
  {
  }

  // The size the code reads from a masked frame is the one of section 5.2 exactly
  // for 7-bit lengths and for the one 16-bit length whose bytes are both 0xFE.
  lemma SizeFieldIff(data: seq<bv8>)
    requires |data| >= 3 && data[1] & 0x80 != 0 && ParseLength(data).Length?
    ensures SizeField(data) == ParseLength(data).value <==>
      (data[1] & 0x7F) as nat < 126 || (data[1] == 0xFE && data[2] == 0xFE && |data| > 3 && data[3] == 0xFE)
  {
    var l := (data[1] & 0x7F) as nat;
    assert data[1..3] == [data[1], data[2]];
    LongLengthBytes(data[1]);
    if l == 126 {
      SizeOf126(data[1], data[2]);
      assert data[2..4] == [data[2], data[3]];
      NetworkOfTwo(data[2], data[3]);
      ByteRange(data[2]);
      ByteRange(data[3]);
      EqualBytes(data[2], data[3]);
    } else if l == 127 {
      TwoStored(data[1], data[2]);
      SizeOf127(FromStored(data[1..3]));
    }
  }

  // A masked frame of 200 bytes: the code takes its size for 65024.
  lemma LongSizeIsWrong(data: seq<bv8>)
    requires |data| >= 4 && data[1] == 0xFE && data[2] == 0 && data[3] == 200
    ensures ParseLength(data) == Length(2, 200) && SizeField(data) == 65024
  {
    assert data[1..3] == [0xFE, 0] && data[2..4] == [0, 200];
    SizeOf126(0xFE, 0);
    NetworkOfTwo(0, 200);
  }

  lemma LongLengthBytes(b: bv8)
    requires b & 0x80 != 0
    ensures (b & 0x7F) as nat == 126 <==> b == 0xFE
    ensures (b & 0x7F) as nat <= 127
  {
    assert b & 0x7F == 126 <==> b == 0xFE;
  }

  lemma NetworkOfTwo(a: bv8, b: bv8)
    ensures FromNetwork([a, b]) == 256 * a as nat + b as nat
  {
    assert [a, b][..1] == [a] && [a][..0] == [];
    assert FromNetwork([a]) == a as nat;
  }

  lemma EqualBytes(a: bv8, b: bv8)
    ensures 256 * 254 + a as nat == 256 * a as nat + b as nat <==> a == 0xFE && b == 0xFE
  {
    ByteRange(a);
    ByteRange(b);
    assert a as nat == 254 <==> a == 0xFE;
    assert b as nat == 254 <==> b == 0xFE;
  }

  method GetPocketDataSize(data: seq<bv8>) returns (size: nat)
    requires |data| >= 2 && ((data[1] & 0x7F) as nat >= 126 ==> |data| >= 3)
    ensures size == SizeField(data)
  {
    var first := (data[1] & 0x7F) as nat;
    if first < 126 {
      size := first;
    } else if first == 126 {
      size := Swapped(FromStored(data[1..3]), 2);
    } else {
      TwoStored(data[1], data[2]);
      assert data[1..3] == [data[1], data[2]];
      var wide := Ntohll(FromStored(data[1..3]));
      size := wide % WORD;
    }
  }

  method GetMaskKey(data: seq<bv8>, maskKey: array<bv8>)
    requires |data| >= 6 && maskKey.Length == 4
    modifies maskKey
    ensures maskKey[..] == data[2..6]
  {
    var i := 0;
    while i < 4
      invariant i <= 4 && maskKey[..i] == data[2..2 + i]
    {
      maskKey[i] := data[2 + i];
      i := i + 1;
    }
  }

  method TransformData(data: seq<bv8>, len: nat, maskKey: array<bv8>, outBuff: array<bv8>) returns (n: nat)
    requires |data| >= 6 + len && maskKey.Length == 4 && outBuff.Length >= len && maskKey != outBuff
    modifies outBuff
    ensures n == len && outBuff[..len] == Masked(data[6..6 + len], maskKey[..])
    ensures forall i :: 0 <= i < len ==> outBuff[i] == data[6 + i] ^ maskKey[i % 4]
    ensures outBuff[len..] == old(outBuff[len..])
  {
    ghost var plain := Masked(data[6..6 + len], maskKey[..]);
    var i := 0;
    while i < len
      invariant i <= len && outBuff[..i] == plain[..i]
      invariant outBuff[len..] == old(outBuff[len..])
    {
      var j := i % 4;
      outBuff[i] := data[6 + i] ^ maskKey[j];
      assert outBuff[i] == plain[i];
      assert outBuff[..i + 1] == outBuff[..i] + [outBuff[i]];
      i := i + 1;
    }
    forall k | 0 <= k < len ensures outBuff[k] == data[6 + k] ^ maskKey[k % 4] {
      assert outBuff[..len][k] == plain[k];
    }
    return len;
  }

  lemma SevenBitParse(data: seq<bv8>)
    requires |data| >= 2 && data[1] & 0x80 != 0 && data[0] & 0x70 == 0 && (data[1] & 0x7F) as nat < 126
    requires |data| >= 6 + (data[1] & 0x7F) as nat
    ensures var n := (data[1] & 0x7F) as nat;
      ParseFrame(data) == Done(Frame(data[0] & 0x80 != 0, data[0] & 0x0F, Masked(data[6..6 + n], data[2..6])), 6 + n)
  {
  }

  // -1 exactly for frames that are not masked or close the connection. For a 7-bit
  // length the result is the payload of the frame of section 5.2.
  method GetPocketData(data: seq<bv8>, outBuff: array<bv8>) returns (r: int)
    requires |data| >= 2
    requires data[1] & 0x80 != 0 && data[0] & 0x0F != CLOSE_CODE ==>
      |data| >= 6 && |data| >= 6 + SizeField(data) && outBuff.Length >= SizeField(data)
    modifies outBuff
    ensures r == -1 <==> data[1] & 0x80 == 0 || data[0] & 0x0F == 0x8
    ensures r == -1 ==> outBuff[..] == old(outBuff[..])
    ensures r != -1 ==> r == SizeField(data) && outBuff[..r] == Masked(data[6..6 + r], data[2..6])
    ensures r != -1 && (data[1] & 0x7F) as nat < 126 && data[0] & 0x70 == 0 ==>
      ParseFrame(data).Done? && r == |ParseFrame(data).frame.payload| && outBuff[..r] == ParseFrame(data).frame.payload
    ensures r != -1 ==> outBuff[r..] == old(outBuff[r..])
  {
    if data[1] & 0x80 == 0 {
      return -1;
    }
    if data[0] & 0x0F == CLOSE_CODE {
      return -1;
    }
    var size := GetPocketDataSize(data);
    var maskKey := new bv8[4];
    GetMaskKey(data, maskKey);
    r := TransformData(data, size, maskKey, outBuff);
    if (data[1] & 0x7F) as nat < 126 && data[0] & 0x70 == 0 { SevenBitParse(data); }
  }
}
