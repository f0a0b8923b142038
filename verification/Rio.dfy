/** rio_writen and rio_readn of common.c over a file descriptor whose system calls
    may be short or interrupted. */
module Rio {
  import opened Bytes
  import opened Sequences

  const EINTR: int := 4

  // What the kernel does with one call: move up to k bytes, or fail.
  datatype Outcome = Moves(k: nat) | Fails(errno: int)

  function Min(a: nat, b: nat): nat {
    if a < b then a else b
  }

  // A descriptor with the kernel's plan for the coming calls; after the plan every
  // call moves as much as it can.
  class Descriptor {
    var script: seq<Outcome>
    var errno: int
    var wire: seq<byte>      // written so far
    var incoming: seq<byte>  // not read yet, up to the end of the file

    // write(2); a call may also move nothing and leave errno alone.
    method Write(buf: seq<byte>) returns (r: int)
      requires buf != []
      modifies this
      ensures incoming == old(incoming)
      ensures -1 <= r <= |buf| && wire == old(wire) + buf[..if r < 0 then 0 else r]
      ensures script == if old(script) == [] then [] else old(script)[1..]
      ensures old(script) == [] ==> r == |buf| && errno == old(errno)
      ensures old(script) != [] && old(script)[0].Moves? ==> r == Min(old(script)[0].k, |buf|) && errno == old(errno)
      ensures old(script) != [] && old(script)[0].Fails? ==> r == -1 && errno == old(script)[0].errno
    {
      r := |buf|;
      if script != [] {
        match script[0] {
          case Moves(k) => r := Min(k, |buf|);
          case Fails(e) => r, errno := -1, e;
        }
        script := script[1..];
      }
      wire := wire + buf[..if r < 0 then 0 else r];
    }

    // read(2) of up to n bytes; it moves nothing only at the end of the file.
    method Read(n: nat) returns (r: int, bytes: seq<byte>)
      requires n > 0
      modifies this
      ensures wire == old(wire)
      ensures script == if old(script) == [] then [] else old(script)[1..]
      ensures -1 <= r <= n && |bytes| == if r < 0 then 0 else r
      ensures old(incoming) == bytes + incoming
      ensures old(script) == [] ==> r == Min(n, |old(incoming)|)
      ensures old(script) != [] && old(script)[0].Moves? ==>
        r == Min(if old(script)[0].k == 0 then 1 else old(script)[0].k, Min(n, |old(incoming)|))
      ensures r == -1 <==> old(script) != [] && old(script)[0].Fails?
      ensures errno == if r == -1 then old(script)[0].errno else old(errno)
    {
      var m := Min(n, |incoming|);
      r, bytes := m, incoming[..m];
      if script != [] {
        match script[0] {
          case Moves(k) =>
            m := Min(if k == 0 then 1 else k, m);
            r, bytes := m, incoming[..m];
          case Fails(e) => r, bytes, errno := -1, [], e;
        }
        script := script[1..];
      }
      incoming := incoming[|bytes|..];
    }
  }

  // ------------------------------------------------------------------ writing

  // How many bytes get through, whether none of the calls is fatal, and what the
  // descriptor is left with.
  datatype Transfer = Transfer(moved: nat, ok: bool, rest: seq<Outcome>, errno: int)

  function Writen(script: seq<Outcome>, errno: int, n: nat): (t: Transfer)
    ensures t.moved <= n && (t.ok <==> t.moved == n)
    ensures |t.rest| <= |script|
    decreases |script|
  {
    if n == 0 then Transfer(0, true, script, errno)
    else if script == [] then Transfer(n, true, [], errno)
    else match script[0]
      case Moves(k) =>
        // a call that moves nothing counts as failed; errno is from an earlier call
        if k == 0 && errno != EINTR then Transfer(0, false, script[1..], errno)
        else var t := Writen(script[1..], errno, n - Min(k, n)); t.(moved := Min(k, n) + t.moved)
      case Fails(e) =>
        if e == EINTR then Writen(script[1..], e, n) else Transfer(0, false, script[1..], e)
  }

  // Short and interrupted calls only.
  predicate Harmless(script: seq<Outcome>) {
    forall o :: o in script ==> o == Fails(EINTR) || (o.Moves? && 0 < o.k)
  }

  lemma {:induction false} HarmlessWritesAll(script: seq<Outcome>, errno: int, n: nat)
    requires Harmless(script)
    ensures var t := Writen(script, errno, n); t.ok && t.moved == n && Harmless(t.rest)
    decreases |script|
  {
    if n > 0 && script != [] {
      assert script[0] in script;
      match script[0]
      case Moves(k) => HarmlessWritesAll(script[1..], errno, n - Min(k, n));
      case Fails(e) => HarmlessWritesAll(script[1..], e, n);
    }
  }

  // The bytes the first i calls move, and errno after them, if none of them is fatal.
  function Sum(script: seq<Outcome>, i: nat): nat
    requires i <= |script|
  {
    if i == 0 then 0 else (if script[0].Moves? then script[0].k else 0) + Sum(script[1..], i - 1)
  }

  function Errno(script: seq<Outcome>, errno: int, i: nat): int
    requires i <= |script|
  {
    if i == 0 then errno else Errno(script[1..], if script[0].Fails? then script[0].errno else errno, i - 1)
  }

  // The call is reached with bytes left to write, and ends the transfer.
  predicate StopsWrite(script: seq<Outcome>, errno: int, n: nat, i: nat) {
    && i < |script| && Sum(script, i) < n
    && match script[i]
       case Fails(e) => e != 4
       case Moves(k) => k == 0 && Errno(script, errno, i) != 4
  }

  lemma StopsLater(script: seq<Outcome>, errno: int, n: nat, i: nat)
    requires 0 < i <= |script|
    ensures var moved, e := if script[0].Moves? then script[0].k else 0, if script[0].Fails? then script[0].errno else errno;
      StopsWrite(script, errno, n, i) <==> moved < n && StopsWrite(script[1..], e, n - moved, i - 1)
  {
  }

  // rio_writen fails exactly if, before n bytes are moved, a call fails with another
  // error than EINTR (which is 4), or moves nothing while errno is another.
  lemma {:induction false} WriteFailsIff(script: seq<Outcome>, errno: int, n: nat)
    ensures !Writen(script, errno, n).ok <==> exists i :: StopsWrite(script, errno, n, i)
    decreases |script|
  {
    if n > 0 && script != [] {
      var moved, e := if script[0].Moves? then script[0].k else 0, if script[0].Fails? then script[0].errno else errno;
      var rest := n - Min(moved, n);
      WriteFailsIff(script[1..], e, rest);
      if i: nat :| StopsWrite(script, errno, n, i) && 0 < i {
        StopsLater(script, errno, n, i);
        assert StopsWrite(script[1..], e, rest, i - 1);
      }
      if j: nat :| StopsWrite(script[1..], e, rest, j) {
        StopsLater(script, errno, n, j + 1);
        assert StopsWrite(script, errno, n, j + 1);
      }
      assert StopsWrite(script, errno, n, 0) <==>
             (script[0].Fails? && e != 4) || (script[0].Moves? && moved == 0 && errno != 4);
    }
  }

  // A broken pipe: nothing is sent and the write fails.
  lemma BrokenPipeFails()
    ensures !Writen([Fails(32)], 0, 5).ok && Writen([Fails(32)], 0, 5).moved == 0
  {
  }

  // With done bytes written the rest of the call does what t says.
  predicate Writing(t: Transfer, done: nat, script: seq<Outcome>, errno: int, nleft: nat) {
    t == var u := Writen(script, errno, nleft); u.(moved := done + u.moved)
  }

  // The bytes on the wire are a prefix of buf, and all of it exactly when n is returned.
  method RioWriten(fd: Descriptor, buf: seq<byte>) returns (r: int)
    modifies fd
    ensures var t := Writen(old(fd.script), old(fd.errno), |buf|);
      && fd.wire == old(fd.wire) + buf[..t.moved] && r == (if t.ok then |buf| else -1)
      && fd.script == t.rest && fd.errno == t.errno
    ensures fd.incoming == old(fd.incoming)
  {
    ghost var t := Writen(fd.script, fd.errno, |buf|);
    var nleft := |buf|;
    while nleft > 0
      invariant 0 <= nleft <= |buf| && fd.wire == old(fd.wire) + buf[..|buf| - nleft]
      invariant fd.incoming == old(fd.incoming)
      invariant Writing(t, |buf| - nleft, fd.script, fd.errno, nleft)
      decreases |fd.script|, nleft
    {
      ghost var done := |buf| - nleft;
      var nwritten := fd.Write(buf[|buf| - nleft..]);
      if nwritten <= 0 {
        if fd.errno == EINTR {
          nwritten := 0;
        } else {
          return -1;
        }
      }
      assert buf[..done] + buf[done..][..nwritten] == buf[..done + nwritten];
      nleft := nleft - nwritten;
    }
    return |buf|;
  }

  // ------------------------------------------------------------------ reading

  // How many bytes of a file with avail bytes left get through.
  function Readn(script: seq<Outcome>, errno: int, n: nat, avail: nat): (t: Transfer)
    ensures t.moved <= n && t.moved <= avail && (t.ok ==> t.moved == Min(n, avail))
    decreases |script|
  {
    if n == 0 then Transfer(0, true, script, errno)
    else if script == [] then Transfer(Min(n, avail), true, [], errno)
    else match script[0]
      case Moves(k) =>
        var m := Min(if k == 0 then 1 else k, Min(n, avail));
        if m == 0 then Transfer(0, true, script[1..], errno)
        else var t := Readn(script[1..], errno, n - m, avail - m); t.(moved := m + t.moved)
      case Fails(e) =>
        if e == EINTR then Readn(script[1..], e, n, avail) else Transfer(0, false, script[1..], e)
  }

  lemma {:induction false} HarmlessReadsAll(script: seq<Outcome>, errno: int, n: nat, avail: nat)
    requires Harmless(script)
    ensures var t := Readn(script, errno, n, avail); t.ok && t.moved == Min(n, avail)
    decreases |script|
  {
    if n > 0 && script != [] {
      assert script[0] in script;
      match script[0]
      case Moves(k) =>
        var m := Min(k, Min(n, avail));
        if m > 0 { HarmlessReadsAll(script[1..], errno, n - m, avail - m); }
      case Fails(e) => HarmlessReadsAll(script[1..], e, n, avail);
    }
  }

  // What the first i calls would read, if none of them is fatal.
  function ReadSum(script: seq<Outcome>, i: nat): nat
    requires i <= |script|
  {
    if i == 0 then 0
    else (if script[0].Fails? then 0 else if script[0].k == 0 then 1 else script[0].k) + ReadSum(script[1..], i - 1)
  }

  // The call is reached: bytes are wanted, and no earlier call met the end of the file.
  predicate StopsRead(script: seq<Outcome>, n: nat, avail: nat, i: nat) {
    && i < |script| && Min(ReadSum(script, i), avail) < n && script[i].Fails? && script[i].errno != 4
    && (forall j :: 0 <= j < i ==> NotAtEnd(script, avail, j))
  }

  predicate NotAtEnd(script: seq<Outcome>, avail: nat, j: nat) {
    j < |script| && (script[j].Moves? ==> ReadSum(script, j) < avail)
  }

  ghost predicate ReadStops(script: seq<Outcome>, n: nat, avail: nat) {
    exists i :: StopsRead(script, n, avail, i)
  }

  // How much the first call moves if it is not fatal and n is large.
  function FirstRead(script: seq<Outcome>, avail: nat): (m: nat)
    requires script != []
    ensures m <= avail
  {
    if script[0].Fails? then 0 else Min(if script[0].k == 0 then 1 else script[0].k, avail)
  }

  lemma NotAtEndLater(script: seq<Outcome>, avail: nat, j: nat)
    requires script != []
    ensures NotAtEnd(script, avail, j + 1) <==> NotAtEnd(script[1..], avail - FirstRead(script, avail), j)
  {
  }

  lemma StopsReadLater(script: seq<Outcome>, n: nat, avail: nat, i: nat)
    requires i < |script| && FirstRead(script, avail) <= n
    ensures var m := FirstRead(script, avail);
      StopsRead(script, n, avail, i + 1)
      <==> (script[0].Moves? ==> 0 < avail) && StopsRead(script[1..], n - m, avail - m, i)
  {
    var m := FirstRead(script, avail);
    var tail, wanted, left := script[1..], n - m, avail - m;
    assert NotAtEnd(script, avail, 0) <==> (script[0].Moves? ==> 0 < avail);
    if StopsRead(script, n, avail, i + 1) {
      forall j | 0 <= j < i ensures NotAtEnd(tail, left, j) {
        assert NotAtEnd(script, avail, j + 1);
        NotAtEndLater(script, avail, j);
      }
    }
    if StopsRead(tail, wanted, left, i) && (script[0].Moves? ==> 0 < avail) {
      forall j | 0 <= j < i + 1 ensures NotAtEnd(script, avail, j) {
        if j > 0 {
          assert NotAtEnd(tail, left, j - 1);
          NotAtEndLater(script, avail, j - 1);
        }
      }
    }
  }

  // rio_readn fails exactly if a call that is reached fails with another error than
  // EINTR.
  lemma {:induction false} ReadFailsIff(script: seq<Outcome>, errno: int, n: nat, avail: nat)
    ensures !Readn(script, errno, n, avail).ok <==> ReadStops(script, n, avail)
    decreases |script|
  {
    if n > 0 && script != [] {
      var m := Min(FirstRead(script, avail), n);
      ReadFailsIff(script[1..], if script[0].Fails? then script[0].errno else errno, n - m, avail - m);
      FirstCallDecides(script, n, avail);
    }
  }

  lemma FirstCallDecides(script: seq<Outcome>, n: nat, avail: nat)
    requires script != [] && n > 0
    ensures var m := Min(FirstRead(script, avail), n);
      ReadStops(script, n, avail)
      <==> (script[0].Fails? && script[0].errno != 4) ||
           ((script[0].Moves? ==> 0 < avail) && ReadStops(script[1..], n - m, avail - m))
  {
    var m := Min(FirstRead(script, avail), n);
    var tail, wanted, left := script[1..], n - m, avail - m;
    if i: nat :| StopsRead(script, n, avail, i) && 0 < i {
      FirstReadIsLess(script, n, avail, i);
      StopsReadLater(script, n, avail, i - 1);
      assert StopsRead(tail, wanted, left, i - 1);
    }
    if j: nat :| StopsRead(tail, wanted, left, j) && (script[0].Moves? ==> 0 < avail) {
      StopsReadLater(script, n, avail, j);
      assert StopsRead(script, n, avail, j + 1);
    }
    assert StopsRead(script, n, avail, 0) <==> script[0].Fails? && script[0].errno != 4;
  }

  lemma FirstReadIsLess(script: seq<Outcome>, n: nat, avail: nat, i: nat)
    requires StopsRead(script, n, avail, i) && 0 < i
    ensures FirstRead(script, avail) < n && NotAtEnd(script, avail, 0)
  {
  }

  lemma Split(whole: seq<byte>, a: seq<byte>, b: seq<byte>)
    requires whole == a + b
    ensures whole[..|a|] == a && whole[|a|..] == b
  {
  }

  method CopyIn(buf: array<byte>, at: nat, bytes: seq<byte>)
    requires at + |bytes| <= buf.Length
    modifies buf
    ensures buf[..at + |bytes|] == old(buf[..at]) + bytes
    ensures buf[at + |bytes|..] == old(buf[at + |bytes|..])
  {
    forall i | 0 <= i < |bytes| { buf[at + i] := bytes[i]; }
  }

  // What remains to be read after a call that returned r and left the other values.
  predicate ReadsOn(t: Transfer, r: int, script: seq<Outcome>, errno: int, nleft: nat, avail: nat) {
    if r > 0 then r <= nleft && t == var u := Readn(script, errno, nleft - r, avail); u.(moved := r + u.moved)
    else if r == 0 then t == Transfer(0, true, script, errno) && avail == 0
    else if errno == EINTR then t == Readn(script, errno, nleft, avail)
    else t == Transfer(0, false, script, errno)
  }

  method ReadSome(fd: Descriptor, nleft: nat) returns (nread: int, bytes: seq<byte>)
    requires 0 < nleft
    modifies fd
    ensures nread <= nleft && fd.wire == old(fd.wire) && |fd.script| <= |old(fd.script)|
    ensures nread < 0 ==> |fd.script| < |old(fd.script)|
    ensures |bytes| == (if nread < 0 then 0 else nread) && old(fd.incoming) == bytes + fd.incoming
    ensures ReadsOn(Readn(old(fd.script), old(fd.errno), nleft, |old(fd.incoming)|), nread,
                    fd.script, fd.errno, nleft, |fd.incoming|)
  {
    nread, bytes := fd.Read(nleft);
  }

  // One read system call into the caller's buffer at position at.
  method ReadInto(fd: Descriptor, buf: array<byte>, at: nat, nleft: nat) returns (nread: int)
    requires 0 < nleft && at + nleft <= buf.Length
    modifies fd, buf
    ensures nread <= nleft && fd.wire == old(fd.wire) && |fd.script| <= |old(fd.script)|
    ensures nread < 0 ==> |fd.script| < |old(fd.script)|
    ensures buf[at + nleft..] == old(buf[at + nleft..])
    ensures buf[..at + if nread < 0 then 0 else nread] + fd.incoming == old(buf[..at]) + old(fd.incoming)
    ensures ReadsOn(Readn(old(fd.script), old(fd.errno), nleft, |old(fd.incoming)|), nread,
                    fd.script, fd.errno, nleft, |fd.incoming|)
  {
    var bytes: seq<byte>;
    nread, bytes := ReadSome(fd, nleft);
    CopyIn(buf, at, bytes);
    assert buf[at + nleft..] == buf[at + |bytes|..][nleft - |bytes|..];
    Associate(old(buf[..at]), bytes, fd.incoming);
  }

  // With done bytes read the rest of the call does what t says.
  predicate Reading(t: Transfer, done: nat, script: seq<Outcome>, errno: int, nleft: nat, avail: nat) {
    t == var u := Readn(script, errno, nleft, avail); u.(moved := done + u.moved)
  }

  lemma ReadingOn(t: Transfer, done: nat, s: seq<Outcome>, e: int, nleft: nat, avail: nat,
                  r: int, script: seq<Outcome>, errno: int, left: nat)
    requires Reading(t, done, s, e, nleft, avail) && ReadsOn(Readn(s, e, nleft, avail), r, script, errno, nleft, left)
    ensures r > 0 ==> Reading(t, done + r, script, errno, nleft - r, left)
    ensures r < 0 && errno == EINTR ==> Reading(t, done, script, errno, nleft, left)
    ensures r == 0 ==> t == Transfer(done, true, script, errno) && left == 0
    ensures r < 0 && errno != EINTR ==> t == Transfer(done, false, script, errno)
  {
  }

  // The buffer holds the moved bytes in order. Without an error fewer than n of them
  // mean that the file ended.
  method RioReadn(fd: Descriptor, buf: array<byte>, n: nat) returns (r: int)
    requires n <= buf.Length
    modifies fd, buf
    ensures fd.wire == old(fd.wire) && buf[n..] == old(buf[n..])
    ensures var t := Readn(old(fd.script), old(fd.errno), n, |old(fd.incoming)|);
      && r == (if t.ok then t.moved else -1) && fd.script == t.rest && fd.errno == t.errno
      && buf[..t.moved] == old(fd.incoming)[..t.moved] && fd.incoming == old(fd.incoming)[t.moved..]
    ensures 0 <= r < n ==> fd.incoming == []
  {
    ghost var t, input := Readn(fd.script, fd.errno, n, |fd.incoming|), fd.incoming;
    var nleft := n;
    while nleft > 0
      invariant 0 <= nleft <= n
      invariant fd.wire == old(fd.wire) && buf[n..] == old(buf[n..])
      invariant buf[..n - nleft] + fd.incoming == input
      invariant Reading(t, n - nleft, fd.script, fd.errno, nleft, |fd.incoming|)
      decreases |fd.script|, nleft
    {
      ghost var s, e, avail := fd.script, fd.errno, |fd.incoming|;
      var nread := ReadInto(fd, buf, n - nleft, nleft);
      ReadingOn(t, n - nleft, s, e, nleft, avail, nread, fd.script, fd.errno, |fd.incoming|);
      if nread < 0 {
        if fd.errno == EINTR {
          nread := 0;
        } else {
          Split(input, buf[..n - nleft], fd.incoming);
          return -1;
        }
      } else if nread == 0 {
        break;
      }
      nleft := nleft - nread;
    }
    Split(input, buf[..n - nleft], fd.incoming);
    return n - nleft;
  }

  // What one side writes the other side reads, whatever the kernel does in between,
  // when neither side reports an error.
  method Carry(out: Descriptor, buf: seq<byte>, inp: Descriptor, back: array<byte>) returns (ok: bool)
    requires out != inp && back.Length >= |buf| && inp.incoming == []
    modifies out, inp, back
    ensures ok <==> Writen(old(out.script), old(out.errno), |buf|).ok
                    && Readn(old(inp.script), old(inp.errno), |buf|, |buf|).ok
    ensures Harmless(old(out.script)) && Harmless(old(inp.script)) ==> ok
    ensures ok ==> back[..|buf|] == buf
  {
    if Harmless(out.script) && Harmless(inp.script) {
      HarmlessWritesAll(out.script, out.errno, |buf|);
      HarmlessReadsAll(inp.script, inp.errno, |buf|, |buf|);
    }
    var r := RioWriten(out, buf);
    if r != |buf| {
      return false;
    }
    inp.incoming := out.wire[|out.wire| - |buf|..];
    assert inp.incoming == buf;
    r := RioReadn(inp, back, |buf|);
    return r == |buf|;
  }
}
