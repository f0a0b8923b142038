/** base64_encode and base64_decode of common.c against section 4 of RFC 4648. */
module Base64 {
  import opened Bytes
  import opened Sequences

  // ------------------------------------------------------------ the alphabet

  // The table base64char (Table 1 of RFC 4648).
  function Letter(v: nat): char
    requires v < 64
  {
    if v < 26 then 'A' + v as char
    else if v < 52 then 'a' + (v - 26) as char
    else if v < 62 then '0' + (v - 52) as char
    else if v == 62 then '+' else '/'
  }

  predicate IsLetter(c: char) {
    'A' <= c <= 'Z' || 'a' <= c <= 'z' || '0' <= c <= '9' || c == '+' || c == '/'
  }

  // The value of a letter.
  function Value(c: char): (v: nat)
    requires IsLetter(c)
    ensures v < 64 && Letter(v) == c
  {
    if 'A' <= c <= 'Z' then (c - 'A') as nat
    else if 'a' <= c <= 'z' then (c - 'a') as nat + 26
    else if '0' <= c <= '9' then (c - '0') as nat + 52
    else if c == '+' then 62 else 63
  }

  lemma LetterValue(v: nat)
    requires v < 64
    ensures IsLetter(Letter(v)) && Value(Letter(v)) == v && Letter(v) != '=' && Letter(v) != '\0'
  {
  }

  const UPPER: string := "ABCDEFGHIJKLMNOPQRSTUVWXYZ"
  const LOWER: string := "abcdefghijklmnopqrstuvwxyz"
  const OTHER: string := "0123456789+/"

  const LETTERS: string := "ABCDEFGHIJKLMNOPQRSTUVWXYZabcdefghijklmnopqrstuvwxyz"

  lemma LetterParts()
    ensures |UPPER| == |LOWER| == 26 && LETTERS == UPPER + LOWER
  {
  }

  lemma TableParts()
    ensures |LETTERS| == 52 && |OTHER| == 12
    ensures "ABCDEFGHIJKLMNOPQRSTUVWXYZabcdefghijklmnopqrstuvwxyz0123456789+/" == LETTERS + OTHER
  {
  }

  lemma UpperLetter(v: nat)
    requires v < 26
    ensures Letter(v) == UPPER[v]
  {
  }

  lemma LowerLetter(v: nat)
    requires v < 26
    ensures Letter(26 + v) == LOWER[v]
  {
  }

  lemma OtherLetter(v: nat)
    requires v < 12
    ensures Letter(52 + v) == OTHER[v]
  {
  }

  lemma InParts(a: string, b: string, c: string, v: nat)
    requires |a| == |b| == 26 && |c| == 12 && v < 64
    ensures (a + b + c)[v] == if v < 26 then a[v] else if v < 52 then b[v - 26] else c[v - 52]
  {
  }

  // Letters and values are those of the table, in both directions.
  lemma LetterOfTable(v: nat)
    requires v < 64
    ensures Letter(v) == "ABCDEFGHIJKLMNOPQRSTUVWXYZabcdefghijklmnopqrstuvwxyz0123456789+/"[v]
    ensures IsLetter(Letter(v)) && Value(Letter(v)) == v
  {
    LetterParts();
    TableParts();
    InParts(UPPER, LOWER, OTHER, v);
    LetterValue(v);
    if v < 26 { UpperLetter(v); } else if v < 52 { LowerLetter(v - 26); } else { OtherLetter(v - 52); }
  }

  // The characters of the table are the letters.
  lemma IsLetterIff(c: char)
    ensures IsLetter(c)
      <==> exists v: nat :: v < 64 && "ABCDEFGHIJKLMNOPQRSTUVWXYZabcdefghijklmnopqrstuvwxyz0123456789+/"[v] == c
  {
    if IsLetter(c) { LetterOfTable(Value(c)); }
    if v: nat :| v < 64 && "ABCDEFGHIJKLMNOPQRSTUVWXYZabcdefghijklmnopqrstuvwxyz0123456789+/"[v] == c { LetterOfTable(v); }
  }

  // What the search loops of the decoder leave in temp: 0xFF for other characters.
  function Sextet(c: char): byte {
    if IsLetter(c) then Value(c) as byte else 0xFF
  }

  method LookUp(c: char) returns (t: byte)
    ensures t == Sextet(c)
    ensures if IsLetter(c) then t == Value(c) as byte else t == 0xFF
  {
    t := 0xFF;
    var k := 0;
    while k < 64
      invariant k <= 64
      invariant t == if IsLetter(c) && Value(c) < k then Value(c) as byte else 0xFF
    {
      LetterValue(k);
      if Letter(k) == c {
        t := k as byte;
      }
      k := k + 1;
    }
  }

  function Char(v: byte): char
    requires v < 64
  {
    Letter(v as nat)
  }

  lemma SextetOfChar(v: byte)
    requires v < 64
    ensures Sextet(Char(v)) == v && IsLetter(Char(v)) && Char(v) != '=' && Char(v) != '\0'
  {
    ByteOrdered(v, 64);
    LetterValue(v as nat);
    ByteRange(v);
  }

  lemma SmallByte(v: nat)
    requires v < 64
    ensures v as byte < 64 && (v as byte) as nat == v
  {
    ByteValue(v);
    ByteOrdered(v as byte, 64);
  }

  lemma LettersAreNoPads(c: char)
    requires IsLetter(c)
    ensures c != '=' && c != '\0'
  {
  }

  lemma CharOfSextet(c: char)
    requires IsLetter(c)
    ensures Sextet(c) < 64 && Char(Sextet(c)) == c && c != '=' && c != '\0'
  {
    SmallByte(Value(c));
    LettersAreNoPads(c);
  }

  // ------------------------------------------------------------- one quantum

  // The sextets of up to three bytes, with zero for the missing ones.
  function S0(a: byte): byte { (a >> 2) & 0x3F }
  function S1(a: byte, b: byte): byte { ((a << 4) & 0x30) | ((b >> 4) & 0x0F) }
  function S2(b: byte, c: byte): byte { ((b << 2) & 0x3C) | ((c >> 6) & 0x03) }
  function S3(c: byte): byte { c & 0x3F }

  lemma SextetsSmall(a: byte, b: byte, c: byte)
    ensures S0(a) < 64 && S1(a, b) < 64 && S2(b, c) < 64 && S3(c) < 64
  {
  }

  function Quantum(b: seq<byte>): (r: seq<char>)
    requires |b| > 0
    ensures |r| == 4
  {
    if |b| == 1 then
      SextetsSmall(b[0], 0, 0);
      [Char(S0(b[0])), Char(S1(b[0], 0)), '=', '=']
    else if |b| == 2 then
      SextetsSmall(b[0], b[1], 0);
      [Char(S0(b[0])), Char(S1(b[0], b[1])), Char(S2(b[1], 0)), '=']
    else
      SextetsSmall(b[0], b[1], b[2]);
      [Char(S0(b[0])), Char(S1(b[0], b[1])), Char(S2(b[1], b[2])), Char(S3(b[2]))]
  }

  function Encoded(b: seq<byte>): (r: seq<char>)
    decreases |b|
  {
    if b == [] then [] else Quantum(b) + (if |b| <= 3 then [] else Encoded(b[3..]))
  }

  // The bytes of a quantum as the decoder computes them.
  function B0(s: byte, t: byte): byte { ((s << 2) & 0xFC) | ((t >> 4) & 0x03) }
  function B1(s: byte, t: byte): byte { ((s << 4) & 0xF0) | ((t >> 2) & 0x0F) }
  function B2(s: byte, t: byte): byte { ((s << 6) & 0xF0) | (t & 0x3F) }

  // How far the decoder reads in a memory from position i, and what it decodes there.
  // It looks for the terminator only at the start of each quantum.
  function Reach(mem: seq<char>, i: nat): (r: nat)
    ensures r > i
    decreases |mem| - i
  {
    if i >= |mem| || mem[i] == '\0' then i + 1
    else if i + 4 > |mem| || mem[i + 2] == '=' || mem[i + 3] == '=' then i + 4
    else Reach(mem, i + 4)
  }

  function DecodedIn(mem: seq<char>, i: nat): seq<byte>
    requires Reach(mem, i) <= |mem|
    decreases |mem| - i
  {
    if mem[i] == '\0' then [] else
      QuantumBytes(Sextet(mem[i]), Sextet(mem[i + 1]), Sextet(mem[i + 2]), Sextet(mem[i + 3]), PadsAt(mem, i)) +
      if PadsAt(mem, i) > 0 then [] else DecodedIn(mem, i + 4)
  }

  // The padding the decoder finds in a quantum.
  function PadsOf(c2: char, c3: char): nat {
    if c2 == '=' then 2 else if c3 == '=' then 1 else 0
  }

  function PadsAt(mem: seq<char>, i: nat): nat
    requires i + 4 <= |mem|
  {
    PadsOf(mem[i + 2], mem[i + 3])
  }

  function QuantumBytes(t0: byte, t1: byte, t2: byte, t3: byte, pads: nat): seq<byte> {
    if pads == 2 then [B0(t0, t1)]
    else if pads == 1 then [B0(t0, t1), B1(t1, t2)]
    else [B0(t0, t1), B1(t1, t2), B2(t2, t3)]
  }

  // s is the string up to its terminator. The decoder stays inside the string and
  // its terminator: ReadsInsideIff.
  predicate Readable(s: seq<char>)
    decreases |s|
  {
    s == [] ||
    (|s| >= 3 && s[2] == '=') ||
    (|s| >= 4 && (s[3] == '=' || Readable(s[4..])))
  }

  function Decoded(s: seq<char>): (r: seq<byte>)
    requires Readable(s)
    decreases |s|
  {
    if s == [] then [] else
      var t0, t1, t2 := Sextet(s[0]), Sextet(s[1]), Sextet(s[2]);
      if s[2] == '=' then [B0(t0, t1)]
      else if s[3] == '=' then [B0(t0, t1), B1(t1, t2)]
      else [B0(t0, t1), B1(t1, t2), B2(t2, Sextet(s[3]))] + Decoded(s[4..])
  }

  // A string, its terminator, and the memory behind it.
  function InMemory(s: seq<char>, rest: seq<char>): seq<char> {
    s + ['\0'] + rest
  }

  lemma {:induction false} ReadsFrom(s: seq<char>, rest: seq<char>, i: nat)
    requires '\0' !in s && i <= |s|
    ensures var mem := InMemory(s, rest);
      && (Reach(mem, i) <= |s| + 1 <==> Readable(s[i..]))
      && (Readable(s[i..]) ==> DecodedIn(mem, i) == Decoded(s[i..]))
    decreases |s| - i
  {
    var mem := InMemory(s, rest);
    if i + 4 <= |s| {
      ReadsFrom(s, rest, i + 4);
      assert s[i..][4..] == s[i + 4..];
    }
    if i < |s| { assert mem[i] == s[i] != '\0'; }
  }

  // The decoder stays inside the string and its terminator, whatever lies behind,
  // exactly for the readable strings.
  lemma ReadsInsideIff(s: seq<char>, rest: seq<char>)
    requires '\0' !in s
    ensures Reach(InMemory(s, rest), 0) <= |s| + 1 <==> Readable(s)
    ensures Readable(s) ==> DecodedIn(InMemory(s, rest), 0) == Decoded(s)
  {
    ReadsFrom(s, rest, 0);
    assert s[0..] == s;
  }

  // Two letters: the decoder reads a fourth character, behind the terminator.
  lemma ReadsBeyondHappens(rest: seq<char>)
    ensures '\0' !in ['A', 'B'] && !Readable(['A', 'B']) && Reach(InMemory(['A', 'B'], rest), 0) > 3
  {
    ReadsInsideIff(['A', 'B'], rest);
  }

  // -------------------------------------------------------------- round trips

  lemma BytesOfSextets(a: byte, b: byte, c: byte)
    ensures B0(S0(a), S1(a, b)) == a
    ensures B1(S1(a, b), S2(b, c)) == b
    ensures B2(S2(b, c), S3(c)) == c
  {
  }

  lemma SextetsOfBytes(s: byte, t: byte, u: byte, v: byte)
    requires s < 64 && t < 64 && u < 64 && v < 64
    ensures S0(B0(s, t)) == s
    ensures S1(B0(s, t), B1(t, u)) == t
    ensures S2(B1(t, u), B2(u, v)) == u
    ensures S3(B2(u, v)) == v
    ensures t & 0x0F == 0 ==> S1(B0(s, t), 0) == t
    ensures u & 0x03 == 0 ==> S2(B1(t, u), 0) == u
  {
  }

  // Decoding an encoding gives the bytes back, for any number of bytes.
  lemma {:induction false} DecodeEncode(b: seq<byte>)
    ensures Readable(Encoded(b)) && Decoded(Encoded(b)) == b
    decreases |b|
  {
    if b != [] {
      var s := Encoded(b);
      QuantumSextets(b);
      assert s[..4] == Quantum(b);
      if |b| >= 3 {
        BytesOfSextets(b[0], b[1], b[2]);
        assert s[4..] == Encoded(b[3..]);
        DecodeEncode(b[3..]);
        assert b == [b[0], b[1], b[2]] + b[3..];
      } else if |b| == 2 {
        BytesOfSextets(b[0], b[1], 0);
      } else {
        BytesOfSextets(b[0], 0, 0);
      }
    }
  }

  lemma QuantumSextets(b: seq<byte>)
    requires |b| > 0
    ensures var q := Quantum(b);
      && Sextet(q[0]) == S0(b[0]) && Sextet(q[1]) == S1(b[0], if |b| > 1 then b[1] else 0)
      && (if |b| > 1 then q[2] != '=' && Sextet(q[2]) == S2(b[1], if |b| > 2 then b[2] else 0) else q[2] == '=')
      && (if |b| > 2 then q[3] != '=' && Sextet(q[3]) == S3(b[2]) else q[3] == '=')
      && q[0] != '\0' && q[1] != '\0' && q[2] != '\0' && q[3] != '\0'
      && IsLetter(q[0]) && IsLetter(q[1]) && (|b| > 1 ==> IsLetter(q[2])) && (|b| > 2 ==> IsLetter(q[3]))
  {
    var b1, b2 := if |b| > 1 then b[1] else 0, if |b| > 2 then b[2] else 0;
    SextetsSmall(b[0], b1, b2);
    SextetOfChar(S0(b[0]));
    SextetOfChar(S1(b[0], b1));
    SextetOfChar(S2(b1, b2));
    SextetOfChar(S3(b2));
  }

  // A canonical encoding: full quanta of letters, padding only in the last one, and
  // zero pad bits there (sections 4 and 3.5 of RFC 4648).
  ghost predicate Canonical(s: seq<char>)
    decreases |s|
  {
    s == [] ||
    (|s| >= 4 && IsLetter(s[0]) && IsLetter(s[1]) &&
     (if s[2] == '=' then s[3] == '=' && |s| == 4 && Sextet(s[1]) & 0x0F == 0
      else IsLetter(s[2]) &&
           (if s[3] == '=' then |s| == 4 && Sextet(s[2]) & 0x03 == 0
            else IsLetter(s[3]) && Canonical(s[4..]))))
  }

  lemma {:induction false} EncodedIsCanonical(b: seq<byte>)
    ensures Canonical(Encoded(b)) && '\0' !in Encoded(b)
    decreases |b|
  {
    if b != [] {
      var s := Encoded(b);
      QuantumSextets(b);
      assert s[..4] == Quantum(b);
      NoTerminator(Quantum(b));
      if |b| >= 3 {
        assert s[4..] == Encoded(b[3..]);
        EncodedIsCanonical(b[3..]);
        assert s == s[..4] + s[4..];
      } else {
        assert s == s[..4];
        PadBits(b[0], if |b| > 1 then b[1] else 0);
      }
    }
  }

  lemma NoTerminator(q: seq<char>)
    requires |q| == 4 && q[0] != '\0' && q[1] != '\0' && q[2] != '\0' && q[3] != '\0'
    ensures '\0' !in q
  {
  }

  lemma PadBits(a: byte, b: byte)
    ensures S1(a, 0) & 0x0F == 0 && S2(b, 0) & 0x03 == 0
  {
  }

  lemma {:induction false} CanonicalIsReadable(s: seq<char>)
    requires Canonical(s)
    ensures Readable(s)
    decreases |s|
  {
    if s != [] && s[2] != '=' && s[3] != '=' { CanonicalIsReadable(s[4..]); }
  }

  lemma CanonicalTwoPads(s: seq<char>)
    requires Canonical(s) && s != [] && s[2] == '='
    ensures Readable(s) && Encoded(Decoded(s)) == s
  {
    CharOfSextet(s[0]);
    CharOfSextet(s[1]);
    SextetsOfBytes(Sextet(s[0]), Sextet(s[1]), 0, 0);
  }

  lemma CanonicalOnePad(s: seq<char>)
    requires Canonical(s) && s != [] && s[2] != '=' && s[3] == '='
    ensures Readable(s) && Encoded(Decoded(s)) == s
  {
    CharOfSextet(s[0]);
    CharOfSextet(s[1]);
    CharOfSextet(s[2]);
    SextetsOfBytes(Sextet(s[0]), Sextet(s[1]), Sextet(s[2]), 0);
  }

  lemma CanonicalQuantum(s: seq<char>, rest: seq<byte>)
    requires |s| == 4 && IsLetter(s[0]) && IsLetter(s[1]) && IsLetter(s[2]) && IsLetter(s[3])
    ensures var t0, t1, t2, t3 := Sextet(s[0]), Sextet(s[1]), Sextet(s[2]), Sextet(s[3]);
      Quantum([B0(t0, t1), B1(t1, t2), B2(t2, t3)] + rest) == s
  {
    CharOfSextet(s[0]);
    CharOfSextet(s[1]);
    CharOfSextet(s[2]);
    CharOfSextet(s[3]);
    SextetsOfBytes(Sextet(s[0]), Sextet(s[1]), Sextet(s[2]), Sextet(s[3]));
  }

  lemma {:induction false} EncodeDecodeCanonical(s: seq<char>)
    requires Canonical(s)
    ensures Readable(s) && Encoded(Decoded(s)) == s
    decreases |s|
  {
    CanonicalIsReadable(s);
    if s != [] {
      if s[2] == '=' {
        CanonicalTwoPads(s);
      } else if s[3] == '=' {
        LettersAreNoPads(s[2]);
        CanonicalOnePad(s);
      } else {
        EncodeDecodeCanonical(s[4..]);
        CanonicalQuantum(s[..4], Decoded(s[4..]));
        EncodedStep(Decoded(s));
        assert Decoded(s)[3..] == Decoded(s[4..]);
        assert s == s[..4] + s[4..];
      }
    }
  }

  // Re-encoding what was decoded gives the string back exactly for the canonical ones.
  lemma EncodeDecodeIff(s: seq<char>)
    requires Readable(s)
    ensures Encoded(Decoded(s)) == s <==> Canonical(s)
  {
    EncodedIsCanonical(Decoded(s));
    if Canonical(s) { EncodeDecodeCanonical(s); }
  }

  // The last two letters of the table, and an example of section 9 of RFC 4648.
  lemma EncodedExamples()
    ensures Encoded([0xFB]) == ['+', 'w', '=', '='] && Encoded([0xFF]) == ['/', 'w', '=', '=']
    ensures Encoded([0x14, 0xFB, 0x9C]) == ['F', 'P', 'u', 'c']
  {
    assert S0(0xFB) == 62 && S1(0xFB, 0) == 48 && S0(0xFF) == 63 && S1(0xFF, 0) == 48;
    assert S0(0x14) == 5 && S1(0x14, 0xFB) == 15 && S2(0xFB, 0x9C) == 46 && S3(0x9C) == 28;
  }

  // Pad bits that are not zero: the string is read as "QQ==" is.
  lemma NotCanonicalHappens()
    ensures var s := ['Q', 'R', '=', '='];
      Readable(s) && !Canonical(s) && Encoded(Decoded(s)) == ['Q', 'Q', '=', '=']
  {
    assert B0(16, 17) == 65 && S0(65) == 16 && S1(65, 0) == 16;
    assert (17 as byte) & 0x0F == 1;
    LetterValue(16);
    LetterValue(17);
    assert Decoded(['Q', 'R', '=', '=']) == [65];
  }

  lemma DecodeInjective(s: seq<char>, t: seq<char>)
    requires Canonical(s) && Canonical(t) && Readable(s) && Readable(t) && Decoded(s) == Decoded(t)
    ensures s == t
  {
    EncodeDecodeCanonical(s);
    EncodeDecodeCanonical(t);
  }

  // ------------------------------------------------- regrouping into six bits

  function Bits8(b: byte): seq<bool> {
    [b & 128 != 0, b & 64 != 0, b & 32 != 0, b & 16 != 0, b & 8 != 0, b & 4 != 0, b & 2 != 0, b & 1 != 0]
  }

  function Bits6(s: byte): seq<bool> {
    [s & 32 != 0, s & 16 != 0, s & 8 != 0, s & 4 != 0, s & 2 != 0, s & 1 != 0]
  }

  // All bits of b, most significant first.
  function ByteBits(b: seq<byte>): seq<bool> {
    if b == [] then [] else Bits8(b[0]) + ByteBits(b[1..])
  }

  // All bits of the letters of s before the padding.
  function LetterBits(s: seq<char>): seq<bool> {
    if s == [] || s[0] == '=' then [] else Bits6(Sextet(s[0])) + LetterBits(s[1..])
  }

  function Pads(s: seq<char>): nat {
    if s == [] then 0 else (if s[0] == '=' then 1 else 0) + Pads(s[1..])
  }

  function Zeros(n: nat): seq<bool> {
    seq(n, _ => false)
  }

  lemma BitsOfS0(a: byte)
    ensures Bits6(S0(a)) == Bits8(a)[..6]
  {
    var s := S0(a);
    assert s & 32 != 0 <==> a & 128 != 0;
    assert s & 16 != 0 <==> a & 64 != 0;
    assert s & 8 != 0 <==> a & 32 != 0;
    assert s & 4 != 0 <==> a & 16 != 0;
    assert s & 2 != 0 <==> a & 8 != 0;
    assert s & 1 != 0 <==> a & 4 != 0;
  }

  lemma TwoAndFour(a: bool, b: bool, c: bool, d: bool, e: bool, f: bool)
    ensures [a, b, c, d, e, f] == [a, b] + [c, d, e, f] == [a, b, c, d] + [e, f]
  {
  }

  lemma BitsOfS1(a: byte, b: byte)
    ensures Bits6(S1(a, b)) == Bits8(a)[6..] + Bits8(b)[..4]
  {
    S1Bits(a, b);
    TwoAndFour(a & 2 != 0, a & 1 != 0, b & 128 != 0, b & 64 != 0, b & 32 != 0, b & 16 != 0);
    Ends(a);
    Ends(b);
  }

  lemma Ends(a: byte)
    ensures Bits8(a)[6..] == [a & 2 != 0, a & 1 != 0]
    ensures Bits8(a)[..4] == [a & 128 != 0, a & 64 != 0, a & 32 != 0, a & 16 != 0]
    ensures Bits8(a)[4..] == [a & 8 != 0, a & 4 != 0, a & 2 != 0, a & 1 != 0]
    ensures Bits8(a)[..2] == [a & 128 != 0, a & 64 != 0]
  {
  }

  lemma S1Bits(a: byte, b: byte)
    ensures S1(a, b) & 32 != 0 <==> a & 2 != 0
    ensures S1(a, b) & 16 != 0 <==> a & 1 != 0
    ensures S1(a, b) & 8 != 0 <==> b & 128 != 0
    ensures S1(a, b) & 4 != 0 <==> b & 64 != 0
    ensures S1(a, b) & 2 != 0 <==> b & 32 != 0
    ensures S1(a, b) & 1 != 0 <==> b & 16 != 0
  {
  }

  lemma BitsOfS2(b: byte, c: byte)
    ensures Bits6(S2(b, c)) == Bits8(b)[4..] + Bits8(c)[..2]
  {
    S2Bits(b, c);
    TwoAndFour(b & 8 != 0, b & 4 != 0, b & 2 != 0, b & 1 != 0, c & 128 != 0, c & 64 != 0);
    Ends(b);
    Ends(c);
  }

  lemma S2Bits(b: byte, c: byte)
    ensures S2(b, c) & 32 != 0 <==> b & 8 != 0
    ensures S2(b, c) & 16 != 0 <==> b & 4 != 0
    ensures S2(b, c) & 8 != 0 <==> b & 2 != 0
    ensures S2(b, c) & 4 != 0 <==> b & 1 != 0
    ensures S2(b, c) & 2 != 0 <==> c & 128 != 0
    ensures S2(b, c) & 1 != 0 <==> c & 64 != 0
  {
  }

  lemma BitsOfS3(c: byte)
    ensures Bits6(S3(c)) == Bits8(c)[2..]
  {
    var s := S3(c);
    assert s & 32 != 0 <==> c & 32 != 0;
    assert s & 16 != 0 <==> c & 16 != 0;
    assert s & 8 != 0 <==> c & 8 != 0;
    assert s & 4 != 0 <==> c & 4 != 0;
    assert s & 2 != 0 <==> c & 2 != 0;
    assert s & 1 != 0 <==> c & 1 != 0;
  }

  // Cutting three groups of eight at the positions of groups of six.
  lemma Regroup(x: seq<bool>, y: seq<bool>, z: seq<bool>, rest: seq<bool>)
    requires |x| == |y| == |z| == 8
    ensures x[..6] + ((x[6..] + y[..4]) + ((y[4..] + z[..2]) + (z[2..] + rest))) == x + (y + (z + rest))
  {
  }

  lemma RegroupShort(x: seq<bool>, y: seq<bool>)
    requires |x| == |y| == 8
    ensures x[..6] + ((x[6..] + Zeros(8)[..4]) + []) == (x + []) + Zeros(4)
    ensures x[..6] + ((x[6..] + y[..4]) + ((y[4..] + Zeros(8)[..2]) + [])) == (x + (y + [])) + Zeros(2)
  {
  }

  lemma LetterBitsCons(c: char, rest: seq<char>)
    ensures LetterBits([c] + rest) == if c == '=' then [] else Bits6(Sextet(c)) + LetterBits(rest)
    ensures Pads([c] + rest) == (if c == '=' then 1 else 0) + Pads(rest)
  {
    assert ([c] + rest)[1..] == rest;
  }

  lemma FourLetters(q: seq<char>, rest: seq<char>)
    requires |q| == 4 && q[0] != '=' && q[1] != '='
    ensures LetterBits(q + rest) == Bits6(Sextet(q[0])) + (Bits6(Sextet(q[1])) + LetterBits([q[2]] + ([q[3]] + rest)))
    ensures Pads(q + rest) == Pads([q[2]] + ([q[3]] + rest))
  {
    var r2 := [q[2]] + ([q[3]] + rest);
    assert q + rest == [q[0]] + ([q[1]] + r2);
    LetterBitsCons(q[0], [q[1]] + r2);
    LetterBitsCons(q[1], r2);
  }

  lemma QuantumBits(b: seq<byte>, rest: seq<char>)
    requires |b| > 0
    ensures |b| == 1 ==> LetterBits(Quantum(b) + rest) == Bits6(S0(b[0])) + (Bits6(S1(b[0], 0)) + [])
    ensures |b| == 2 ==>
      LetterBits(Quantum(b) + rest) == Bits6(S0(b[0])) + (Bits6(S1(b[0], b[1])) + (Bits6(S2(b[1], 0)) + []))
    ensures |b| > 2 ==>
      LetterBits(Quantum(b) + rest)
      == Bits6(S0(b[0])) + (Bits6(S1(b[0], b[1])) + (Bits6(S2(b[1], b[2])) + (Bits6(S3(b[2])) + LetterBits(rest))))
  {
    var q := Quantum(b);
    QuantumSextets(b);
    FourLetters(q, rest);
    LetterBitsCons(q[2], [q[3]] + rest);
    LetterBitsCons(q[3], rest);
  }

  lemma QuantumPads(b: seq<byte>, rest: seq<char>)
    requires |b| > 0
    ensures Pads(Quantum(b) + rest) == (if |b| == 1 then 2 else if |b| == 2 then 1 else 0) + Pads(rest)
  {
    var q := Quantum(b);
    QuantumSextets(b);
    FourLetters(q, rest);
    LetterBitsCons(q[2], [q[3]] + rest);
    LetterBitsCons(q[3], rest);
  }

  function Extra(n: nat): nat {
    if n % 3 == 0 then 0 else 3 - n % 3
  }

  lemma EncodedStep(b: seq<byte>)
    requires |b| >= 3
    ensures Encoded(b) == Quantum(b) + Encoded(b[3..])
  {
    assert |b| == 3 ==> b[3..] == [];
  }

  // The encoding has 4 * ceil(n / 3) characters ...
  lemma {:induction false} EncodedLength(b: seq<byte>)
    ensures |Encoded(b)| == 4 * ((|b| + 2) / 3)
    decreases |b|
  {
    if |b| >= 3 {
      EncodedStep(b);
      EncodedLength(b[3..]);
    }
  }

  lemma ExtraStep(n: nat)
    requires n >= 3
    ensures Extra(n) == Extra(n - 3)
  {
  }

  // ... of which 2, 1 or 0 are pads.
  lemma {:induction false} EncodedPads(b: seq<byte>)
    ensures Pads(Encoded(b)) == Extra(|b|)
    decreases |b|
  {
    if |b| >= 3 {
      EncodedStep(b);
      QuantumPads(b, Encoded(b[3..]));
      EncodedPads(b[3..]);
      ExtraStep(|b|);
    } else if b != [] {
      QuantumPads(b, []);
      assert Encoded(b) == Quantum(b) + [];
    }
  }

  // The encoding carries the bits of the input in groups of six, filled up with
  // zeros.
  lemma {:induction false} EncodedRegroups(b: seq<byte>)
    ensures LetterBits(Encoded(b)) == ByteBits(b) + Zeros(2 * Extra(|b|))
    decreases |b|
  {
    if |b| >= 3 {
      EncodedStep(b);
      QuantumBits(b, Encoded(b[3..]));
      EncodedRegroups(b[3..]);
      ThreeByteBits(b, LetterBits(Encoded(b[3..])), Zeros(2 * Extra(|b|)));
    } else if |b| == 2 {
      QuantumBits(b, []);
      TwoByteBits(b);
    } else if |b| == 1 {
      QuantumBits(b, []);
      OneByteBits(b);
    }
  }

  lemma OneByteBits(b: seq<byte>)
    requires |b| == 1
    ensures Bits6(S0(b[0])) + (Bits6(S1(b[0], 0)) + []) == ByteBits(b) + Zeros(4)
  {
    BitsOfS0(b[0]);
    BitsOfS1(b[0], 0);
    ZeroByte();
    RegroupShort(Bits8(b[0]), Bits8(0));
    assert ByteBits(b) == Bits8(b[0]) + [];
  }

  lemma TwoBytes(b: seq<byte>)
    requires |b| == 2
    ensures ByteBits(b) == Bits8(b[0]) + (Bits8(b[1]) + [])
  {
    assert ByteBits(b[1..]) == Bits8(b[1]) + [];
  }

  lemma TwoByteBits(b: seq<byte>)
    requires |b| == 2
    ensures Bits6(S0(b[0])) + (Bits6(S1(b[0], b[1])) + (Bits6(S2(b[1], 0)) + [])) == ByteBits(b) + Zeros(2)
  {
    BitsOfS0(b[0]);
    BitsOfS1(b[0], b[1]);
    BitsOfS2(b[1], 0);
    ZeroByte();
    RegroupShort(Bits8(b[0]), Bits8(b[1]));
    TwoBytes(b);
  }

  lemma ZeroByte()
    ensures Bits8(0) == Zeros(8)
  {
  }

  lemma ThreeByteBits(b: seq<byte>, rest: seq<bool>, zeros: seq<bool>)
    requires |b| >= 3 && rest == ByteBits(b[3..]) + zeros
    ensures Bits6(S0(b[0])) + (Bits6(S1(b[0], b[1])) + (Bits6(S2(b[1], b[2])) + (Bits6(S3(b[2])) + rest)))
         == ByteBits(b) + zeros
  {
    BitsOfS0(b[0]);
    BitsOfS1(b[0], b[1]);
    BitsOfS2(b[1], b[2]);
    BitsOfS3(b[2]);
    Regroup(Bits8(b[0]), Bits8(b[1]), Bits8(b[2]), rest);
    ThreeBytes(b);
    AssociateAll(Bits8(b[0]), Bits8(b[1]), Bits8(b[2]), ByteBits(b[3..]), zeros);
  }

  lemma AssociateAll(x: seq<bool>, y: seq<bool>, z: seq<bool>, r: seq<bool>, t: seq<bool>)
    ensures x + (y + (z + (r + t))) == x + (y + (z + r)) + t
  {
  }

  lemma ThreeBytes(b: seq<byte>)
    requires |b| >= 3
    ensures ByteBits(b) == Bits8(b[0]) + (Bits8(b[1]) + (Bits8(b[2]) + ByteBits(b[3..])))
  {
    assert b[1..][1..] == b[2..];
    assert b[2..][1..] == b[3..];
    assert ByteBits(b[2..]) == Bits8(b[2]) + ByteBits(b[3..]);
    assert ByteBits(b[1..]) == Bits8(b[1]) + ByteBits(b[2..]);
  }

  // ---------------------------------------------------------------- the code

  method Put(base64: array<char>, j: nat, q: seq<char>)
    requires |q| == 4 && j + 4 <= base64.Length
    modifies base64
    ensures base64[..j + 4] == old(base64[..j]) + q
    ensures forall k :: j + 4 <= k < base64.Length ==> base64[k] == old(base64[k])
  {
    base64[j] := q[0];
    base64[j + 1] := q[1];
    base64[j + 2] := q[2];
    base64[j + 3] := q[3];
  }

  // One pass of the encoder's loop: the quantum that starts at byte i. The code
  // stores each character as soon as it has it.
  method EncodeQuantum(bindata: seq<byte>, base64: array<char>, i: nat, j: nat)
    requires i < |bindata| && j + |Remaining(bindata, i)| < base64.Length
    modifies base64
    ensures |Remaining(bindata, i)| == 4 + |Remaining(bindata, i + 3)|
    ensures base64[..j + 4] + Remaining(bindata, i + 3) == old(base64[..j]) + Remaining(bindata, i)
    ensures forall k :: j + 4 <= k < base64.Length ==> base64[k] == old(base64[k])
  {
    EncodedSplits(bindata, i);
    var q := QuantumChars(bindata, i);
    Associate(base64[..j], q, Remaining(bindata, i + 3));
    Put(base64, j, q);
  }

  method QuantumChars(bindata: seq<byte>, i: nat) returns (q: seq<char>)
    requires i < |bindata|
    ensures q == Quantum(bindata[i..])
  {
    SextetsSmall(bindata[i], 0, 0);
    var current := (bindata[i] >> 2) & 0x3F;
    q := [Char(current)];
    current := (bindata[i] << 4) & 0x30;
    if i + 1 >= |bindata| {
      ZeroBits(bindata[i], 0);
      return q + [Char(current), '=', '='];
    }
    SextetsSmall(bindata[i], bindata[i + 1], 0);
    current := current | ((bindata[i + 1] >> 4) & 0x0F);
    q := q + [Char(current)];
    current := (bindata[i + 1] << 2) & 0x3C;
    if i + 2 >= |bindata| {
      ZeroBits(0, bindata[i + 1]);
      return q + [Char(current), '='];
    }
    SextetsSmall(bindata[i], bindata[i + 1], bindata[i + 2]);
    current := current | ((bindata[i + 2] >> 6) & 0x03);
    q := q + [Char(current)];
    current := bindata[i + 2] & 0x3F;
    return q + [Char(current)];
  }

  lemma ZeroBits(a: byte, b: byte)
    ensures (a << 4) & 0x30 == S1(a, 0) < 64 && (b << 2) & 0x3C == S2(b, 0) < 64
  {
  }

  // The parameter binlength of the source is |bindata|.
  method Base64Encode(bindata: seq<byte>, base64: array<char>) returns (j: nat)
    requires base64.Length > |Encoded(bindata)|
    modifies base64
    ensures j == |Encoded(bindata)| == 4 * ((|bindata| + 2) / 3)
    ensures base64[..j] == Encoded(bindata) && base64[j] == '\0'
    ensures base64[j + 1..] == old(base64[j + 1..])
  {
    var i := 0;
    j := 0;
    EncodedLength(bindata);
    while i < |bindata|
      invariant j + |Remaining(bindata, i)| == |Encoded(bindata)|
      invariant forall k :: j <= k < base64.Length ==> base64[k] == old(base64[k])
      invariant base64[..j] + Remaining(bindata, i) == Encoded(bindata)
    {
      EncodeQuantum(bindata, base64, i, j);
      j := j + 4;
      i := i + 3;
    }
    AllWritten(base64[..j], bindata, i);
    base64[j] := '\0';
  }

  lemma AllWritten(done: seq<char>, b: seq<byte>, i: nat)
    requires |b| <= i
    ensures done + Remaining(b, i) == done
  {
  }

  // What is still to be written when the loop stands at byte i.
  function Remaining(b: seq<byte>, i: nat): seq<char> {
    if i < |b| then Encoded(b[i..]) else []
  }

  lemma EncodedSplits(b: seq<byte>, i: nat)
    requires i < |b|
    ensures Remaining(b, i) == Quantum(b[i..]) + Remaining(b, i + 3)
  {
    if i + 3 < |b| { assert b[i..][3..] == b[i + 3..]; }
  }

  // bindata[j++] = v
  method Append(bindata: array<byte>, j: nat, v: byte)
    requires j < bindata.Length
    modifies bindata
    ensures bindata[..j + 1] == old(bindata[..j]) + [v]
    ensures forall k :: j + 1 <= k < bindata.Length ==> bindata[k] == old(bindata[k])
  {
    bindata[j] := v;
  }

  lemma ThreeMore(was: seq<byte>, x: byte, y: byte, z: byte)
    ensures was + [x] + [y] == was + [x, y] && was + [x] + [y] + [z] == was + [x, y, z]
  {
  }

  // The stores of one pass; c2 and c3 are the characters that may be pads.
  method StoreQuantum(bindata: array<byte>, j: nat, t0: byte, t1: byte, t2: byte, t3: byte, c2: char, c3: char)
    returns (n: nat)
    requires j + 3 - PadsOf(c2, c3) <= bindata.Length
    modifies bindata
    ensures n == 3 - PadsOf(c2, c3)
    ensures bindata[..j + n] == old(bindata[..j]) + QuantumBytes(t0, t1, t2, t3, PadsOf(c2, c3))
    ensures forall k :: j + n <= k < bindata.Length ==> bindata[k] == old(bindata[k])
  {
    ThreeMore(bindata[..j], B0(t0, t1), B1(t1, t2), B2(t2, t3));
    Append(bindata, j, B0(t0, t1));
    if c2 == '=' {
      return 1;
    }
    Append(bindata, j + 1, B1(t1, t2));
    if c3 == '=' {
      return 2;
    }
    Append(bindata, j + 2, B2(t2, t3));
    return 3;
  }

  // One pass of the decoder's loop; last says that it found padding and stops.
  method DecodeQuantum(base64: seq<char>, bindata: array<byte>, i: nat, j: nat) returns (n: nat, last: bool)
    requires Reach(base64, i) <= |base64| && base64[i] != '\0' && j + |DecodedIn(base64, i)| <= bindata.Length
    modifies bindata
    ensures !last ==> Reach(base64, i) == Reach(base64, i + 4) && i + 4 < |base64|
    ensures |DecodedIn(base64, i)| == n + if last then 0 else |DecodedIn(base64, i + 4)|
    ensures bindata[..j + n] + (if last then [] else DecodedIn(base64, i + 4)) == old(bindata[..j]) + DecodedIn(base64, i)
    ensures forall k :: j + n <= k < bindata.Length ==> bindata[k] == old(bindata[k])
  {
    var t0 := LookUp(base64[i]);
    var t1 := LookUp(base64[i + 1]);
    var t2 := LookUp(base64[i + 2]);
    var t3 := LookUp(base64[i + 3]);
    ghost var was, bytes := bindata[..j], QuantumBytes(t0, t1, t2, t3, PadsAt(base64, i));
    n := StoreQuantum(bindata, j, t0, t1, t2, t3, base64[i + 2], base64[i + 3]);
    last := n < 3;
    Associate(was, bytes, if last then [] else DecodedIn(base64, i + 4));
  }

  // base64 is the memory from the start of the string.
  method Base64Decode(base64: seq<char>, bindata: array<byte>) returns (j: nat)
    requires Reach(base64, 0) <= |base64| && bindata.Length >= |DecodedIn(base64, 0)|
    modifies bindata
    ensures j == |DecodedIn(base64, 0)| && bindata[..j] == DecodedIn(base64, 0)
    ensures forall k :: j <= k < bindata.Length ==> bindata[k] == old(bindata[k])
  {
    ghost var all := DecodedIn(base64, 0);
    var i := 0;
    j := 0;
    while base64[i] != '\0'
      invariant Reach(base64, i) <= |base64| && i < |base64|
      invariant j + |DecodedIn(base64, i)| == |all|
      invariant forall k :: j <= k < bindata.Length ==> bindata[k] == old(bindata[k])
      invariant bindata[..j] + DecodedIn(base64, i) == all
      decreases |base64| - i
    {
      var n, last := DecodeQuantum(base64, bindata, i, j);
      j := j + n;
      if last {
        assert bindata[..j] + [] == bindata[..j];
        return;
      }
      i := i + 4;
    }
    assert bindata[..j] + [] == bindata[..j];
  }

  lemma CutMemory(mem: seq<char>, s: seq<char>)
    requires |s| < |mem| && mem[..|s|] == s && mem[|s|] == '\0'
    ensures mem == InMemory(s, mem[|s| + 1..])
  {
  }

  // Encoding into a buffer and decoding it again is the identity.
  method RoundTrip(bindata: seq<byte>, base64: array<char>, back: array<byte>) returns (n: nat)
    requires base64.Length > |Encoded(bindata)| && back.Length >= |bindata|
    modifies base64, back
    ensures n == |bindata| && back[..n] == bindata
  {
    var j := Base64Encode(bindata, base64);
    EncodedIsCanonical(bindata);
    DecodeEncode(bindata);
    CutMemory(base64[..], Encoded(bindata));
    ReadsInsideIff(Encoded(bindata), base64[j + 1..]);
    assert base64[..][j + 1..] == base64[j + 1..];
    n := Base64Decode(base64[..], back);
  }
}
