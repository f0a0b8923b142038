/** Byte order of integers on a little-endian host: htons, htonl and the htonll and
    ntohll of common.c. */
module ByteOrder {
  import opened Bytes
  import opened Sequences

  // The last n bytes of x in network order, and as the host stores them.
  function Network(x: nat, n: nat): (r: seq<byte>)
    ensures |r| == n
  {
    if n == 0 then [] else Network(x / 256, n - 1) + [(x % 256) as byte]
  }

  function Stored(x: nat, n: nat): (r: seq<byte>)
    ensures |r| == n
  {
    if n == 0 then [] else [(x % 256) as byte] + Stored(x / 256, n - 1)
  }

  // The number these bytes are in network order, and in the host's memory.
  function FromNetwork(s: seq<byte>): nat {
    if s == [] then 0 else 256 * FromNetwork(s[..|s| - 1]) + s[|s| - 1] as nat
  }

  function FromStored(s: seq<byte>): nat {
    if s == [] then 0 else s[0] as nat + 256 * FromStored(s[1..])
  }

  function Power(n: nat): (p: nat)
    ensures 0 < p
  {
    if n == 0 then 1 else 256 * Power(n - 1)
  }

  // htons (n = 2) and htonl (n = 4), and ntohs and ntohl as well: the number whose
  // stored bytes are the network bytes of x.
  function Swapped(x: nat, n: nat): nat {
    FromStored(Network(x, n))
  }

  // The most significant byte comes first in network order and last in the host.
  lemma OrderOfBytes(a: byte, b: byte)
    ensures FromNetwork([a, b]) == 256 * a as nat + b as nat
    ensures FromStored([a, b]) == a as nat + 256 * b as nat
  {
    assert [a, b][..1] == [a] && [a][..0] == [];
    assert FromNetwork([a]) == 256 * FromNetwork([]) + a as nat;
    assert [a, b][1..] == [b] && [b][1..] == [];
    assert FromStored([b]) == b as nat + 256 * FromStored([]);
  }

  lemma {:induction false} NetworkValue(x: nat, n: nat)
    requires x < Power(n)
    ensures FromNetwork(Network(x, n)) == x
  {
    if n > 0 {
      NetworkValue(x / 256, n - 1);
      ByteValue(x % 256);
      assert Network(x, n)[..n - 1] == Network(x / 256, n - 1);
    }
  }

  lemma FirstDigit(b: nat, rest: nat)
    requires b < 256
    ensures (b + 256 * rest) % 256 == b && (b + 256 * rest) / 256 == rest
  {
  }

  lemma {:induction false} StoredBack(s: seq<byte>)
    ensures Stored(FromStored(s), |s|) == s && FromStored(s) < Power(|s|)
  {
    if s != [] {
      StoredBack(s[1..]);
      ByteRange(s[0]);
      FirstDigit(s[0] as nat, FromStored(s[1..]));
      assert s == [s[0]] + s[1..];
    }
  }

  // Storing a swapped number puts the network bytes into memory.
  lemma SwappedIsStored(x: nat, n: nat)
    ensures Stored(Swapped(x, n), n) == Network(x, n) && Swapped(x, n) < Power(n)
  {
    StoredBack(Network(x, n));
  }

  lemma {:induction false} FromStoredAppend(s: seq<byte>, t: seq<byte>)
    ensures FromStored(s + t) == FromStored(s) + Power(|s|) * FromStored(t)
  {
    if s == [] {
      assert s + t == t;
    } else {
      StoredStep(s[0], s[1..] + t);
      StoredStep(s[0], s[1..]);
      assert s + t == [s[0]] + (s[1..] + t) && s == [s[0]] + s[1..];
      FromStoredAppend(s[1..], t);
      Distribute(FromStored(s[1..]), Power(|s| - 1), FromStored(t), Power(|s|), FromStored(s[1..] + t));
    }
  }

  lemma StoredStep(b: byte, s: seq<byte>)
    ensures FromStored([b] + s) == b as nat + 256 * FromStored(s)
  {
    assert ([b] + s)[1..] == s;
  }

  lemma Distribute(a: nat, p: nat, b: nat, q: nat, c: nat)
    requires q == 256 * p && c == a + p * b
    ensures 256 * c == 256 * a + q * b
  {
  }

  // x without its last n bytes.
  function Above(x: nat, n: nat): nat {
    if n == 0 then x else Above(x / 256, n - 1)
  }

  lemma {:induction false} NetworkAppend(x: nat, m: nat, n: nat)
    ensures Network(x, m + n) == Network(Above(x, n), m) + Network(x, n)
    decreases n
  {
    if n > 0 {
      NetworkAppend(x / 256, m, n - 1);
      var last := [(x % 256) as byte];
      Associate(Network(Above(x, n), m), Network(x / 256, n - 1), last);
      assert Network(x, m + n) == Network(x / 256, m + (n - 1)) + last;
    }
  }

  const WORD: nat := 0x1_0000_0000

  lemma PowerValues()
    ensures Power(1) == 256 && Power(2) == 0x1_0000 && Power(4) == WORD && Power(8) == WORD * WORD
  {
    assert Power(3) == 256 * Power(2);
    assert Power(5) == 256 * Power(4) && Power(6) == 256 * Power(5) && Power(7) == 256 * Power(6);
  }

  lemma Quotients(x: nat)
    ensures x / 256 / 256 == x / 0x1_0000 && x / 256 / 256 / 256 == x / 0x100_0000
    ensures x / 256 / 256 / 256 / 256 == x / WORD
  {
  }

  lemma AboveFour(x: nat)
    ensures Above(x, 4) == x / WORD
  {
    Quotients(x);
    assert Above(x, 4) == Above(x / 256 / 256, 2);
    assert Above(x / 256 / 256, 2) == Above(x / 256 / 256 / 256 / 256, 0);
  }

  lemma TwoBytes(x: nat, n: nat)
    ensures Network(x, n + 2) == Network(x / 256 / 256, n) + [(x / 256 % 256) as byte, (x % 256) as byte]
  {
    assert Network(x, n + 2) == Network(x / 256, n + 1) + [(x % 256) as byte];
  }

  lemma FourSteps(x: nat, y: nat)
    requires y == x / 256 / 256
    ensures Network(x, 4) == [(y / 256 % 256) as byte, (y % 256) as byte] + [(x / 256 % 256) as byte, (x % 256) as byte]
  {
    TwoBytes(x, 2);
    TwoBytes(y, 0);
  }

  lemma FourBytes(x: nat)
    ensures Network(x, 4) == [(x / 0x100_0000 % 256) as byte, (x / 0x1_0000 % 256) as byte] +
                             [(x / 0x100 % 256) as byte, (x % 256) as byte]
  {
    Quotients(x);
    FourSteps(x, x / 0x1_0000);
  }

  predicate SameDigits(x: nat, y: nat) {
    && y % 256 == x % 256 && y / 0x100 % 256 == x / 0x100 % 256
    && y / 0x1_0000 % 256 == x / 0x1_0000 % 256 && y / 0x100_0000 % 256 == x / 0x100_0000 % 256
  }

  lemma AddedMultiple(k: nat, r: nat)
    ensures (256 * k + r) % 256 == r % 256
  {
  }

  lemma LowDigits(x: nat)
    ensures SameDigits(x, x % WORD)
  {
    var q, y := x / WORD, x % WORD;
    assert x == WORD * q + y;
    assert x / 0x100 == 0x100_0000 * q + y / 0x100;
    assert x / 0x1_0000 == 0x1_0000 * q + y / 0x1_0000;
    assert x / 0x100_0000 == 0x100 * q + y / 0x100_0000;
    AddedMultiple(0x100_0000 * q, y);
    AddedMultiple(0x1_0000 * q, y / 0x100);
    AddedMultiple(0x100 * q, y / 0x1_0000);
    AddedMultiple(q, y / 0x100_0000);
  }

  lemma Halves(x: nat)
    ensures Above(x, 4) == x / WORD && Network(x % WORD, 4) == Network(x, 4)
  {
    AboveFour(x);
    FourBytes(x);
    FourBytes(x % WORD);
    LowDigits(x);
  }

  // A 64-bit number is its high half and its low half in turn.
  lemma SwappedHalves(x: nat)
    requires x < WORD * WORD
    ensures Swapped(x, 8) == Swapped(x / WORD, 4) + WORD * Swapped(x % WORD, 4)
  {
    PowerValues();
    NetworkAppend(x, 4, 4);
    Halves(x);
    FromStoredAppend(Network(x / WORD, 4), Network(x % WORD, 4));
  }

  lemma HalfFits(x: nat)
    requires x < WORD * WORD
    ensures x / WORD % WORD == x / WORD
  {
  }

  lemma ShiftFits(x: nat)
    requires x < WORD
    ensures x * WORD % (WORD * WORD) == x * WORD
  {
  }

  // htonll: stepwise on the two halves, as the code does it.
  method Htonll(host: nat) returns (ret: nat)
    requires host < WORD * WORD
    ensures ret == Swapped(host, 8) < WORD * WORD
    ensures Stored(ret, 8) == Network(host, 8)
  {
    var low := host % WORD;
    var high := host / WORD % WORD;
    low := Swapped(low, 4);
    high := Swapped(high, 4);
    ret := low;
    PowerValues();
    SwappedIsStored(host % WORD, 4);
    ShiftFits(ret);
    HalfFits(host);
    ret := ret * WORD % (WORD * WORD);
    // the low half of ret is zero, so the bitwise or adds
    ret := ret + high;
    SwappedHalves(host);
    SwappedIsStored(host, 8);
  }

  // Swapping twice is the identity, so ntohll (the same code) undoes htonll.
  lemma SwapTwice(x: nat, n: nat)
    requires x < Power(n)
    ensures Swapped(Swapped(x, n), n) == x
  {
    SwappedIsStored(x, n);
    NetworkIsReverse(Swapped(x, n), n);
    NetworkIsReverse(x, n);
    ReverseTwice(Stored(x, n));
    StoredValue(x, n);
  }

  function Reverse(s: seq<byte>): (r: seq<byte>)
    ensures |r| == |s| && forall i :: 0 <= i < |s| ==> r[i] == s[|s| - 1 - i]
  {
    if s == [] then [] else Reverse(s[1..]) + [s[0]]
  }

  lemma ReverseTwice(s: seq<byte>)
    ensures Reverse(Reverse(s)) == s
  {
  }

  lemma {:induction false} NetworkIsReverse(x: nat, n: nat)
    ensures Network(x, n) == Reverse(Stored(x, n))
  {
    if n > 0 {
      NetworkIsReverse(x / 256, n - 1);
      assert Stored(x, n)[1..] == Stored(x / 256, n - 1);
    }
  }

  lemma {:induction false} StoredValue(x: nat, n: nat)
    requires x < Power(n)
    ensures FromStored(Stored(x, n)) == x
  {
    if n > 0 {
      StoredValue(x / 256, n - 1);
      ByteValue(x % 256);
      assert Stored(x, n)[1..] == Stored(x / 256, n - 1);
    }
  }

  method Ntohll(host: nat) returns (ret: nat)
    requires host < WORD * WORD
    ensures ret == Swapped(host, 8)
    ensures Swapped(ret, 8) == host
  {
    ret := Htonll(host);
    PowerValues();
    SwapTwice(host, 8);
  }
}
