/** Bytes, the numbers they stand for, and sequences of them. */
module Bytes {

  type byte = bv8

  lemma ByteValue(x: nat)
    requires x < 256
    ensures (x as bv8) as nat == x
  {
  }

  lemma ByteOrdered(b: bv8, c: bv8)
    ensures b as nat < c as nat <==> b < c
    ensures b as nat == c as nat <==> b == c
  {
  }

  lemma ByteRange(b: bv8)
    ensures b as nat < 256 && (b as nat) as bv8 == b
  {
  }

  lemma Digits(a: nat, b: nat)
    requires a < 256 && b < 256
    ensures (a + 256 * b) % 256 == a && (a + 256 * b) / 256 % 256 == b
  {
  }
}

module Sequences {

  lemma Associate<T>(a: seq<T>, b: seq<T>, c: seq<T>)
    ensures a + b + c == a + (b + c)
  {
  }
}
