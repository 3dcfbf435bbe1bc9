/** Bytes as bit vectors, and their values. */
module Bytes {
  type byte = bv8

  lemma NextByte(b: byte)
    ensures b != 0xFF ==> (b + 1) as int == b as int + 1
    ensures b as int < 0xFF ==> b != 0xFF
  {
  }

  /** The byte of this value. */
  function ToByte(n: nat): (b: byte)
    requires n < 0x100
    ensures b as int == n
  {
    if n == 0 then 0 else
      var less := ToByte(n - 1);
      NextByte(less);
      less + 1
  }

  lemma BytesDiffer(a: byte, b: byte)
    ensures a as int == b as int <==> a == b
  {
  }

  function Value(b: byte): (n: nat)
    ensures n < 0x100
  {
    b as int
  }

  predicate LowBit(b: byte) {
    b & 1 == 1
  }

  predicate OddOfFour(p: bool, q: bool, r: bool, s: bool) {
    (p != q) != (r != s)
  }

  predicate OddLow(b: byte) {
    OddOfFour(LowBit(b), LowBit(b >> 1), LowBit(b >> 2), LowBit(b >> 3))
  }

  /** An odd number of bits is set. */
  predicate OddOnes(b: byte) {
    OddLow(b) != OddLow(b >> 4)
  }

  lemma LowBitXor(a: byte, b: byte)
    ensures LowBit(a ^ b) == (LowBit(a) != LowBit(b))
  {
  }

  lemma ShiftXor(a: byte, b: byte)
    ensures (a ^ b) >> 1 == (a >> 1) ^ (b >> 1) && (a ^ b) >> 2 == (a >> 2) ^ (b >> 2)
    ensures (a ^ b) >> 3 == (a >> 3) ^ (b >> 3) && (a ^ b) >> 4 == (a >> 4) ^ (b >> 4)
  {
  }

  lemma OddLowXor(a: byte, b: byte)
    ensures OddLow(a ^ b) <==> OddLow(a) != OddLow(b)
  {
    hide LowBit;
    ShiftXor(a, b);
    LowBitXor(a, b);
    LowBitXor(a >> 1, b >> 1);
    LowBitXor(a >> 2, b >> 2);
    LowBitXor(a >> 3, b >> 3);
  }

  /** Xor combines parities. */
  lemma OddOnesXor(a: byte, b: byte)
    ensures OddOnes(a ^ b) <==> OddOnes(a) != OddOnes(b)
  {
    hide OddLow;
    ShiftXor(a, b);
    OddLowXor(a, b);
    OddLowXor(a >> 4, b >> 4);
  }

  lemma OddOnesStep(b: byte)
    ensures OddOnes(b) <==> LowBit(b) != OddOnes(b >> 1)
  {
  }

  lemma NoOnes()
    ensures !OddOnes(0)
  {
  }
}
