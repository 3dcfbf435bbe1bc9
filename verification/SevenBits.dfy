/** Seven data bits on a chip that always uses eight: the eighth bit carries the parity, or a stop level. */
module SevenBits {
  import opened Words
  import opened Bytes

  datatype Parity = NoParity | Odd | Even

  /** The driver's parity: a fold to four bits and a 16-entry table held in one word. */
  function OddParity7(value: byte): byte {
    var folded := value ^ (value >> 4);
    (((0x6996 as bv16) >> (folded & 0x0F)) & 1) as byte
  }

  function Flip(parity: Parity): byte {
    if parity.Odd? then 1 else 0
  }

  function Encoded(parity: Parity, b: byte): byte {
    var value := b & 0x7F;
    value | ((if parity.NoParity? then 1 else OddParity7(value) ^ Flip(parity)) << 7)
  }

  function Decoded(b: byte): byte {
    b & 0x7F
  }

  predicate ParityError(parity: Parity, b: byte) {
    !parity.NoParity? && b >> 7 != OddParity7(b & 0x7F) ^ Flip(parity)
  }

  /** The table does say whether the seven bits hold an odd number of ones. */
  lemma TableIsParity(b: byte)
    ensures OddParity7(b & 0x7F) == if OddOnes(b & 0x7F) then 1 else 0
  {
  }

  lemma EighthBit(b: byte)
    ensures OddOnes(b) <==> OddOnes(b & 0x7F) != (b >> 7 == 1)
    ensures b >> 7 == 0 || b >> 7 == 1
  {
  }

  /** A byte is in error exactly when its eight bits hold the wrong number of ones for the parity of the line. */
  lemma ParityErrorMeans(parity: Parity, b: byte)
    ensures ParityError(parity, b) <==> (parity.Even? && OddOnes(b)) || (parity.Odd? && !OddOnes(b))
  {
    TableIsParity(b);
    EighthBit(b);
  }

  /** What was encoded decodes to its seven low bits, without a parity error. */
  lemma SevenBitsRoundTrip(parity: Parity, b: byte)
    ensures Decoded(Encoded(parity, b)) == b & 0x7F
    ensures !ParityError(parity, Encoded(parity, b))
  {
  }

  /** On a line with parity, damage to a good byte is noticed exactly when it flips an odd number of bits. */
  lemma DamageNoticed(parity: Parity, b: byte, flipped: byte)
    requires !parity.NoParity? && !ParityError(parity, b)
    ensures ParityError(parity, b ^ flipped) <==> OddOnes(flipped)
  {
    ParityErrorMeans(parity, b);
    ParityErrorMeans(parity, b ^ flipped);
    OddOnesXor(b, flipped);
  }

  lemma WithoutEighthBit(b: byte)
    ensures Decoded(b) == if b < 0x80 then b else b - 0x80
    ensures b < 0x80 <==> b as int < 0x80
  {
  }

  lemma EighthBitIs128(b: byte)
    requires b >= 0x80
    ensures (b - 0x80) as int == b as int - 0x80
  {
  }

  /** As numbers, decoding is the remainder by 128. */
  lemma DecodedIsRemainder(b: byte)
    ensures Decoded(b) as int == b as int % 0x80
  {
    WithoutEighthBit(b);
    if b >= 0x80 {
      EighthBitIs128(b);
    }
  }

  method Encode7Bits(parity: Parity, src: array<byte>, dst: array<byte>, length: nat)
    requires length <= src.Length && length <= dst.Length && src != dst
    modifies dst
    ensures forall i :: 0 <= i < length ==> dst[i] == Encoded(parity, src[i])
    ensures forall i :: length <= i < dst.Length ==> dst[i] == old(dst[i])
  {
    var flip := Flip(parity);
    var hasParity := !parity.NoParity?;
    for i := 0 to length
      invariant forall k :: 0 <= k < i ==> dst[k] == Encoded(parity, src[k])
      invariant forall k :: i <= k < dst.Length ==> dst[k] == old(dst[k])
    {
      var value := src[i] & 0x7F;
      var bit8: byte := if hasParity then OddParity7(value) ^ flip else 1;
      dst[i] := value | (bit8 << 7);
    }
  }
}
