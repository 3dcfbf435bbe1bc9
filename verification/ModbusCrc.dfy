/** The CRC-16 of Modbus over Serial Line V1.02, section 6.2.2, and what it detects. */
module ModbusCrc {
  import opened Bytes

  function ShiftOnce(crc: bv16): bv16 {
    if crc & 0x0001 != 0 then (crc >> 1) ^ 0xA001 else crc >> 1
  }

  function Shift2(crc: bv16): bv16 {
    ShiftOnce(ShiftOnce(crc))
  }

  function Shift4(crc: bv16): bv16 {
    Shift2(Shift2(crc))
  }

  function Shift8(crc: bv16): bv16 {
    Shift4(Shift4(crc))
  }

  /** One byte of the message. */
  function Absorb(crc: bv16, b: byte): bv16 {
    Shift8(crc ^ (b as bv16))
  }

  function CrcFrom(crc: bv16, s: seq<byte>): bv16
    decreases |s|
  {
    if s == [] then crc else Absorb(CrcFrom(crc, s[..|s| - 1]), s[|s| - 1])
  }

  function Crc(s: seq<byte>): bv16 {
    CrcFrom(0xFFFF, s)
  }

  /** The two CRC bytes as they end a frame, low byte first. */
  function CrcBytes(crc: bv16): seq<byte> {
    [(crc & 0xFF) as byte, (crc >> 8) as byte]
  }

  function Shifts(crc: bv16, n: nat): bv16
    decreases n
  {
    if n == 0 then crc else ShiftOnce(Shifts(crc, n - 1))
  }

  lemma EightShifts(crc: bv16)
    ensures Shifts(crc, 8) == Shift8(crc)
  {
    hide ShiftOnce;
    assert Shifts(crc, 2) == Shift2(crc);
    assert Shifts(crc, 4) == Shift4(crc);
    assert Shifts(crc, 6) == Shift2(Shift4(crc));
  }

  lemma ShiftOnceIs(crc: bv16)
    ensures ShiftOnce(crc) == if crc & 0x0001 != 0 then (crc >> 1) ^ 0xA001 else crc >> 1
  {
  }

  method ModbusCrc16(data: seq<byte>) returns (crc: bv16)
    ensures crc == Crc(data)
  {
    hide ShiftOnce;
    crc := 0xFFFF;
    for pos := 0 to |data|
      invariant crc == Crc(data[..pos])
    {
      ghost var before := crc;
      crc := crc ^ (data[pos] as bv16);
      ghost var start := crc;
      var i := 8;
      while i != 0
        invariant 0 <= i <= 8
        invariant crc == Shifts(start, 8 - i)
      {
        ShiftOnceIs(crc);
        if crc & 0x0001 != 0 {
          crc := crc >> 1;
          crc := crc ^ 0xA001;
        } else {
          crc := crc >> 1;
        }
        i := i - 1;
      }
      EightShifts(start);
      assert data[..pos + 1][..pos] == data[..pos];
      assert crc == Absorb(before, data[pos]);
    }
    assert data[..|data|] == data;
  }

  // ---------------------------------------------------------------------------------------------------------------
  // The shift register is linear and loses nothing
  // ---------------------------------------------------------------------------------------------------------------

  function Xor(a: bv16, b: bv16): bv16 {
    a ^ b
  }

  function Half(c: bv16): bv16 {
    c >> 1
  }

  predicate OutBit(c: bv16) {
    c & 0x0001 != 0
  }

  /** What the bit that leaves the register adds to it. */
  function Tap(out: bool): bv16 {
    if out then 0xA001 else 0
  }

  lemma XorIs(a: bv16, b: bv16)
    ensures Xor(a, b) == a ^ b
  {
  }

  lemma XorZero(a: bv16)
    ensures Xor(a, 0) == a && Xor(0, a) == a && Xor(a, a) == 0
  {
  }

  lemma HalfXor(a: bv16, b: bv16)
    ensures Half(Xor(a, b)) == Xor(Half(a), Half(b))
  {
  }

  lemma LowXor(a: bv16, b: bv16)
    ensures OutBit(Xor(a, b)) <==> OutBit(a) != OutBit(b)
  {
    BitXor(a & 1, b & 1);
    MaskXor(a, b);
  }

  lemma MaskXor(a: bv16, b: bv16)
    ensures (a ^ b) & 1 == (a & 1) ^ (b & 1)
    ensures (a & 1 == 0 || a & 1 == 1) && (b & 1 == 0 || b & 1 == 1)
  {
  }

  lemma BitXor(p: bv16, q: bv16)
    requires (p == 0 || p == 1) && (q == 0 || q == 1)
    ensures p ^ q == 0 <==> p == q
  {
  }

  lemma XorAssociates(a: bv16, b: bv16, c: bv16)
    ensures Xor(Xor(a, b), c) == Xor(a, Xor(b, c))
  {
  }

  lemma XorCommutes(a: bv16, b: bv16)
    ensures Xor(a, b) == Xor(b, a)
  {
  }

  lemma XorPairs(a: bv16, p: bv16, b: bv16, q: bv16)
    ensures Xor(Xor(a, b), Xor(p, q)) == Xor(Xor(a, p), Xor(b, q))
  {
    hide Xor;
    XorAssociates(a, b, Xor(p, q));
    XorAssociates(b, p, q);
    XorCommutes(b, p);
    XorAssociates(p, b, q);
    XorAssociates(a, p, Xor(b, q));
  }

  lemma ShiftOnceForm(c: bv16)
    ensures ShiftOnce(c) == Xor(Half(c), Tap(OutBit(c)))
  {
    XorZero(Half(c));
  }

  lemma TapXor(p: bool, q: bool)
    ensures Tap(p != q) == Xor(Tap(p), Tap(q))
  {
    XorZero(0xA001);
    XorZero(0);
  }

  lemma ShiftOnceXor(a: bv16, b: bv16)
    ensures ShiftOnce(Xor(a, b)) == Xor(ShiftOnce(a), ShiftOnce(b))
  {
    hide *;
    ShiftOnceForm(a);
    ShiftOnceForm(b);
    ShiftOnceForm(Xor(a, b));
    HalfXor(a, b);
    LowXor(a, b);
    TapXor(OutBit(a), OutBit(b));
    XorPairs(Half(a), Tap(OutBit(a)), Half(b), Tap(OutBit(b)));
  }

  lemma Shift2Xor(a: bv16, b: bv16)
    ensures Shift2(Xor(a, b)) == Xor(Shift2(a), Shift2(b))
  {
    hide ShiftOnce, Xor;
    ShiftOnceXor(a, b);
    ShiftOnceXor(ShiftOnce(a), ShiftOnce(b));
  }

  lemma Shift4Xor(a: bv16, b: bv16)
    ensures Shift4(Xor(a, b)) == Xor(Shift4(a), Shift4(b))
  {
    hide Shift2, Xor;
    Shift2Xor(a, b);
    Shift2Xor(Shift2(a), Shift2(b));
  }

  lemma Shift8Xor(a: bv16, b: bv16)
    ensures Shift8(Xor(a, b)) == Xor(Shift8(a), Shift8(b))
  {
    hide Shift4, Xor;
    Shift4Xor(a, b);
    Shift4Xor(Shift4(a), Shift4(b));
  }

  lemma Shift8Keeps(a: bv16)
    ensures Shift8(a) == 0 <==> a == 0
  {
  }

  lemma EqualWhenXorZero(a: bv16, b: bv16)
    ensures a ^ b == 0 <==> a == b
  {
  }

  lemma WidenXor(a: byte, b: byte)
    ensures (a as bv16) ^ (b as bv16) == (a ^ b) as bv16
    ensures (a as bv16) < 0x100
  {
  }

  lemma XorRegroup(c: bv16, a: bv16, d: bv16, b: bv16)
    ensures (c ^ a) ^ (d ^ b) == (c ^ d) ^ (a ^ b)
  {
  }

  lemma AbsorbXor(c: bv16, a: byte, d: bv16, b: byte)
    ensures Xor(c ^ (a as bv16), d ^ (b as bv16)) == (c ^ d) ^ ((a ^ b) as bv16)
  {
    WidenXor(a, b);
    XorRegroup(c, a as bv16, d, b as bv16);
  }

  /** How a difference goes through one byte. */
  lemma AbsorbDifference(c: bv16, d: bv16, a: byte, b: byte)
    ensures Xor(Absorb(c, a), Absorb(d, b)) == Shift8((c ^ d) ^ ((a ^ b) as bv16))
  {
    hide Shift8, Xor;
    AbsorbXor(c, a, d, b);
    Shift8Xor(c ^ (a as bv16), d ^ (b as bv16));
  }

  lemma XorOfSame(a: bv16, b: bv16)
    ensures Xor(a, b) == 0 <==> a == b
  {
    hide Xor;
    XorIs(a, b);
    EqualWhenXorZero(a, b);
  }

  /** Two registers that take in the same byte stay as different as they were. */
  lemma AbsorbInjective(c: bv16, d: bv16, b: byte)
    ensures Absorb(c, b) == Absorb(d, b) <==> c == d
  {
    hide Absorb, Shift8, Xor;
    AbsorbDifference(c, d, b, b);
    Shift8Keeps((c ^ d) ^ ((b ^ b) as bv16));
    XorOfSame(Absorb(c, b), Absorb(d, b));
    EqualWhenXorZero(c, d);
  }

  lemma {:induction false} CrcInjective(c: bv16, d: bv16, s: seq<byte>)
    ensures CrcFrom(c, s) == CrcFrom(d, s) <==> c == d
    decreases |s|
  {
    hide Absorb;
    if s != [] {
      CrcInjective(c, d, s[..|s| - 1]);
      AbsorbInjective(CrcFrom(c, s[..|s| - 1]), CrcFrom(d, s[..|s| - 1]), s[|s| - 1]);
    }
  }

  lemma {:induction false} CrcAppend(c: bv16, s: seq<byte>, t: seq<byte>)
    ensures CrcFrom(c, s + t) == CrcFrom(CrcFrom(c, s), t)
    decreases |t|
  {
    hide Absorb;
    if t == [] {
      assert s + t == s;
    } else {
      CrcAppend(c, s, t[..|t| - 1]);
      assert (s + t)[..|s + t| - 1] == s + t[..|t| - 1];
    }
  }

  lemma CrcOfOne(c: bv16, s: seq<byte>)
    requires |s| == 1
    ensures CrcFrom(c, s) == Absorb(c, s[0])
  {
    hide Absorb;
    assert s[..0] == [];
  }

  lemma CrcOfTwo(c: bv16, s: seq<byte>)
    requires |s| == 2
    ensures CrcFrom(c, s) == Absorb(Absorb(c, s[0]), s[1])
  {
    hide Absorb;
    CrcOfOne(c, s[..1]);
  }

  lemma CrcOfThree(c: bv16, s: seq<byte>)
    requires |s| == 3
    ensures CrcFrom(c, s) == Absorb(Absorb(Absorb(c, s[0]), s[1]), s[2])
  {
    hide Absorb;
    CrcOfTwo(c, s[..2]);
  }

  // ---------------------------------------------------------------------------------------------------------------
  // What is detected
  // ---------------------------------------------------------------------------------------------------------------

  /** The flipped bits. */
  function Damage(a: byte, b: byte): byte {
    a ^ b
  }

  function Wide(b: byte): bv16 {
    b as bv16
  }

  /** What two bytes of damage leave in the register. */
  function Left(a: byte, b: byte): bv16 {
    Shift8(Shift8(Wide(a)) ^ Wide(b))
  }

  /** Three bytes of damage, lowest bit first, lie within 16 consecutive bits: the last byte has no bit at or above the
      lowest one of the first. */
  predicate FitsSixteenBits(first: byte, last: byte) {
    first == 0 || last < (first & (0 - first))
  }

  /** The same piece of a message, damaged: in one or two adjacent bytes in any way, or by a burst of at most 16 bits
      that reaches over three bytes. */
  predicate Burst(u: seq<byte>, v: seq<byte>) {
    && |u| == |v| <= 3 && u != v
    && (|u| == 3 ==> FitsSixteenBits(Damage(u[0], v[0]), Damage(u[2], v[2])))
  }

  /** The register after a burst, from zero: the last byte of the damage cannot cancel what the first two left. */
  lemma BurstLeaves(a: byte, b: byte, c: byte)
    requires FitsSixteenBits(a, c) && Left(a, b) == Wide(c)
    ensures a == 0 && b == 0 && c == 0
  {
  }

  lemma TwoLeave(a: byte, b: byte)
    requires Shift8(Wide(a)) == Wide(b)
    ensures a == 0 && b == 0
  {
  }

  lemma ByteDiffers(a: byte, b: byte)
    ensures Damage(a, b) == 0 <==> a == b
    ensures Wide(Damage(a, b)) == 0 <==> a == b
  {
  }

  /** The difference of the registers after one, two and three bytes. */
  function Trail(d: bv16, a: byte, b: byte): bv16 {
    Shift8(d ^ Wide(Damage(a, b)))
  }

  lemma TrailIs(c: bv16, d: bv16, a: byte, b: byte)
    ensures Xor(Absorb(c, a), Absorb(d, b)) == Trail(Xor(c, d), a, b)
  {
    hide Absorb, Shift8;
    AbsorbDifference(c, d, a, b);
  }

  lemma TrailZero(d: bv16, a: byte, b: byte)
    ensures Trail(d, a, b) == 0 <==> d == Wide(Damage(a, b))
  {
    hide Shift8;
    Shift8Keeps(d ^ (Wide(Damage(a, b))));
    EqualWhenXorZero(d, Wide(Damage(a, b)));
  }

  lemma OneByteChanges(c: bv16, u: seq<byte>, v: seq<byte>)
    requires |u| == |v| == 1 && u != v
    ensures CrcFrom(c, u) != CrcFrom(c, v)
  {
    hide Absorb, Xor, Trail;
    CrcOfOne(c, u);
    CrcOfOne(c, v);
    XorOfSame(c, c);
    TrailIs(c, c, u[0], v[0]);
    TrailZero(0, u[0], v[0]);
    ByteDiffers(u[0], v[0]);
    XorOfSame(Absorb(c, u[0]), Absorb(c, v[0]));
  }

  lemma TrailFromZero(a: byte, b: byte)
    ensures Trail(0, a, b) == Shift8(Wide(Damage(a, b)))
  {
    hide Shift8;
    EqualWhenXorZero(Wide(Damage(a, b)), Wide(Damage(a, b)));
  }

  lemma TrailTwice(a: byte, b: byte, a2: byte, b2: byte)
    ensures Trail(Trail(0, a, b), a2, b2) == Left(Damage(a, b), Damage(a2, b2))
  {
    hide Shift8;
    TrailFromZero(a, b);
  }

  lemma TwoTrails(a: byte, b: byte, a2: byte, b2: byte)
    ensures Trail(Trail(0, a, b), a2, b2) == 0 <==> a == b && a2 == b2
  {
    hide Shift8, Trail, Wide, Damage;
    TrailFromZero(a, b);
    TrailZero(Trail(0, a, b), a2, b2);
    ByteDiffers(a, b);
    ByteDiffers(a2, b2);
    if Shift8(Wide(Damage(a, b))) == Wide(Damage(a2, b2)) {
      TwoLeave(Damage(a, b), Damage(a2, b2));
    } else if a == b && a2 == b2 {
      Shift8Keeps(0);
    }
  }

  lemma ThreeTrails(a: byte, b: byte, a2: byte, b2: byte, a3: byte, b3: byte)
    requires FitsSixteenBits(Damage(a, b), Damage(a3, b3))
    ensures Trail(Trail(Trail(0, a, b), a2, b2), a3, b3) == 0 ==> a == b && a2 == b2 && a3 == b3
  {
    hide Shift8, Trail, FitsSixteenBits, Left, Wide, Damage;
    TrailTwice(a, b, a2, b2);
    TrailZero(Trail(Trail(0, a, b), a2, b2), a3, b3);
    ByteDiffers(a, b);
    ByteDiffers(a2, b2);
    ByteDiffers(a3, b3);
    if Trail(Trail(Trail(0, a, b), a2, b2), a3, b3) == 0 {
      BurstLeaves(Damage(a, b), Damage(a2, b2), Damage(a3, b3));
    }
  }

  lemma TwoBytesChange(c: bv16, u: seq<byte>, v: seq<byte>)
    requires |u| == |v| == 2 && u != v
    ensures CrcFrom(c, u) != CrcFrom(c, v)
  {
    hide Absorb, Xor, Trail;
    CrcOfTwo(c, u);
    CrcOfTwo(c, v);
    XorOfSame(c, c);
    var c1, d1 := Absorb(c, u[0]), Absorb(c, v[0]);
    TrailIs(c, c, u[0], v[0]);
    TrailIs(c1, d1, u[1], v[1]);
    XorOfSame(Absorb(c1, u[1]), Absorb(d1, v[1]));
    TwoTrails(u[0], v[0], u[1], v[1]);
  }

  lemma ThreeBytesChange(c: bv16, u: seq<byte>, v: seq<byte>)
    requires |u| == |v| == 3 && u != v && FitsSixteenBits(Damage(u[0], v[0]), Damage(u[2], v[2]))
    ensures CrcFrom(c, u) != CrcFrom(c, v)
  {
    hide Absorb, Xor, Trail, FitsSixteenBits, Damage;
    CrcOfThree(c, u);
    CrcOfThree(c, v);
    XorOfSame(c, c);
    var c1, d1 := Absorb(c, u[0]), Absorb(c, v[0]);
    var c2, d2 := Absorb(c1, u[1]), Absorb(d1, v[1]);
    TrailIs(c, c, u[0], v[0]);
    TrailIs(c1, d1, u[1], v[1]);
    TrailIs(c2, d2, u[2], v[2]);
    XorOfSame(Absorb(c2, u[2]), Absorb(d2, v[2]));
    ThreeTrails(u[0], v[0], u[1], v[1], u[2], v[2]);
  }

  /** A burst anywhere in a message of any length changes its CRC. */
  lemma BurstDetected(before: seq<byte>, u: seq<byte>, v: seq<byte>, after: seq<byte>)
    requires Burst(u, v)
    ensures Crc(before + u + after) != Crc(before + v + after)
  {
    var c := Crc(before);
    CrcAppend(0xFFFF, before, u);
    CrcAppend(0xFFFF, before, v);
    CrcAppend(0xFFFF, before + u, after);
    CrcAppend(0xFFFF, before + v, after);
    if |u| == 1 {
      OneByteChanges(c, u, v);
    } else if |u| == 2 {
      TwoBytesChange(c, u, v);
    } else {
      ThreeBytesChange(c, u, v);
    }
    CrcInjective(CrcFrom(c, u), CrcFrom(c, v), after);
  }

  // ---------------------------------------------------------------------------------------------------------------
  // Odd numbers of flipped bits
  // ---------------------------------------------------------------------------------------------------------------

  lemma HalfIsLess(c: bv16)
    ensures c != 0 ==> Half(c) < c
    ensures Half(0) == 0 && !OutBit(0)
  {
  }

  /** An odd number of bits of the register is set. */
  predicate Odd(c: bv16)
    decreases c
  {
    HalfIsLess(c);
    c != 0 && OutBit(c) != Odd(Half(c))
  }

  lemma OddStep(c: bv16)
    ensures Odd(c) <==> OutBit(c) != Odd(Half(c))
  {
    HalfIsLess(c);
  }

  lemma HalfBoth(a: bv16, b: bv16)
    ensures a | b != 0 ==> Half(a) | Half(b) < a | b
    ensures a | b == 0 ==> a == 0 && b == 0
  {
  }

  lemma {:induction false} OddXor(a: bv16, b: bv16)
    ensures Odd(Xor(a, b)) <==> Odd(a) != Odd(b)
    decreases a | b
  {
    hide Odd, Xor, Half, OutBit;
    HalfBoth(a, b);
    if a | b == 0 {
      XorZero(0);
      OddOfZero();
    } else {
      OddXor(Half(a), Half(b));
      OddStep(a);
      OddStep(b);
      OddStep(Xor(a, b));
      HalfXor(a, b);
      LowXor(a, b);
    }
  }

  lemma OddOfZero()
    ensures !Odd(0)
  {
  }

  /** The tap has three ones. */
  lemma TapIsOdd()
    ensures Odd(0xA001)
  {
    assert Odd(0x0001) && Odd(0x0002);
    assert !Odd(0x0005) && !Odd(0x000A) && !Odd(0x0014) && !Odd(0x0028) && !Odd(0x0050) && !Odd(0x00A0);
    assert !Odd(0x0140) && !Odd(0x0280) && !Odd(0x0500) && !Odd(0x0A00) && !Odd(0x1400) && !Odd(0x2800);
    assert !Odd(0x5000);
  }

  /** A one that leaves the register comes back as the three ones of the tap. */
  lemma ShiftKeepsParity(c: bv16)
    ensures Odd(ShiftOnce(c)) <==> Odd(c)
  {
    hide Odd, Xor, Half, OutBit, ShiftOnce;
    ShiftOnceForm(c);
    OddXor(Half(c), Tap(OutBit(c)));
    OddStep(c);
    TapIsOdd();
    OddOfZero();
  }

  lemma Shift8KeepsParity(c: bv16)
    ensures Odd(Shift8(c)) <==> Odd(c)
  {
    hide ShiftOnce, Odd;
    forall d: bv16 ensures Odd(Shift2(d)) <==> Odd(d) {
      ShiftKeepsParity(d);
      ShiftKeepsParity(ShiftOnce(d));
    }
    assert Odd(Shift4(c)) <==> Odd(c);
  }

  lemma WideSteps(b: byte)
    ensures Half(Wide(b)) == Wide(b >> 1) && (OutBit(Wide(b)) <==> LowBit(b)) && (b != 0 ==> b >> 1 < b)
    ensures Wide(0) == 0
  {
  }

  lemma {:induction false} OddOfByte(b: byte)
    ensures Odd(Wide(b)) <==> OddOnes(b)
    decreases b
  {
    hide Odd, Wide, OddOnes;
    WideSteps(b);
    if b == 0 {
      OddOfZero();
      NoOnes();
    } else {
      OddOfByte(b >> 1);
      OddStep(Wide(b));
      OddOnesStep(b);
    }
  }

  /** The number of bits by which two messages of one length differ is odd. */
  predicate OddFlips(u: seq<byte>, v: seq<byte>)
    requires |u| == |v|
  {
    u != [] && var n := |u| - 1; OddFlips(u[..n], v[..n]) != OddOnes(Damage(u[n], v[n]))
  }

  lemma TrailForm(d: bv16, a: byte, b: byte)
    ensures Trail(d, a, b) == Shift8(Xor(d, Wide(Damage(a, b))))
  {
    hide Shift8, Wide, Damage;
  }

  lemma AbsorbParity(c: bv16, d: bv16, a: byte, b: byte)
    ensures Odd(Xor(Absorb(c, a), Absorb(d, b))) <==> Odd(Xor(c, d)) != OddOnes(Damage(a, b))
  {
    hide Odd, Shift8, Wide, Absorb, OddOnes, Damage, Xor, Trail;
    TrailIs(c, d, a, b);
    TrailForm(Xor(c, d), a, b);
    Shift8KeepsParity(Xor(Xor(c, d), Wide(Damage(a, b))));
    OddXor(Xor(c, d), Wide(Damage(a, b)));
    OddOfByte(Damage(a, b));
  }

  /** The parity of the difference of the registers is that of the flipped bits. */
  lemma {:induction false} CrcParity(c: bv16, u: seq<byte>, v: seq<byte>)
    requires |u| == |v|
    ensures Odd(Xor(CrcFrom(c, u), CrcFrom(c, v))) <==> OddFlips(u, v)
    decreases |u|
  {
    hide Odd, Absorb, OddOnes, Damage, Xor;
    if u == [] {
      XorZero(c);
      OddOfZero();
    } else {
      var n := |u| - 1;
      CrcParity(c, u[..n], v[..n]);
      AbsorbParity(CrcFrom(c, u[..n]), CrcFrom(c, v[..n]), u[n], v[n]);
    }
  }

  /** Any odd number of flipped bits, anywhere in a message of any length, changes its CRC. */
  lemma OddFlipsDetected(u: seq<byte>, v: seq<byte>)
    requires |u| == |v| && OddFlips(u, v)
    ensures Crc(u) != Crc(v)
  {
    hide Odd, CrcFrom, OddFlips;
    CrcParity(0xFFFF, u, v);
    XorOfSame(Crc(u), Crc(v));
    OddOfZero();
  }

  // ---------------------------------------------------------------------------------------------------------------
  // Frames
  // ---------------------------------------------------------------------------------------------------------------

  /** The test a receiver makes: the last two bytes are the CRC of what comes before them. */
  predicate Intact(frame: seq<byte>)
    requires |frame| >= 2
  {
    frame[|frame| - 2..] == CrcBytes(Crc(frame[..|frame| - 2]))
  }

  lemma OwnBytesCancel(c: bv16)
    ensures Absorb(Absorb(c, CrcBytes(c)[0]), CrcBytes(c)[1]) == 0
  {
  }

  lemma ResidueOf(c: bv16)
    ensures CrcFrom(c, CrcBytes(c)) == 0
  {
    hide CrcBytes, Absorb;
    OwnBytesCancel(c);
    TwoCrcBytes(c);
    CrcOfTwo(c, CrcBytes(c));
  }

  lemma TwoCrcBytes(c: bv16)
    ensures |CrcBytes(c)| == 2
  {
  }

  /** The same test over the whole frame: exactly the frames with the right two last bytes have a CRC of zero. */
  lemma IntactIsResidueZero(frame: seq<byte>)
    requires |frame| >= 2
    ensures Intact(frame) <==> Crc(frame) == 0
  {
    hide CrcBytes, CrcFrom;
    var n := |frame| - 2;
    var c := Crc(frame[..n]);
    assert frame == frame[..n] + frame[n..];
    CrcAppend(0xFFFF, frame[..n], frame[n..]);
    ResidueOf(c);
    TwoCrcBytes(c);
    if frame[n..] != CrcBytes(c) {
      TwoBytesChange(c, frame[n..], CrcBytes(c));
    }
  }

  /** An intact frame is not intact any more after a burst, wherever it strikes, the CRC bytes included. */
  lemma DamagedFrameRefused(before: seq<byte>, u: seq<byte>, v: seq<byte>, after: seq<byte>)
    requires Burst(u, v) && |before + u + after| >= 2
    requires Intact(before + u + after)
    ensures !Intact(before + v + after)
  {
    IntactIsResidueZero(before + u + after);
    IntactIsResidueZero(before + v + after);
    BurstDetected(before, u, v, after);
  }

  /** Nor after any odd number of flipped bits. */
  lemma OddFlipsRefused(frame: seq<byte>, damaged: seq<byte>)
    requires |frame| == |damaged| >= 2 && Intact(frame) && OddFlips(frame, damaged)
    ensures !Intact(damaged)
  {
    IntactIsResidueZero(frame);
    IntactIsResidueZero(damaged);
    OddFlipsDetected(frame, damaged);
  }
}
