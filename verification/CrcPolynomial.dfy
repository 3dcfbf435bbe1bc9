/** The CRC of Modbus over Serial Line V1.02, section 6.2.2, as a remainder of polynomials: what `ModbusCrc`
    computes with a shift register is the remainder of dividing the bits of the message, the first 16 of them
    inverted and 16 zeros appended, by x^16 + x^15 + x^2 + 1. */
module CrcPolynomial {
  import opened Bytes
  import opened ModbusCrc

  // ------------------------------------------------------------------------------------------------------------------
  // Polynomials over two elements, as the sets of their exponents
  // ------------------------------------------------------------------------------------------------------------------

  type Poly = set<nat>

  const GENERATOR: Poly := {16, 15, 2, 0}

  function Plus(a: Poly, b: Poly): Poly {
    (a - b) + (b - a)
  }

  /** Times x. */
  function Up(a: Poly): Poly {
    set e: nat | e in a :: e + 1
  }

  function Once(present: bool, a: Poly): Poly {
    if present then a else {}
  }

  /** The product with the polynomial whose coefficients are `bits`, the highest one first. */
  function Product(bits: seq<bool>, g: Poly): Poly {
    if bits == [] then {} else Plus(Up(Product(bits[..|bits| - 1], g)), Once(bits[|bits| - 1], g))
  }

  /** The polynomial with these coefficients. */
  function PolyOf(bits: seq<bool>): Poly {
    Product(bits, {0})
  }

  /** Division with remainder. */
  ghost predicate IsRemainder(dividend: Poly, divisor: Poly, degree: nat, r: Poly) {
    (forall e | e in r :: e < degree) && exists q :: dividend == Plus(Product(q, divisor), r)
  }

  lemma UpPlus(a: Poly, b: Poly)
    ensures Up(Plus(a, b)) == Plus(Up(a), Up(b))
  {
    forall e: nat ensures e in Up(Plus(a, b)) <==> e in Plus(Up(a), Up(b)) {
      assert e in Up(a) <==> e > 0 && e - 1 in a;
      assert e in Up(b) <==> e > 0 && e - 1 in b;
      assert e in Up(Plus(a, b)) <==> e > 0 && e - 1 in Plus(a, b);
    }
  }

  lemma PlusMoves(a: Poly, b: Poly, c: Poly)
    ensures Plus(Plus(a, b), c) == Plus(a, Plus(b, c))
    ensures Plus(a, b) == Plus(b, a)
    ensures Plus(a, a) == {} && Plus(a, {}) == a
  {
  }

  lemma PlusPairs(a: Poly, b: Poly, c: Poly, d: Poly)
    ensures Plus(Plus(a, b), Plus(c, d)) == Plus(Plus(a, c), Plus(b, d))
  {
  }

  lemma ProductNext(bits: seq<bool>, b: bool, g: Poly)
    ensures Product(bits + [b], g) == Plus(Up(Product(bits, g)), Once(b, g))
  {
    assert (bits + [b])[..|bits|] == bits;
  }

  // ------------------------------------------------------------------------------------------------------------------
  // There is only one remainder
  // ------------------------------------------------------------------------------------------------------------------

  function Flips(a: seq<bool>, b: seq<bool>): (r: seq<bool>)
    requires |a| == |b|
    ensures |r| == |a|
  {
    seq(|a|, k requires 0 <= k < |a| => a[k] != b[k])
  }

  lemma {:induction false} ProductOfFlips(a: seq<bool>, b: seq<bool>, g: Poly)
    requires |a| == |b|
    ensures Product(Flips(a, b), g) == Plus(Product(a, g), Product(b, g))
    decreases |a|
  {
    if a == [] {
      assert Flips(a, b) == [];
    } else {
      var n := |a| - 1;
      ProductOfFlips(a[..n], b[..n], g);
      assert Flips(a, b)[..n] == Flips(a[..n], b[..n]);
      UpPlus(Product(a[..n], g), Product(b[..n], g));
      PlusPairs(Up(Product(a[..n], g)), Up(Product(b[..n], g)), Once(a[n], g), Once(b[n], g));
      PlusMoves(g, g, {});
    }
  }

  function Zeros(n: nat): (r: seq<bool>)
    ensures |r| == n
  {
    seq(n, _ => false)
  }

  lemma {:induction false} LeadingZeros(n: nat, bits: seq<bool>, g: Poly)
    ensures Product(Zeros(n) + bits, g) == Product(bits, g)
    decreases n + |bits|
  {
    var all := Zeros(n) + bits;
    if bits != [] {
      LeadingZeros(n, bits[..|bits| - 1], g);
      assert all[..|all| - 1] == Zeros(n) + bits[..|bits| - 1];
    } else if n > 0 {
      LeadingZeros(n - 1, bits, g);
      assert all[..|all| - 1] == Zeros(n - 1) + bits;
      assert Up({}) == {};
    } else {
      assert all == bits;
    }
  }

  /** A multiple of the generator that is not zero has a term of its degree or above. */
  lemma {:induction false} MultiplesAreHigh(q: seq<bool>)
    requires Product(q, GENERATOR) != {}
    ensures exists e: nat :: e in Product(q, GENERATOR) && e >= 16
    decreases |q|
  {
    var n := |q| - 1;
    var p, b := Product(q[..n], GENERATOR), q[n];
    if p == {} {
      assert Up(p) == {};
      PlusMoves(Once(b, GENERATOR), {}, {});
      assert 16 in Product(q, GENERATOR);
    } else {
      MultiplesAreHigh(q[..n]);
      var e: nat :| e in p && e >= 16;
      assert e + 1 in Up(p) && e + 1 !in GENERATOR;
      assert e + 1 in Product(q, GENERATOR);
    }
  }

  lemma OneRemainder(dividend: Poly, r: Poly, t: Poly)
    requires IsRemainder(dividend, GENERATOR, 16, r) && IsRemainder(dividend, GENERATOR, 16, t)
    ensures r == t
  {
    var p :| dividend == Plus(Product(p, GENERATOR), r);
    var q :| dividend == Plus(Product(q, GENERATOR), t);
    var a, b := Zeros(|q|) + p, Zeros(|p|) + q;
    LeadingZeros(|q|, p, GENERATOR);
    LeadingZeros(|p|, q, GENERATOR);
    ProductOfFlips(a, b, GENERATOR);
    Cancel(Product(p, GENERATOR), r, Product(q, GENERATOR), t);
    if Plus(r, t) != {} {
      MultiplesAreHigh(Flips(a, b));
    }
    Same(r, t);
  }

  lemma Cancel(p: Poly, r: Poly, q: Poly, t: Poly)
    requires Plus(p, r) == Plus(q, t)
    ensures Plus(p, q) == Plus(r, t)
  {
    forall e: nat ensures e in Plus(p, q) <==> e in Plus(r, t) {
      assert e in Plus(p, r) <==> e in Plus(q, t);
    }
  }

  lemma Same(r: Poly, t: Poly)
    ensures Plus(r, t) == {} <==> r == t
  {
    if Plus(r, t) == {} {
      forall e: nat ensures e in r <==> e in t {
        assert e !in Plus(r, t);
      }
    }
  }

  // ------------------------------------------------------------------------------------------------------------------
  // The bits of a message and of a register
  // ------------------------------------------------------------------------------------------------------------------

  /** The bits of a byte as they go over the line, the lowest first. */
  function BitsOf(b: byte, n: nat): (r: seq<bool>)
    ensures |r| == n
  {
    if n == 0 then [] else [LowBit(b)] + BitsOf(b >> 1, n - 1)
  }

  function MessageBits(s: seq<byte>): (r: seq<bool>)
    ensures |r| == 8 * |s|
  {
    if s == [] then [] else MessageBits(s[..|s| - 1]) + BitsOf(s[|s| - 1], 8)
  }

  /** The coefficients in a register, the highest one first: it is kept in the lowest bit. */
  function RegisterBits(c: bv16, n: nat): (r: seq<bool>)
    ensures |r| == n
  {
    if n == 0 then [] else [OutBit(c)] + RegisterBits(Half(c), n - 1)
  }

  /** The remainder a register holds. */
  function RegisterPoly(c: bv16): Poly {
    PolyOf(RegisterBits(c, 16))
  }

  /** The message as it is divided. */
  function Dividend(s: seq<byte>): Poly {
    var bits := MessageBits(s) + Zeros(16);
    PolyOf(Flips(bits, seq(16, _ => true) + Zeros(|bits| - 16)))
  }

  // ------------------------------------------------------------------------------------------------------------------
  // Coefficients
  // ------------------------------------------------------------------------------------------------------------------

  /** Which exponents a string of coefficients has. */
  lemma {:induction false} PolyIs(bits: seq<bool>)
    ensures forall e: nat :: e in PolyOf(bits) <==> e < |bits| && bits[|bits| - 1 - e]
    decreases |bits|
  {
    var n := |bits| - 1;
    if bits != [] {
      PolyIs(bits[..n]);
      forall e: nat ensures e in PolyOf(bits) <==> e < |bits| && bits[n - e] {
        assert e in Up(PolyOf(bits[..n])) <==> e > 0 && e - 1 in PolyOf(bits[..n]);
      }
    }
  }

  lemma PolyOfFlips(a: seq<bool>, b: seq<bool>)
    requires |a| == |b|
    ensures PolyOf(Flips(a, b)) == Plus(PolyOf(a), PolyOf(b))
  {
    ProductOfFlips(a, b, {0});
  }

  lemma PolyNext(bits: seq<bool>, b: bool)
    ensures PolyOf(bits + [b]) == Plus(Up(PolyOf(bits)), Once(b, {0}))
  {
    ProductNext(bits, b, {0});
  }

  lemma LeadingBit(b: bool, bits: seq<bool>)
    ensures PolyOf([b] + bits) == Plus(Once(b, {|bits|}), PolyOf(bits))
  {
    PolyIs([b] + bits);
    PolyIs(bits);
  }

  function Raised(p: Poly, n: nat): Poly {
    if n == 0 then p else Up(Raised(p, n - 1))
  }

  lemma {:induction false} RaisedPlus(a: Poly, b: Poly, n: nat)
    ensures Raised(Plus(a, b), n) == Plus(Raised(a, n), Raised(b, n))
    decreases n
  {
    if n > 0 {
      RaisedPlus(a, b, n - 1);
      UpPlus(Raised(a, n - 1), Raised(b, n - 1));
    }
  }

  lemma {:induction false} RaisedUp(a: Poly, n: nat)
    ensures Raised(Up(a), n) == Up(Raised(a, n))
    decreases n
  {
    if n > 0 {
      RaisedUp(a, n - 1);
    }
  }

  lemma {:induction false} RaisedTerm(e: nat, n: nat)
    ensures Raised({e}, n) == {e + n} && Raised({}, n) == {}
    decreases n
  {
    if n > 0 {
      RaisedTerm(e, n - 1);
      assert Up({e + n - 1}) == {e + n} && Up({}) == {};
    }
  }

  lemma {:induction false} ZerosBehind(bits: seq<bool>, n: nat)
    ensures PolyOf(bits + Zeros(n)) == Raised(PolyOf(bits), n)
    decreases n
  {
    if n == 0 {
      assert bits + Zeros(0) == bits;
    } else {
      ZerosBehind(bits, n - 1);
      assert bits + Zeros(n) == (bits + Zeros(n - 1)) + [false];
      PolyNext(bits + Zeros(n - 1), false);
      PlusMoves(Up(Raised(PolyOf(bits), n - 1)), {}, {});
    }
  }

  // ------------------------------------------------------------------------------------------------------------------
  // What the register holds
  // ------------------------------------------------------------------------------------------------------------------

  lemma {:induction false} RegisterFlips(a: bv16, b: bv16, n: nat)
    ensures RegisterBits(Xor(a, b), n) == Flips(RegisterBits(a, n), RegisterBits(b, n))
    decreases n
  {
    hide Xor, Half, OutBit;
    if n > 0 {
      RegisterFlips(Half(a), Half(b), n - 1);
      HalfXor(a, b);
      LowXor(a, b);
    }
  }

  lemma RegisterPlus(a: bv16, b: bv16)
    ensures RegisterPoly(Xor(a, b)) == Plus(RegisterPoly(a), RegisterPoly(b))
  {
    hide Xor, PolyOf;
    RegisterFlips(a, b, 16);
    PolyOfFlips(RegisterBits(a, 16), RegisterBits(b, 16));
  }

  /** No bit at `n` or above. */
  predicate Narrow(c: bv16, n: nat)
    decreases n
  {
    if n == 0 then c == 0 else Narrow(Half(c), n - 1)
  }

  lemma HalfIsNarrow(c: bv16)
    ensures Narrow(Half(c), 15)
  {
    var c4 := Half(Half(Half(Half(c))));
    var c8 := Half(Half(Half(Half(c4))));
    var c12 := Half(Half(Half(Half(c8))));
    FourHalves(c);
    FourHalves(c4);
    FourHalves(c8);
    FourHalves(c12);
    ShiftedOut(c);
    assert Half(Half(Half(Half(c12)))) == 0;
    assert Narrow(c12, 4);
    assert Narrow(c8, 8);
    assert Narrow(c4, 12);
  }

  lemma FourHalves(c: bv16)
    ensures Half(Half(Half(Half(c)))) == c >> 4
  {
  }

  lemma ShiftedOut(c: bv16)
    ensures (((c >> 4) >> 4) >> 4) >> 4 == 0
  {
  }

  lemma {:induction false} NarrowEndsInZero(c: bv16, n: nat)
    requires Narrow(c, n)
    ensures RegisterBits(c, n + 1) == RegisterBits(c, n) + [false]
    decreases n
  {
    hide Half;
    if n == 0 {
      NothingOut();
    } else {
      NarrowEndsInZero(Half(c), n - 1);
    }
  }

  lemma NothingOut()
    ensures !OutBit(0) && Half(0) == 0
  {
  }

  lemma {:induction false} EmptyRegister(n: nat)
    ensures RegisterBits(0, n) == Zeros(n)
    decreases n
  {
    NothingOut();
    if n > 0 {
      EmptyRegister(n - 1);
    }
  }

  lemma FirstOnly(n: nat)
    ensures RegisterBits(1, n + 1) == [true] + Zeros(n)
  {
    EmptyRegister(n);
    assert OutBit(1) && Half(1) == 0;
  }

  const TAP_BITS := [true, false, false, false, false, false, false, false, false, false, false, false, false, true,
                     false, true]

  lemma Doubled(c: bv16)
    ensures c < 0x8000 ==> !OutBit(c << 1) && Half(c << 1) == c
  {
  }

  lemma DoubledBits(c: bv16, n: nat)
    requires c < 0x8000
    ensures RegisterBits(c << 1, n + 1) == [false] + RegisterBits(c, n)
  {
    hide OutBit, Half;
    Doubled(c);
  }

  /** Up to 0x5000, bit by bit. */
  lemma TapTail()
    ensures RegisterBits(0x5000, 15) == TAP_BITS[1..]
  {
    assert RegisterBits(0x0005, 3) == [true, false, true];
    DoubledBits(0x0005, 3);
    DoubledBits(0x000A, 4);
    DoubledBits(0x0014, 5);
    DoubledBits(0x0028, 6);
    DoubledBits(0x0050, 7);
    DoubledBits(0x00A0, 8);
    DoubledBits(0x0140, 9);
    DoubledBits(0x0280, 10);
    DoubledBits(0x0500, 11);
    DoubledBits(0x0A00, 12);
    DoubledBits(0x1400, 13);
    DoubledBits(0x2800, 14);
  }

  lemma TapBits()
    ensures RegisterBits(0xA001, 16) == TAP_BITS
  {
    hide RegisterBits;
    TapTail();
    TapFirst();
  }

  lemma TapFirst()
    ensures RegisterBits(0xA001, 16) == [true] + RegisterBits(0x5000, 15)
  {
    assert OutBit(0xA001) && Half(0xA001) == 0x5000;
    hide RegisterBits;
    NextBit(0xA001, 15);
  }

  lemma NextBit(c: bv16, n: nat)
    ensures RegisterBits(c, n + 1) == [OutBit(c)] + RegisterBits(Half(c), n)
  {
    hide OutBit, Half;
  }

  lemma ZeroPoly()
    ensures RegisterPoly(0) == {}
  {
    EmptyRegister(16);
    PolyIs(Zeros(16));
  }

  lemma OnePoly()
    ensures RegisterPoly(1) == {15}
  {
    hide RegisterBits, PolyOf;
    FirstOnly(15);
    PolyIs([true] + Zeros(15));
  }

  lemma TapPoly()
    ensures RegisterPoly(0xA001) == {15, 2, 0}
  {
    hide RegisterBits, PolyOf;
    TapBits();
    PolyIs(TAP_BITS);
  }

  /** The three registers that occur as constants. */
  lemma ConstantPolys()
    ensures RegisterPoly(0) == {} && RegisterPoly(1) == {15} && RegisterPoly(0xA001) == {15, 2, 0}
  {
    hide RegisterPoly;
    ZeroPoly();
    OnePoly();
    TapPoly();
  }

  // ------------------------------------------------------------------------------------------------------------------
  // Bit by bit
  // ------------------------------------------------------------------------------------------------------------------

  function Incoming(m: bool): bv16 {
    if m then 1 else 0
  }

  /** The register takes in one bit of the message. */
  function Serial(c: bv16, m: bool): bv16 {
    ShiftOnce(Xor(c, Incoming(m)))
  }

  function SerialRun(c: bv16, bits: seq<bool>): bv16
    decreases |bits|
  {
    if bits == [] then c else Serial(SerialRun(c, bits[..|bits| - 1]), bits[|bits| - 1])
  }

  /** A shift is a step of the division: what has come to the degree of the generator is reduced. */
  lemma ShiftReduces(c: bv16)
    ensures Up(RegisterPoly(c)) == Plus(RegisterPoly(ShiftOnce(c)), Once(OutBit(c), GENERATOR))
  {
    hide Xor, Half, OutBit, ShiftOnce, PolyOf, Up;
    var rest := RegisterBits(Half(c), 15);
    assert RegisterBits(c, 16) == [OutBit(c)] + rest;
    LeadingBit(OutBit(c), rest);
    UpPlus(Once(OutBit(c), {15}), PolyOf(rest));
    UpTerm(OutBit(c), 15);
    HalfIsNarrow(c);
    NarrowEndsInZero(Half(c), 15);
    PolyNext(rest, false);
    PlusMoves(Up(PolyOf(rest)), {}, {});
    ShiftOnceForm(c);
    RegisterPlus(Half(c), Tap(OutBit(c)));
    ConstantPolys();
    Reduce(Up(PolyOf(rest)), OutBit(c));
  }

  lemma UpTerm(b: bool, e: nat)
    ensures Up(Once(b, {e})) == Once(b, {e + 1})
  {
    assert Up({e}) == {e + 1} && Up({}) == {};
  }

  lemma Reduce(p: Poly, out: bool)
    ensures Plus(Once(out, {16}), p) == Plus(Plus(p, Once(out, {15, 2, 0})), Once(out, GENERATOR))
  {
  }

  lemma SerialReduces(c: bv16, m: bool)
    ensures Plus(Up(RegisterPoly(c)), Once(m, {16}))
         == Plus(RegisterPoly(Serial(c, m)), Once(OutBit(Xor(c, Incoming(m))), GENERATOR))
  {
    hide Xor, ShiftOnce, OutBit, RegisterPoly, Up, Plus;
    ShiftReduces(Xor(c, Incoming(m)));
    RegisterPlus(c, Incoming(m));
    ConstantPolys();
    UpPlus(RegisterPoly(c), Once(m, {15}));
    UpTerm(m, 15);
  }

  /** The message so far times x^16, and the ones of the start as far up as it has gone. */
  function Taken(bits: seq<bool>): Poly {
    Plus(Raised(PolyOf(bits), 16), Raised(RegisterPoly(0xFFFF), |bits|))
  }

  lemma TakenNext(bits: seq<bool>, m: bool)
    ensures Taken(bits + [m]) == Plus(Up(Taken(bits)), Once(m, {16}))
  {
    hide RegisterPoly, Up, Plus, PolyOf;
    var p, ones := Raised(PolyOf(bits), 16), Raised(RegisterPoly(0xFFFF), |bits|);
    PolyNext(bits, m);
    RaisedPlus(Up(PolyOf(bits)), Once(m, {0}), 16);
    RaisedUp(PolyOf(bits), 16);
    RaisedTerm(0, 16);
    UpPlus(p, ones);
    PlusMoves(Up(p), Once(m, {16}), Up(ones));
    PlusMoves(Once(m, {16}), Up(ones), {});
    PlusMoves(Up(p), Up(ones), Once(m, {16}));
  }

  lemma {:induction false} SerialDivides(bits: seq<bool>) returns (q: seq<bool>)
    ensures Taken(bits) == Plus(Product(q, GENERATOR), RegisterPoly(SerialRun(0xFFFF, bits)))
    decreases |bits|
  {
    hide RegisterPoly, Up, Plus, Serial, PolyOf, Taken;
    if bits == [] {
      q := [];
      NothingTaken();
    } else {
      var n := |bits| - 1;
      var p := SerialDivides(bits[..n]);
      var c, m := SerialRun(0xFFFF, bits[..n]), bits[n];
      var out := OutBit(Xor(c, Incoming(m)));
      assert bits == bits[..n] + [m];
      TakenNext(bits[..n], m);
      UpPlus(Product(p, GENERATOR), RegisterPoly(c));
      SerialReduces(c, m);
      q := p + [out];
      ProductNext(p, out, GENERATOR);
      Regroup(Up(Product(p, GENERATOR)), Up(RegisterPoly(c)), Once(m, {16}), RegisterPoly(Serial(c, m)),
              Once(out, GENERATOR));
    }
  }

  lemma Regroup(p: Poly, r: Poly, m: Poly, r2: Poly, g: Poly)
    requires Plus(r, m) == Plus(r2, g)
    ensures Plus(Plus(p, r), m) == Plus(Plus(p, g), r2)
  {
    hide Plus;
    PlusMoves(p, r, m);
    PlusMoves(p, g, r2);
    PlusMoves(r2, g, {});
    PlusMoves(g, r2, {});
  }

  lemma NothingTaken()
    ensures Taken([]) == Plus(Product([], GENERATOR), RegisterPoly(0xFFFF))
  {
    RaisedTerm(0, 16);
  }

  // ------------------------------------------------------------------------------------------------------------------
  // Byte by byte
  // ------------------------------------------------------------------------------------------------------------------

  lemma {:induction false} SerialAppend(c: bv16, a: seq<bool>, b: seq<bool>)
    ensures SerialRun(c, a + b) == SerialRun(SerialRun(c, a), b)
    decreases |b|
  {
    hide Serial;
    if b == [] {
      assert a + b == a;
    } else {
      SerialAppend(c, a, b[..|b| - 1]);
      assert (a + b)[..|a + b| - 1] == a + b[..|b| - 1];
    }
  }

  lemma SerialFirst(c: bv16, b: bool, bits: seq<bool>)
    ensures SerialRun(c, [b] + bits) == SerialRun(Serial(c, b), bits)
  {
    hide Serial;
    SerialAppend(c, [b], bits);
    assert [b][..0] == [] && SerialRun(c, [b]) == Serial(c, b);
  }

  lemma WideHalf(b: byte)
    ensures Half(Wide(b)) == Wide(b >> 1) && (OutBit(Wide(b)) <==> LowBit(b))
    ensures Xor(Wide(b), Incoming(LowBit(b))) & 1 == 0
  {
  }

  lemma EvenShift(c: bv16)
    requires c & 1 == 0
    ensures ShiftOnce(c) == Half(c)
  {
  }

  lemma HalfWithoutLow(b: byte)
    ensures Half(Xor(Wide(b), Incoming(LowBit(b)))) == Wide(b >> 1)
  {
  }

  lemma AsOne(c: bv16, i: bv16, w: bv16)
    ensures Xor(c, w) == Xor(Xor(c, i), Xor(w, i))
  {
    hide Xor;
    XorCommutes(w, i);
    XorAssociates(c, i, Xor(i, w));
    XorAssociates(i, i, w);
    XorZero(i);
    XorZero(w);
  }

  /** A shift of the register with a byte in it takes in the lowest bit and leaves the others. */
  lemma OneOfByte(c: bv16, b: byte)
    ensures ShiftOnce(Xor(c, Wide(b))) == Xor(Serial(c, LowBit(b)), Wide(b >> 1))
  {
    hide Xor, ShiftOnce, Half, Wide, Incoming, LowBit;
    var i := Incoming(LowBit(b));
    AsOne(c, i, Wide(b));
    ShiftOnceXor(Xor(c, i), Xor(Wide(b), i));
    WideHalf(b);
    EvenShift(Xor(Wide(b), i));
    HalfWithoutLow(b);
  }

  lemma {:induction false} ShiftsTakeByte(c: bv16, b: byte, n: nat)
    ensures Shifts(Xor(c, Wide(b)), n) == Xor(SerialRun(c, BitsOf(b, n)), Wide(Rest(b, n)))
    decreases n
  {
    hide Xor, ShiftOnce, Wide, LowBit, Serial;
    if n > 0 {
      ShiftsFirst(Xor(c, Wide(b)), n - 1);
      OneOfByte(c, b);
      ShiftsTakeByte(Serial(c, LowBit(b)), b >> 1, n - 1);
      SerialFirst(c, LowBit(b), BitsOf(b >> 1, n - 1));
    }
  }

  lemma {:induction false} ShiftsFirst(c: bv16, n: nat)
    ensures Shifts(c, n + 1) == Shifts(ShiftOnce(c), n)
    decreases n
  {
    hide ShiftOnce;
    if n > 0 {
      ShiftsFirst(c, n - 1);
    }
  }

  function Rest(b: byte, n: nat): byte
    decreases n
  {
    if n == 0 then b else Rest(b >> 1, n - 1)
  }

  lemma RestOfEight(b: byte)
    ensures Rest(b, 8) == 0
  {
    assert Rest(b, 8) == Rest((((b >> 1) >> 1) >> 1) >> 1, 4);
    assert Rest(b, 8) == (((((((b >> 1) >> 1) >> 1) >> 1) >> 1) >> 1) >> 1) >> 1;
  }

  lemma AbsorbIsSerial(c: bv16, b: byte)
    ensures Absorb(c, b) == SerialRun(c, BitsOf(b, 8))
  {
    hide Shift8, Shifts, SerialRun, BitsOf, Rest;
    XorIs(c, Wide(b));
    EightShifts(Xor(c, Wide(b)));
    ShiftsTakeByte(c, b, 8);
    RestOfEight(b);
    XorZero(SerialRun(c, BitsOf(b, 8)));
  }

  lemma {:induction false} CrcIsSerial(c: bv16, s: seq<byte>)
    ensures CrcFrom(c, s) == SerialRun(c, MessageBits(s))
    decreases |s|
  {
    hide Absorb, SerialRun, BitsOf;
    if s == [] {
      SerialNothing(c);
    } else {
      var n := |s| - 1;
      CrcIsSerial(c, s[..n]);
      AbsorbIsSerial(CrcFrom(c, s[..n]), s[n]);
      SerialAppend(c, MessageBits(s[..n]), BitsOf(s[n], 8));
    }
  }

  lemma SerialNothing(c: bv16)
    ensures SerialRun(c, []) == c
  {
  }

  // ------------------------------------------------------------------------------------------------------------------
  // The CRC
  // ------------------------------------------------------------------------------------------------------------------

  lemma OnesBits()
    ensures RegisterBits(0xFFFF, 16) == seq(16, _ => true)
  {
    assert RegisterBits(0x000F, 4) == [true, true, true, true];
    assert RegisterBits(0x00FF, 8) == [true, true, true, true] + RegisterBits(0x000F, 4);
    assert RegisterBits(0x0FFF, 12) == [true, true, true, true] + RegisterBits(0x00FF, 8);
    assert RegisterBits(0xFFFF, 16) == [true, true, true, true] + RegisterBits(0x0FFF, 12);
  }

  lemma DividendIsTaken(s: seq<byte>)
    ensures Dividend(s) == Taken(MessageBits(s))
  {
    hide PolyOf, MessageBits, Plus;
    var bits := MessageBits(s);
    var n := |bits|;
    PolyOfFlips(bits + Zeros(16), seq(16, _ => true) + Zeros(n));
    ZerosBehind(bits, 16);
    ZerosBehind(seq(16, _ => true), n);
    OnesBits();
  }

  /** The CRC of every message is the remainder of its division; and it is the only one. */
  lemma CrcIsRemainder(s: seq<byte>)
    ensures IsRemainder(Dividend(s), GENERATOR, 16, RegisterPoly(Crc(s)))
    ensures forall r :: IsRemainder(Dividend(s), GENERATOR, 16, r) ==> r == RegisterPoly(Crc(s))
  {
    hide Dividend, Taken, SerialRun, PolyOf, MessageBits;
    var q := SerialDivides(MessageBits(s));
    CrcIsSerial(0xFFFF, s);
    DividendIsTaken(s);
    RegisterPolyIsLow(Crc(s));
    forall r | IsRemainder(Dividend(s), GENERATOR, 16, r) ensures r == RegisterPoly(Crc(s)) {
      OneRemainder(Dividend(s), r, RegisterPoly(Crc(s)));
    }
  }

  lemma RegisterPolyIsLow(c: bv16)
    ensures forall e | e in RegisterPoly(c) :: e < 16
  {
    PolyIs(RegisterBits(c, 16));
  }

  /** Different registers hold different remainders. */
  lemma RegisterPolyDiffers(c: bv16, d: bv16)
    ensures RegisterPoly(c) == RegisterPoly(d) <==> c == d
  {
    hide Xor, PolyOf, OutBit, Half;
    RegisterPlus(c, d);
    Same(RegisterPoly(c), RegisterPoly(d));
    XorOfSame(c, d);
    AllNarrow(Xor(c, d));
    OnlyZeroIsEmpty(Xor(c, d), 16);
    ZeroPoly();
    PolyIs(RegisterBits(Xor(c, d), 16));
    if RegisterPoly(c) == RegisterPoly(d) {
      var bits := RegisterBits(Xor(c, d), 16);
      forall k | 0 <= k < 16 ensures !bits[k] {
        assert 15 - k !in RegisterPoly(Xor(c, d));
      }
    }
  }

  lemma AllNarrow(c: bv16)
    ensures Narrow(c, 16)
  {
    HalfIsNarrow(c);
  }

  lemma {:induction false} OnlyZeroIsEmpty(c: bv16, n: nat)
    requires Narrow(c, n)
    ensures (forall k | 0 <= k < n :: !RegisterBits(c, n)[k]) ==> c == 0
    decreases n
  {
    hide Half, OutBit;
    if n > 0 {
      var bits, rest := RegisterBits(c, n), RegisterBits(Half(c), n - 1);
      OnlyZeroIsEmpty(Half(c), n - 1);
      assert forall k | 0 <= k < n - 1 :: rest[k] == bits[k + 1];
      assert bits[0] == OutBit(c);
      HalfAndOut(c);
    }
  }

  lemma HalfAndOut(c: bv16)
    ensures Half(c) == 0 && !OutBit(c) ==> c == 0
  {
  }

  /** So a zero byte in front of a message, or taken away there, changes its CRC. */
  lemma LeadingZeroDetected(s: seq<byte>)
    ensures Crc([0] + s) != Crc(s)
  {
    hide Absorb;
    CrcAppend(0xFFFF, [0], s);
    CrcOfOne(0xFFFF, [0]);
    ZeroByteMoves();
    CrcInjective(Absorb(0xFFFF, 0), 0xFFFF, s);
  }

  lemma ZeroByteMoves()
    ensures Absorb(0xFFFF, 0) == 0x40BF
  {
  }
}
