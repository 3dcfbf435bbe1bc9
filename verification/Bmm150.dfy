/** The fixed-point compensation of the BMM150 magnetometer: every intermediate value is declared with the type it has
    in the driver, so that the verifier shows it stays in range. */
module Bmm150 {
  import opened Words

  type i8 = x: int | -0x80 <= x < 0x80
  type i16 = x: int | -0x8000 <= x < 0x8000
  type i32 = x: int | -0x8000_0000 <= x < 0x8000_0000

  const FLIP_OVERFLOW := -4096
  const HALL_OVERFLOW := -16384
  const OVERFLOW_OUTPUT: i16 := -32768
  const SATURATION_Z := 32767

  datatype Trim = Trim(x1: i8, y1: i8, x2: i8, y2: i8, z1: u16, z2: i16, z3: i16, z4: i16, xy1: u8, xy2: i8, xyz1: u16)

  /** Division on the signed types: towards zero. */
  function Quotient(a: int, d: int): (q: int)
    requires d != 0
  {
    if (a >= 0) == (d > 0) then Abs(a) / Abs(d) else -(Abs(a) / Abs(d))
  }

  function Abs(x: int): nat {
    if x < 0 then -x else x
  }

  function ToI16(x: int): i16 {
    (x + 0x8000) % 0x1_0000 - 0x8000
  }

  function ToU16(x: int): u16 {
    x % 0x1_0000
  }

  // ---------------------------------------------------------------------------------------------------------------
  // Samples
  // ---------------------------------------------------------------------------------------------------------------

  /** A 13-bit sample of the x or y axis, from the high byte and the five top bits of the low byte. */
  function SampleXy(low: u8, high: i8): (r: int)
    ensures FLIP_OVERFLOW <= r < 4096
  {
    (high as int) * 32 + (low as int) / 8
  }

  function SampleZ(low: u8, high: i8): (r: int)
    ensures HALL_OVERFLOW <= r < 16384
  {
    (high as int) * 128 + (low as int) / 2
  }

  /** The Hall resistance; the high byte is read as a signed one, so its top values come out just below 65536. */
  function SampleHall(low: u8, high: i8): (r: u16)
    ensures r < 0x2000 || 0xE000 <= r
  {
    var word := (ToU16(high) as int) * 64 + (low as int) / 4;
    assert word == (high as int) * 64 + (low as int) / 4 + 0x1_0000 * (if high < 0 then 64 else 0);
    AddRounds((high as int) * 64 + (low as int) / 4, if high < 0 then 64 else 0);
    ToU16(word)
  }

  lemma AddRounds(x: int, k: nat)
    ensures (x + 0x1_0000 * k) % 0x1_0000 == x % 0x1_0000
  {
  }

  /** Each sample is the upper part of its 16-bit word; that of the Hall resistance wraps when it is negative. */
  lemma SamplesAre(low: u8, high: i8)
    ensures var word := (high as int) * 0x100 + low;
            SampleXy(low, high) == word / 8 && SampleZ(low, high) == word / 2 &&
            SampleHall(low, high) == (word / 4) % 0x1_0000
  {
    var h := high as int;
    var word := (ToU16(high) as int) * 64 + (low as int) / 4;
    assert word == h * 64 + (low as int) / 4 + 0x1_0000 * (if high < 0 then 64 else 0);
    AddRounds(h * 64 + (low as int) / 4, if high < 0 then 64 else 0);
  }

  // ---------------------------------------------------------------------------------------------------------------
  // Bounds
  // ---------------------------------------------------------------------------------------------------------------

  predicate Within(x: int, bound: nat) {
    -(bound as int) <= x <= bound
  }

  lemma Product(a: int, b: int, m: nat, n: nat)
    requires Within(a, m) && Within(b, n)
    ensures Within(a * b, m * n)
  {
    FactorsKeepOrder(Abs(a), m, Abs(b));
    FactorsKeepOrder(Abs(b), n, m);
    assert Abs(a) * Abs(b) <= m * n;
    assert a * b == Abs(a) * Abs(b) || a * b == -(Abs(a) * Abs(b));
  }

  lemma FactorsKeepOrder(a: nat, b: nat, k: nat)
    requires a <= b
    ensures a * k <= b * k && k * a <= k * b
  {
  }

  lemma QuotientBound(a: int, d: nat, bound: nat)
    requires d > 0 && Within(a, bound)
    ensures Within(Quotient(a, d), bound / d)
  {
    QuotientsKeepOrder(Abs(a), bound, d);
  }

  lemma QuotientIsSmaller(a: int, d: int)
    requires d != 0
    ensures Within(Quotient(a, d), Abs(a))
  {
    FactorsKeepOrder(1, Abs(d), Abs(a) / Abs(d));
  }

  lemma QuotientsKeepOrder(a: nat, b: nat, d: nat)
    requires d > 0 && a <= b
    ensures a / d <= b / d
  {
    var p, q := a / d, b / d;
    if p > q {
      FactorsKeepOrder(q + 1, p, d);
    }
  }

  // ---------------------------------------------------------------------------------------------------------------
  // The horizontal axes
  // ---------------------------------------------------------------------------------------------------------------

  /** The Hall value, or its trim value in its place. */
  function HallOrTrim(t: Trim, hall: u16): u16 {
    if hall != 0 then hall else t.xyz1
  }

  /** The relative Hall resistance, as the 16-bit word it is kept in. */
  function Relative(t: Trim, hall: u16): i16
    requires HallOrTrim(t, hall) != 0
  {
    var scaled: i32 := (t.xyz1 as int) * 16384;
    var ratio: u16 := ToU16(Quotient(scaled, HallOrTrim(t, hall)));
    ToI16(ToU16(ratio - 0x4000))
  }

  /** The quadratic part of the sensitivity. */
  function Quadratic(xy2: i8, r: i16): (q: i32)
    ensures Within(q, 0x4000_0000)
  {
    hide *;
    SquareBound(r);
    var square: i32 := (r as int) * (r as int);
    var small: i32 := Quotient(square, 128);
    Product(xy2, small, 0x80, 0x80_0000);
    (xy2 as int) * small
  }

  lemma SquareBound(r: i16)
    ensures Within((r as int) * (r as int), 0x4000_0000)
    ensures Within(Quotient((r as int) * (r as int), 128), 0x80_0000)
  {
    Product(r, r, 0x8000, 0x8000);
    QuotientBound((r as int) * (r as int), 128, 0x4000_0000);
  }

  function Linear(xy1: u8, r: i16): (l: i32)
    ensures Within(l, 1069547520)
  {
    hide *;
    var factor: i32 := (xy1 as int) * 128;
    Product(r, factor, 0x8000, 32640);
    (r as int) * factor
  }

  /** The sensitivity of the sensor at this temperature, about 2^20. */
  function Sensitivity(t: Trim, r: i16): (s: i32)
    ensures Within(s, 5234688)
  {
    hide Quotient, Quadratic, Linear;
    var sum: i32 := Quadratic(t.xy2, r) + Linear(t.xy1, r);
    QuotientBound(sum, 512, 2143289344);
    Quotient(sum, 512) + 0x10_0000
  }

  lemma GainBound(s: int, factor: int)
    requires Within(s, 5234688) && Within(factor, 287)
    ensures Within(s * factor, 1502355456)
    ensures Within(Quotient(s * factor, 4096), 366786)
  {
    hide Quotient;
    Product(s, factor, 5234688, 287);
    QuotientBound(s * factor, 4096, 1502355456);
  }

  function Gain(sensitivity: i32, trim2: i8): (g: i32)
    requires Within(sensitivity, 5234688)
    ensures Within(g, 366786)
  {
    hide Quotient;
    var factor: i32 := (trim2 as int) + 0xA0;
    GainBound(sensitivity, factor);
    var product: i32 := (sensitivity as int) * (factor as int);
    Quotient(product, 4096)
  }

  function Scaled(sample: i16, gain: i32, trim1: i8): (r: i16)
    requires FLIP_OVERFLOW <= sample < 4096 && Within(gain, 366786)
  {
    hide Quotient;
    ProductBound(sample, gain);
    var product: i32 := (sample as int) * (gain as int);
    var counts: i16 := ToI16(Quotient(product, 8192));
    var offset: i32 := (counts as int) + (trim1 as int) * 8;
    QuotientBound(offset, 16, 33792);
    Quotient(offset, 16)
  }

  lemma ProductBound(sample: int, gain: int)
    requires Within(sample, 4096) && Within(gain, 366786)
    ensures Within(sample * gain, 1502355456)
  {
    Product(sample, gain, 4096, 366786);
  }

  /** One horizontal axis, with the two trim values that belong to it. */
  function Axis(t: Trim, trim1: i8, trim2: i8, sample: i16, hall: u16): i16
    requires FLIP_OVERFLOW <= sample < 4096
  {
    if sample != FLIP_OVERFLOW && HallOrTrim(t, hall) != 0
    then Scaled(sample, Gain(Sensitivity(t, Relative(t, hall)), trim2), trim1)
    else OVERFLOW_OUTPUT
  }

  lemma RatioBound(xyz1: u16, hall: u16)
    requires hall != 0
    ensures Within(Quotient((xyz1 as int) * 16384, hall), 1073725440)
  {
    var n := (xyz1 as int) * 16384;
    QuotientBound(n, hall, 1073725440);
    QuotientsByMore(1073725440, hall);
  }

  lemma QuotientsByMore(a: nat, d: nat)
    requires d > 0
    ensures a / d <= a
  {
    FactorsKeepOrder(1, d, a / d);
  }

  /** The x axis as the driver computes it. */
  method CompensateX(t: Trim, sample: i16, hall: u16) returns (r: i16)
    requires FLIP_OVERFLOW <= sample < 4096
    ensures r == Axis(t, t.x1, t.x2, sample, hall)
  {
    if sample != FLIP_OVERFLOW {
      var x0: u16 := 0;
      if hall != 0 {
        x0 := hall;
      } else if t.xyz1 != 0 {
        x0 := t.xyz1;
      }
      if x0 != 0 {
        hide Quotient;
        var x1: i32 := (t.xyz1 as int) * 16384;
        var x2: u16 := ToU16(ToU16(Quotient(x1, x0)) - 0x4000);
        r := ToI16(x2);
        SquareBound(r);
        var x3: i32 := (r as int) * (r as int);
        assert (t.xy2 as int) * Quotient(x3, 128) == Quadratic(t.xy2, r);
        var x4: i32 := (t.xy2 as int) * Quotient(x3, 128);
        var x5: i32 := (t.xy1 as int) * 128;
        assert (r as int) * (x5 as int) == Linear(t.xy1, r);
        var x6: i32 := (r as int) * (x5 as int);
        assert Quotient((x4 as int) + x6, 512) + 0x10_0000 == Sensitivity(t, r);
        var x7: i32 := Quotient((x4 as int) + x6, 512) + 0x10_0000;
        var x8: i32 := (t.x2 as int) + 0xA0;
        GainBound(x7, x8);
        var x9: i32 := Quotient((x7 as int) * (x8 as int), 4096);
        ProductBound(sample, x9);
        var x10: i32 := (sample as int) * (x9 as int);
        r := ToI16(Quotient(x10, 8192));
        QuotientBound((r as int) + (t.x1 as int) * 8, 16, 33792);
        r := Quotient((r as int) + (t.x1 as int) * 8, 16);
      } else {
        r := OVERFLOW_OUTPUT;
      }
    } else {
      r := OVERFLOW_OUTPUT;
    }
  }

  /** The y axis, with its products in another order. */
  method CompensateY(t: Trim, sample: i16, hall: u16) returns (r: i16)
    requires FLIP_OVERFLOW <= sample < 4096
    ensures r == Axis(t, t.y1, t.y2, sample, hall)
  {
    if sample != FLIP_OVERFLOW {
      var y0: u16 := 0;
      if hall != 0 {
        y0 := hall;
      } else if t.xyz1 != 0 {
        y0 := t.xyz1;
      }
      if y0 != 0 {
        hide Quotient;
        RatioBound(t.xyz1, y0);
        var y1: i32 := Quotient((t.xyz1 as int) * 16384, y0);
        var y2: u16 := ToU16(ToU16(y1) - 0x4000);
        r := ToI16(y2);
        SquareBound(r);
        var y3: i32 := (r as int) * (r as int);
        assert (t.xy2 as int) * Quotient(y3, 128) == Quadratic(t.xy2, r);
        var y4: i32 := (t.xy2 as int) * Quotient(y3, 128);
        var y5: i32 := (t.xy1 as int) * 128;
        assert (r as int) * (y5 as int) == Linear(t.xy1, r);
        var linear: i32 := (r as int) * (y5 as int);
        var sum: i32 := (y4 as int) + linear;
        QuotientBound(sum, 512, 2143289344);
        var y6: i32 := Quotient(sum, 512);
        var y7: i32 := (t.y2 as int) + 0xA0;
        var shifted: i32 := (y6 as int) + 0x10_0000;
        GainBound(shifted, y7);
        var y8: i32 := Quotient((shifted as int) * (y7 as int), 4096);
        ProductBound(sample, y8);
        var y9: i32 := (sample as int) * (y8 as int);
        r := ToI16(Quotient(y9, 8192));
        QuotientBound((r as int) + (t.y1 as int) * 8, 16, 33792);
        r := Quotient((r as int) + (t.y1 as int) * 8, 16);
      } else {
        r := OVERFLOW_OUTPUT;
      }
    } else {
      r := OVERFLOW_OUTPUT;
    }
  }

  /** At the reference Hall value, or without one, nothing is corrected for the temperature. */
  lemma ReferenceHall(t: Trim)
    requires t.xyz1 != 0
    ensures Relative(t, t.xyz1) == Relative(t, 0) == 0
    ensures Sensitivity(t, 0) == 0x10_0000
  {
    QuotientOfMultiple(16384, t.xyz1);
  }

  lemma QuotientOfMultiple(k: nat, d: nat)
    requires d > 0
    ensures Quotient(d * k, d) == k
  {
    FactorsKeepOrder(0, k, d);
    DividedMultiple(k, d);
  }

  lemma DividedMultiple(k: nat, d: nat)
    requires d > 0
    ensures d * k >= 0 && (d * k) / d == k
  {
    FactorsKeepOrder(0, k, d);
    var p := (d * k) / d;
    if p < k {
      FactorsKeepOrder(p + 1, k, d);
    } else if p > k {
      FactorsKeepOrder(k + 1, p, d);
    }
  }

  lemma QuotientRest(a: int, d: nat)
    requires d > 0
    ensures -(d as int) < a - d * Quotient(a, d) < d
  {
    var n := Abs(a);
    assert n == d * (n / d) + n % d;
    assert d * -(n / d) == -(d * (n / d));
  }

  lemma Rounding(e: int, q: int, square: int, s: int, linear: int, xy2: i8)
    requires e == xy2 * q + linear && -512 < e - 512 * s < 512 && -128 < square - 128 * q < 128
    ensures -81921 < 65536 * s - (xy2 * square + 128 * linear) < 81921
  {
    Product(xy2, square - 128 * q, 0x80, 127);
    assert xy2 * (square - 128 * q) == xy2 * square - 128 * (xy2 * q);
  }

  /** The sensitivity in units of 2^-20 of the nominal one is, but for the two roundings, the quadratic function of the
      relative Hall resistance with the trim values as coefficients: less than 1.3 away from
      2^20 + xy2 * r^2 / 2^16 + xy1 * r / 4. */
  lemma SensitivityIs(t: Trim, r: i16)
    ensures var square := (r as int) * r;
            var exact := (t.xy2 as int) * square + 16384 * (t.xy1 as int) * r;
            -81921 < 65536 * ((Sensitivity(t, r) as int) - 0x10_0000) - exact < 81921
  {
    hide Quotient;
    var square := (r as int) * r;
    var q := Quotient(square, 128);
    var linear := (r as int) * (t.xy1 * 128);
    var e := (t.xy2 as int) * q + linear;
    QuotientRest(square, 128);
    QuotientRest(e, 512);
    Rounding(e, q, square, Quotient(e, 512), linear, t.xy2);
    assert 128 * linear == 16384 * (t.xy1 as int) * r;
  }

  lemma ExactQuotient(k: int, d: nat)
    requires d > 0
    ensures Quotient(d * k, d) == k
  {
    if k >= 0 {
      QuotientOfMultiple(k, d);
    } else {
      QuotientOfMultiple(-k, d);
      assert d * -k == -(d * k);
      if k < 0 {
        FactorsKeepOrder(1, -k, d);
      }
    }
  }

  lemma Cancel(a: int)
    ensures Quotient(256 * a, 8192) == Quotient(a, 32)
  {
    var n := Abs(a);
    assert (256 * n) / 8192 == n / 32;
  }

  /** At the reference, in sixteenths of a microtesla before the last division: the sample times its gain of 160 and the
      second trim value in 32nds, and 8 times the first trim value. */
  lemma AxisAtReference(t: Trim, trim1: i8, trim2: i8, sample: i16)
    requires t.xyz1 != 0 && FLIP_OVERFLOW < sample < 4096
    ensures var counts := Quotient((sample as int) * (160 + trim2), 32);
            Axis(t, trim1, trim2, sample, 0) == Quotient((ToI16(counts) as int) + 8 * trim1, 16)
  {
    hide Quotient, Sensitivity, Relative, ToI16;
    ReferenceHall(t);
    ExactQuotient(256 * ((trim2 as int) + 0xA0), 4096);
    var gain := Gain(0x10_0000, trim2);
    assert gain == 256 * ((trim2 as int) + 160);
    assert (sample as int) * gain == 256 * ((sample as int) * (160 + trim2));
    Cancel((sample as int) * (160 + trim2));
  }

  // ---------------------------------------------------------------------------------------------------------------
  // The narrowing to 16 bits
  // ---------------------------------------------------------------------------------------------------------------

  /** What the axis comes to when nothing is narrowed. */
  function Unnarrowed(product: int, trim1: i8): int {
    Quotient(Quotient(product, 8192) + (trim1 as int) * 8, 16)
  }

  function Narrowed(product: int, trim1: i8): int {
    Quotient((ToI16(Quotient(product, 8192)) as int) + (trim1 as int) * 8, 16)
  }

  lemma ShortFits(q: int)
    ensures ToI16(q) == q <==> -0x8000 <= q < 0x8000
    ensures ToI16(q) != q ==> (ToI16(q) as int) - q >= 0x1_0000 || q - (ToI16(q) as int) >= 0x1_0000
  {
  }

  lemma QuotientFits(product: int)
    ensures -0x8000 <= Quotient(product, 8192) < 0x8000 <==> -0x8001 * 8192 < product < 0x8000 * 8192
  {
  }

  lemma FarApart(a: int, b: int)
    requires b - a >= 32
    ensures Quotient(a, 16) != Quotient(b, 16)
  {
  }

  /** The exact condition: the narrowing leaves the result alone if and only if the product of sample and gain lies
      between -0x8001 and 0x8000 times 8192. */
  lemma NarrowingIsExact(product: int, trim1: i8)
    ensures Narrowed(product, trim1) == Unnarrowed(product, trim1) <==> -0x8001 * 8192 < product < 0x8000 * 8192
  {
    hide Quotient, ToI16;
    var q := Quotient(product, 8192);
    var r := ToI16(q) as int;
    ShortFits(q);
    QuotientFits(product);
    var offset := (trim1 as int) * 8;
    if r >= q + 0x1_0000 {
      FarApart(q + offset, r + offset);
    } else if q >= r + 0x1_0000 {
      FarApart(r + offset, q + offset);
    }
  }

  /** For every sample and Hall value the driver does not give up on. */
  lemma AxisIsExact(t: Trim, trim1: i8, trim2: i8, sample: i16, hall: u16)
    requires FLIP_OVERFLOW < sample < 4096 && HallOrTrim(t, hall) != 0
    ensures var gain := Gain(Sensitivity(t, Relative(t, hall)), trim2);
            var product := (sample as int) * (gain as int);
            (Axis(t, trim1, trim2, sample, hall) == Unnarrowed(product, trim1)) <==>
            (-0x8001 * 8192 < product < 0x8000 * 8192)
  {
    hide Quotient, ToI16, Gain, Sensitivity, Relative;
    var gain := Gain(Sensitivity(t, Relative(t, hall)), trim2);
    NarrowingIsExact((sample as int) * (gain as int), trim1);
  }

  /** It fails at the reference already, with the largest second trim value: a field near the positive end of the range
      comes out negative. */
  lemma AxisWraps(t: Trim)
    requires t.xyz1 != 0
    ensures Axis(t, 0, 127, 4095, 0) == -1800
  {
    hide Sensitivity, Relative;
    ReferenceHall(t);
    assert Gain(0x10_0000, 127) == 73472;
    assert Quotient(4095 * 73472, 8192) == 36727;
    assert ToI16(36727) == -28809;
  }

  // ---------------------------------------------------------------------------------------------------------------
  // The vertical axis
  // ---------------------------------------------------------------------------------------------------------------

  predicate HallSample(hall: u16) {
    hall < 0x2000 || 0xE000 <= hall
  }

  /** What the driver computes with, rather than giving up. */
  predicate UsableZ(t: Trim, sample: i16, hall: u16) {
    sample != HALL_OVERFLOW && t.z2 != 0 && t.z1 != 0 && hall != 0 && t.xyz1 != 0
  }

  lemma HallBound(t: Trim, hall: u16)
    requires HallSample(hall)
    ensures Within((ToI16(hall) as int) * 2, 16384)
    ensures Within((t.z1 as int) * ((ToI16(hall) as int) * 2), 1073725440)
    ensures Within(Quotient((t.z1 as int) * ((ToI16(hall) as int) * 2) + 32768, 65536), 16384)
  {
    hide Quotient;
    var doubled := (ToI16(hall) as int) * 2;
    Product(t.z1, doubled, 0xFFFF, 16384);
    QuotientBound((t.z1 as int) * doubled + 32768, 65536, 1073758208);
  }

  function HallGain(t: Trim, hall: u16): (g: i16)
    requires HallSample(hall)
    ensures Within(g, 16384)
  {
    hide Quotient, HallSample;
    HallBound(t, hall);
    var doubled: i32 := (ToI16(hall) as int) * 2;
    var product: i32 := (t.z1 as int) * (doubled as int);
    var rounded: i32 := (product as int) + 32768;
    ToI16(Quotient(rounded, 65536))
  }

  function Denominator(t: Trim, hall: u16): i32
    requires HallSample(hall)
  {
    (t.z2 as int) + HallGain(t, hall)
  }

  function Numerator(t: Trim, sample: i16, hall: u16): (n: i32)
    requires HALL_OVERFLOW <= sample < 16384
    ensures Within(n, 1879015424)
  {
    hide Quotient;
    var z0: i16 := ToI16(ToI16(hall) - ToI16(t.xyz1));
    Product(t.z3, z0, 0x8000, 0x8000);
    var product: i32 := (t.z3 as int) * (z0 as int);
    QuotientBound(product, 4, 0x4000_0000);
    var z1: i32 := Quotient(product, 4);
    var z2: i32 := ((sample as int) - t.z4) * 32768;
    z2 - z1
  }

  function Saturated(x: int): (r: i16)
    ensures Within(r, SATURATION_Z)
  {
    if x > SATURATION_Z then SATURATION_Z else if x < -SATURATION_Z then -SATURATION_Z else x
  }

  /** The z axis; `None` is a division by zero, which the driver does not guard against. */
  method CompensateZ(t: Trim, sample: i16, hall: u16) returns (r: Option<i16>)
    requires HALL_OVERFLOW <= sample < 16384 && HallSample(hall)
    ensures r.None? <==> UsableZ(t, sample, hall) && Denominator(t, hall) == 0
    ensures r.Some? ==> (r.value == OVERFLOW_OUTPUT <==> !UsableZ(t, sample, hall))
    ensures r.Some? && r.value != OVERFLOW_OUTPUT ==>
              && Within(r.value, 2047)
              && r.value == Quotient(Saturated(Quotient(Numerator(t, sample, hall), Denominator(t, hall))), 16)
  {
    if sample != HALL_OVERFLOW {
      if t.z2 != 0 && t.z1 != 0 && hall != 0 && t.xyz1 != 0 {
        hide Quotient;
        var z4 := HallGain(t, hall);
        var denominator: i32 := (t.z2 as int) + z4;
        if denominator == 0 {
          return None;
        }
        QuotientIsSmaller(Numerator(t, sample, hall), denominator);
        var value: i32 := Quotient(Numerator(t, sample, hall), denominator);
        if value > SATURATION_Z {
          value := SATURATION_Z;
        } else if value < -SATURATION_Z {
          value := -SATURATION_Z;
        }
        QuotientBound(value, 16, SATURATION_Z);
        return Some(Quotient(value, 16));
      }
      return Some(OVERFLOW_OUTPUT);
    }
    return Some(OVERFLOW_OUTPUT);
  }

  lemma NumeratorIs(t: Trim, sample: i16, hall: u16)
    requires HALL_OVERFLOW <= sample < 16384 && hall < 0x2000 && t.xyz1 < 0x8000
    ensures Numerator(t, sample, hall)
         == ((sample as int) - t.z4) * 0x8000 - Quotient((t.z3 as int) * ((hall as int) - t.xyz1), 4)
  {
    hide Quotient;
  }

  /** The numerator is 2^15 (sample - z4) - z3 (hall - xyz1) / 4 but for the rounding, for values of 15 bits. */
  lemma NumeratorMeans(t: Trim, sample: i16, hall: u16)
    requires HALL_OVERFLOW <= sample < 16384 && hall < 0x2000 && t.xyz1 < 0x8000
    ensures var n := Numerator(t, sample, hall) as int;
            -4 < 4 * (((sample as int) - t.z4) * 0x8000 - n) - (t.z3 as int) * ((hall as int) - t.xyz1) < 4
  {
    hide Quotient, Numerator;
    NumeratorIs(t, sample, hall);
    QuotientRest((t.z3 as int) * ((hall as int) - t.xyz1), 4);
  }

  lemma HallGainIs(t: Trim, hall: u16)
    requires hall < 0x2000
    ensures HallGain(t, hall) == Quotient((t.z1 as int) * ((hall as int) * 2) + 0x8000, 0x1_0000)
  {
    hide Quotient;
    HallBound(t, hall);
  }

  /** The denominator is z2 + z1 hall / 2^15 but for the rounding. */
  lemma DenominatorMeans(t: Trim, hall: u16)
    requires hall < 0x2000
    ensures var d := Denominator(t, hall) as int;
            -0x1_0000 < 0x1_0000 * (d - t.z2) - ((t.z1 as int) * ((hall as int) * 2) + 0x8000) < 0x1_0000
  {
    hide Quotient, HallGain;
    HallGainIs(t, hall);
    QuotientRest((t.z1 as int) * ((hall as int) * 2) + 0x8000, 0x1_0000);
  }

  /** A trim whose denominator is zero for a Hall value. */
  lemma DividesByZero(t: Trim)
    requires t.z1 == 0xFFFF && t.z2 == -2 && t.xyz1 == 1
    ensures UsableZ(t, 0, 1) && Denominator(t, 1) == 0
  {
    assert HallGain(t, 1) == 2;
  }
}
