/** The formulas of the dual PID controller `dualpidpcm`: output mapping, quantisation, feed-forward table, thresholds,
    the decisions of its state machine and its undervoltage latch. */
module PcmMath {
  import opened Words

  const STARTUP_INHIBIT_MS := 8000
  const DELAY_FEEDFORWARD := 4000
  const DEADBAND_CONFIRM_MS := 2500
  const STANDBY_GRACE_MS := 25000
  const DEADBAND_FACTOR := 1.02
  const COEFF := 0.00001

  function Min(a: real, b: real): real { if a < b then a else b }

  function Max(a: real, b: real): real { if a > b then a else b }

  function Abs(a: real): real { if a < 0.0 then -a else a }

  /** `std::min(std::max(x, lo), hi)`: the upper bound wins when the bounds are crossed. */
  function Clamp(x: real, lo: real, hi: real): real { Min(Max(x, lo), hi) }

  // ------------------------------------------------------------------------------------------------------------------
  // Output axis: 0 full charge, neutral point in the middle, 1 full discharge
  // ------------------------------------------------------------------------------------------------------------------

  function OToOc(o: real, neutral: real): real
    requires 0.0 < neutral < 1.0
  {
    if o > neutral then 0.0 else 1.0 - o / neutral
  }

  function OToOd(o: real, neutral: real): real
    requires 0.0 < neutral < 1.0
  {
    if o < neutral then 0.0 else (o - neutral) / (1.0 - neutral)
  }

  /** Every output asks for charge or for discharge, never for both, and inside [0, 1] for no more than all of it; the
      two demands determine the output. */
  lemma OutputSplits(o: real, neutral: real)
    requires 0.0 < neutral < 1.0
    ensures OToOc(o, neutral) >= 0.0 && OToOd(o, neutral) >= 0.0
    ensures OToOc(o, neutral) == 0.0 || OToOd(o, neutral) == 0.0
    ensures 0.0 <= o <= 1.0 ==> OToOc(o, neutral) <= 1.0 && OToOd(o, neutral) <= 1.0
    ensures o == neutral - OToOc(o, neutral) * neutral + OToOd(o, neutral) * (1.0 - neutral)
  {
    if o <= neutral {
      Quotient(o, neutral);
      if o >= 0.0 {
        assert o / neutral >= 0.0;
      }
    }
    if o >= neutral {
      Quotient(o - neutral, 1.0 - neutral);
    }
  }

  /** x is the quotient of a by a positive b. */
  lemma Quotient(a: real, b: real)
    requires b > 0.0
    ensures (a / b) * b == a
    ensures a <= b ==> a / b <= 1.0
    ensures a >= 0.0 ==> a / b >= 0.0
  {
    var x := a / b;
    assert x * b == a;
    Order(x, 1.0, b);
    Order(0.0, x, b);
  }

  /** Multiplying by a positive number keeps and reflects the order. */
  lemma Order(x: real, y: real, b: real)
    requires b > 0.0
    ensures x * b <= y * b <==> x <= y
  {
  }

  /** `std::round(level * 1000) / 1000` for a level that is not negative. */
  function Quantize(level: real): real {
    ((level * 1000.0 + 0.5).Floor as real) / 1000.0
  }

  /** Quantising moves a level by at most half a step, keeps the order and the sign, and does nothing to a multiple of
      a thousandth; in particular nothing the second time. */
  lemma QuantizeProperties(a: real, b: real)
    requires 0.0 <= a <= b
    ensures 0.0 <= Quantize(a) <= Quantize(b)
    ensures -0.0005 <= Quantize(a) - a <= 0.0005
    ensures Quantize(Quantize(a)) == Quantize(a)
  {
    Thousandths((a * 1000.0 + 0.5).Floor);
    var m, n := (a * 1000.0 + 0.5).Floor, (b * 1000.0 + 0.5).Floor;
    assert 0 <= m <= n;
    assert Quantize(a) == m as real / 1000.0 && Quantize(b) == n as real / 1000.0;
  }

  lemma Thousandths(n: int)
    ensures Quantize(n as real / 1000.0) == n as real / 1000.0
  {
    var x := n as real / 1000.0;
    assert x * 1000.0 == n as real;
    FloorHalf(n);
  }

  lemma FloorHalf(n: int)
    ensures (n as real + 0.5).Floor == n
  {
  }

  // ------------------------------------------------------------------------------------------------------------------
  // Feed-forward
  // ------------------------------------------------------------------------------------------------------------------

  datatype Point = Point(watts: real, jump: real)

  const FF_TABLE: seq<Point> := [
    Point(0.0, 0.000), Point(281.0, 0.0345), Point(712.6, 0.0865), Point(1393.0, 0.1720), Point(1856.5, 0.2350),
    Point(2290.0, 0.3050), Point(2500.0, 0.3320), Point(3184.0, 0.4280), Point(3450.0, 0.4750), Point(3630.0, 0.5000)]

  /** How far `w` is from the first point to the second. */
  function Fraction(p: Point, q: Point, w: real): real
    requires p.watts < q.watts
  {
    (w - p.watts) / (q.watts - p.watts)
  }

  /** Straight line through two points. */
  function Between(p: Point, q: Point, w: real): real
    requires p.watts < q.watts
  {
    p.jump + (q.jump - p.jump) * Fraction(p, q, w)
  }

  lemma TableRises(i: nat)
    requires i + 1 < |FF_TABLE|
    ensures FF_TABLE[i].watts < FF_TABLE[i + 1].watts && FF_TABLE[i].jump < FF_TABLE[i + 1].jump
  {
  }

  /** The jump for `w` watts: linear between the points of the table, the last point beyond it. */
  function JumpFrom(i: nat, w: real): real
    requires i < |FF_TABLE|
    decreases |FF_TABLE| - i
  {
    if i + 1 == |FF_TABLE| then FF_TABLE[i].jump
    else
      TableRises(i);
      if w <= FF_TABLE[i + 1].watts then Between(FF_TABLE[i], FF_TABLE[i + 1], w) else JumpFrom(i + 1, w)
  }

  function Jump(delta: real): real {
    if delta < 0.0 then -JumpFrom(0, -delta) else JumpFrom(0, delta)
  }

  /** From 0 to 1 between the points, and growing. */
  lemma FractionProperties(p: Point, q: Point, v: real, w: real)
    requires p.watts < q.watts && p.watts <= v <= w <= q.watts
    ensures 0.0 <= Fraction(p, q, v) <= Fraction(p, q, w) <= 1.0
  {
    var d := q.watts - p.watts;
    Quotient(v - p.watts, d);
    Quotient(w - p.watts, d);
    Order((v - p.watts) / d, (w - p.watts) / d, d);
  }

  lemma Scale(j: real, x: real, y: real)
    requires j > 0.0 && 0.0 <= x <= y <= 1.0
    ensures 0.0 <= j * x <= j * y <= j
  {
    Order(0.0, x, j);
    Order(x, y, j);
    Order(y, 1.0, j);
    assert j * x == x * j && j * y == y * j;
  }

  lemma BetweenProperties(p: Point, q: Point, v: real, w: real)
    requires p.watts < q.watts && p.jump < q.jump && p.watts <= v <= w <= q.watts
    ensures p.jump <= Between(p, q, v) <= Between(p, q, w) <= q.jump
  {
    hide Fraction;
    FractionProperties(p, q, v, w);
    Scale(q.jump - p.jump, Fraction(p, q, v), Fraction(p, q, w));
  }

  lemma BetweenEnds(p: Point, q: Point)
    requires p.watts < q.watts
    ensures Between(p, q, p.watts) == p.jump && Between(p, q, q.watts) == q.jump
  {
    var d := q.watts - p.watts;
    assert (p.watts - p.watts) / d == 0.0;
    assert d / d == 1.0;
    assert Fraction(p, q, p.watts) == 0.0 && Fraction(p, q, q.watts) == 1.0;
  }

  lemma {:induction false} JumpRises(i: nat, v: real, w: real)
    requires i < |FF_TABLE| && FF_TABLE[i].watts <= v <= w
    ensures FF_TABLE[i].jump <= JumpFrom(i, v) <= JumpFrom(i, w) <= 0.5
    decreases |FF_TABLE| - i
  {
    if i + 1 < |FF_TABLE| {
      TableRises(i);
      var p, q := FF_TABLE[i], FF_TABLE[i + 1];
      if w <= q.watts {
        BetweenProperties(p, q, v, w);
        JumpBound(i + 1);
      } else {
        JumpRises(i + 1, if v <= q.watts then q.watts else v, w);
        if v <= q.watts {
          BetweenProperties(p, q, v, q.watts);
          BetweenEnds(p, q);
        }
      }
    }
  }

  lemma JumpBound(i: nat)
    requires i < |FF_TABLE|
    ensures FF_TABLE[i].jump <= 0.5
  {
  }

  /** The feed-forward jump is the same in both directions. */
  lemma JumpOdd(v: real)
    ensures Jump(-v) == -Jump(v)
  {
    if v == 0.0 {
      JumpAtZero();
    } else if v > 0.0 {
      assert -(-v) == v;
    }
  }

  /** It has the sign of the power step and never exceeds half the output range. */
  lemma JumpBounded(v: real)
    ensures -0.5 <= Jump(v) <= 0.5
    ensures v >= 0.0 ==> Jump(v) >= 0.0
  {
    JumpPositive(Abs(v));
  }

  /** It grows with the step. */
  lemma JumpMonotone(v: real, w: real)
    requires v <= w
    ensures Jump(v) <= Jump(w)
  {
    if v >= 0.0 {
      JumpRises(0, v, w);
    } else if w < 0.0 {
      JumpRises(0, -w, -v);
    } else {
      JumpPositive(-v);
      JumpPositive(w);
    }
  }

  lemma JumpPositive(v: real)
    requires v >= 0.0
    ensures 0.0 <= JumpFrom(0, v) <= 0.5
  {
    JumpRises(0, 0.0, v);
    JumpAtZero();
  }

  lemma JumpAtZero()
    ensures JumpFrom(0, 0.0) == 0.0
  {
    TableRises(0);
    BetweenEnds(FF_TABLE[0], FF_TABLE[1]);
  }

  lemma InSegment(i: nat, w: real)
    requires i + 1 < |FF_TABLE| && FF_TABLE[i].watts <= w <= FF_TABLE[i + 1].watts
    ensures FF_TABLE[i].watts < FF_TABLE[i + 1].watts
    ensures JumpFrom(i, w) == Between(FF_TABLE[i], FF_TABLE[i + 1], w)
  {
    TableRises(i);
  }

  lemma BeyondSegment(i: nat, w: real)
    requires i + 1 < |FF_TABLE| && w > FF_TABLE[i + 1].watts
    ensures JumpFrom(i, w) == JumpFrom(i + 1, w)
  {
    TableRises(i);
  }

  lemma {:induction false} SegmentReached(j: nat, i: nat, w: real)
    requires j <= i && i + 1 < |FF_TABLE| && (j < i ==> FF_TABLE[i].watts < w)
    ensures JumpFrom(j, w) == JumpFrom(i, w)
    decreases i - j
  {
    if j < i {
      TableBelow(j + 1, i);
      BeyondSegment(j, w);
      SegmentReached(j + 1, i, w);
    }
  }

  lemma {:induction false} TableBelow(i: nat, k: nat)
    requires i <= k < |FF_TABLE|
    ensures FF_TABLE[i].watts <= FF_TABLE[k].watts
    decreases k - i
  {
    if i < k {
      TableRises(i);
      TableBelow(i + 1, k);
    }
  }

  lemma OnLine(p: Point, q: Point, w: real)
    requires p.watts < q.watts
    ensures (Between(p, q, w) - p.jump) * (q.watts - p.watts) == (q.jump - p.jump) * (w - p.watts)
  {
    Quotient(w - p.watts, q.watts - p.watts);
    var j := q.jump - p.jump;
    assert j * Fraction(p, q, w) * (q.watts - p.watts) == j * (Fraction(p, q, w) * (q.watts - p.watts));
  }

  /** Between two points of the table the jump lies on the straight line through them, and beyond the last one it is
      half the output range. */
  lemma JumpOnLine(i: nat, w: real)
    requires i + 1 < |FF_TABLE| && FF_TABLE[i].watts <= w && (i > 0 ==> FF_TABLE[i].watts < w)
    ensures var p, q := FF_TABLE[i], FF_TABLE[i + 1];
            w <= q.watts ==> (Jump(w) - p.jump) * (q.watts - p.watts) == (q.jump - p.jump) * (w - p.watts)
    ensures w > 3630.0 ==> Jump(w) == 0.5
  {
    hide Between;
    TableBelow(0, i);
    SegmentReached(0, i, w);
    if w <= FF_TABLE[i + 1].watts {
      TableRises(i);
      InSegment(i, w);
      OnLine(FF_TABLE[i], FF_TABLE[i + 1], w);
    }
    if w > 3630.0 {
      BeyondTable(0, w);
    }
  }

  /** Interpolation as the source writes it. */
  method Interpolate(p: Point, q: Point, w: real) returns (r: real)
    requires p.watts < q.watts
    ensures r == Between(p, q, w)
  {
    r := p.jump + (q.jump - p.jump) * ((w - p.watts) / (q.watts - p.watts));
  }

  /** The search through the table for a power between its ends. */
  method SearchTable(absW: real) returns (absJump: real)
    requires FF_TABLE[0].watts <= absW < FF_TABLE[|FF_TABLE| - 1].watts
    ensures absJump == JumpFrom(0, absW)
  {
    absJump := 0.0;
    var last := |FF_TABLE| - 1;
    var i := 0;
    while i < last
      invariant 0 <= i <= last && FF_TABLE[i].watts <= absW
      invariant JumpFrom(0, absW) == JumpFrom(i, absW)
    {
      if absW >= FF_TABLE[i].watts && absW <= FF_TABLE[i + 1].watts {
        InSegment(i, absW);
        absJump := Interpolate(FF_TABLE[i], FF_TABLE[i + 1], absW);
        return;
      }
      BeyondSegment(i, absW);
      i := i + 1;
    }
  }

  /** calculate_ff_jump */
  method CalculateFfJump(deltaW: real) returns (jump: real)
    ensures jump == Jump(deltaW)
  {
    var absW := Abs(deltaW);
    var absJump;
    var last := |FF_TABLE| - 1;
    if absW <= FF_TABLE[0].watts {
      absJump := FF_TABLE[0].jump;
      JumpAtZero();
    } else if absW >= FF_TABLE[last].watts {
      absJump := FF_TABLE[last].jump;
      BeyondTable(0, absW);
    } else {
      absJump := SearchTable(absW);
    }
    return if deltaW < 0.0 then -absJump else absJump;
  }

  lemma {:induction false} BeyondTable(i: nat, w: real)
    requires i < |FF_TABLE| && w >= FF_TABLE[|FF_TABLE| - 1].watts
    ensures JumpFrom(i, w) == FF_TABLE[|FF_TABLE| - 1].jump
    decreases |FF_TABLE| - i
  {
    if i + 1 < |FF_TABLE| {
      BeyondTable(i + 1, w);
      TableSorted(i + 1);
      if w == FF_TABLE[i + 1].watts {
        InSegment(i, w);
        BetweenEnds(FF_TABLE[i], FF_TABLE[i + 1]);
      } else {
        BeyondSegment(i, w);
      }
    }
  }

  lemma TableSorted(i: nat)
    requires 0 < i < |FF_TABLE|
    ensures FF_TABLE[i - 1].watts < FF_TABLE[i].watts <= FF_TABLE[|FF_TABLE| - 1].watts
    ensures FF_TABLE[i].watts == FF_TABLE[|FF_TABLE| - 1].watts ==> i == |FF_TABLE| - 1
  {
  }
}
