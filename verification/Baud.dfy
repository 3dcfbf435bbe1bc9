/** The baud rate generator of the UART bridge: a 16-bit divisor in 12.4 fixed point of a clock of 12 to 384 MHz. */
module Baud {
  import opened Words

  const UART_REF_CLOCK: u32 := 192000000
  const PLL_MULTIPLIER := 12
  const DIVISOR_MIN := 16
  const DIVISOR_MAX := 0xFFFF

  /** The crystals the configuration accepts, in Hz; 0 stands for the internal clock. */
  predicate SupportedCrystal(hz: u32) {
    hz == 0 || 1000000 <= hz <= 32000000
  }

  function UartClock(hz: u32): (clock: u32)
    requires SupportedCrystal(hz)
    ensures 12000000 <= clock <= 384000000
  {
    if hz != 0 then (hz as int) * PLL_MULTIPLIER else UART_REF_CLOCK
  }

  predicate SupportedClock(clock: u32) {
    12000000 <= clock <= 384000000
  }

  /** The run-time limits; the additions and divisions are on unsigned 32-bit words and do not wrap here. */
  function BaudMin(clock: u32): u32
    requires SupportedClock(clock)
  {
    ((clock as int) + DIVISOR_MAX - 1) / DIVISOR_MAX
  }

  function BaudMax(clock: u32): u32
    requires SupportedClock(clock)
  {
    (clock as int) / DIVISOR_MIN
  }

  /** The configuration's own limits: its `//` rounds down, also for the negated clock. */
  function ConfigLimits(clock: int): (int, int) {
    (-((-clock) / DIVISOR_MAX), clock / DIVISOR_MIN)
  }

  /** What the divisor is before it is clamped. */
  function Rounded(clock: u32, baud: u32): int
    requires baud > 0
  {
    ((clock as int) + (baud as int) / 2) / baud
  }

  function Distance(a: int, b: int): nat {
    if a < b then b - a else a - b
  }

  /** Between the limits is exactly where the true ratio fits the divisor register, and the configuration computes the
      same two limits as the driver. */
  lemma LimitsAreExact(clock: u32, baud: u32)
    requires SupportedClock(clock)
    ensures BaudMin(clock) <= baud <= BaudMax(clock)
       <==> DIVISOR_MIN * (baud as int) <= clock <= DIVISOR_MAX * (baud as int)
    ensures ConfigLimits(clock) == (BaudMin(clock) as int, BaudMax(clock) as int)
    ensures 0 < BaudMin(clock) <= BaudMax(clock)
  {
  }

  lemma MultiplesKeepOrder(a: int, b: int, d: int)
    requires d > 0
    ensures a <= b ==> a * d <= b * d
    ensures a < b ==> a * d + d <= b * d
  {
    if a < b {
      OneMore(b - 1, d);
      MoreTimes(a, b - 1 - a, d);
    }
  }

  lemma OneMore(a: int, d: int)
    ensures (a + 1) * d == a * d + d
  {
  }

  lemma {:induction false} MoreTimes(a: int, k: nat, d: nat)
    ensures a * d <= (a + k) * d
  {
    if k > 0 {
      MoreTimes(a, k - 1, d);
      OneMore(a + (k - 1), d);
    }
  }

  /** What rounding to nearest means: the divisor's multiple of the baud rate is at most half a baud away, and a tie
      goes to the larger divisor. */
  predicate HalfAway(clock: int, baud: int, divisor: int) {
    -baud <= 2 * (clock - divisor * baud) < baud
  }

  lemma RoundedIsClose(clock: u32, baud: u32)
    requires baud > 0
    ensures HalfAway(clock, baud, Rounded(clock, baud))
  {
    var n := (clock as int) + (baud as int) / 2;
    assert n == Rounded(clock, baud) * baud + n % baud;
  }

  lemma HalfAwayFits(clock: int, baud: int, divisor: int)
    requires baud > 0 && HalfAway(clock, baud, divisor)
    requires DIVISOR_MIN * baud <= clock <= DIVISOR_MAX * baud
    ensures DIVISOR_MIN <= divisor <= DIVISOR_MAX
  {
    MultiplesKeepOrder(divisor, DIVISOR_MIN, baud);
    MultiplesKeepOrder(DIVISOR_MAX, divisor, baud);
  }

  /** Between the limits the rounded divisor needs no clamping. */
  lemma RoundedFits(clock: u32, baud: u32)
    requires SupportedClock(clock) && BaudMin(clock) <= baud <= BaudMax(clock)
    ensures baud > 0 && DIVISOR_MIN <= Rounded(clock, baud) <= DIVISOR_MAX
  {
    LimitsAreExact(clock, baud);
    RoundedIsClose(clock, baud);
    HalfAwayFits(clock, baud, Rounded(clock, baud));
  }

  lemma HalfAwayIsNearest(clock: int, baud: int, divisor: int, other: int)
    requires baud > 0 && HalfAway(clock, baud, divisor)
    ensures Distance(clock, divisor * baud) <= Distance(clock, other * baud)
  {
    MultiplesKeepOrder(other, divisor, baud);
    MultiplesKeepOrder(divisor, other, baud);
  }

  /** No other divisor comes nearer to the clock. */
  lemma RoundedIsNearest(clock: u32, baud: u32, other: int)
    requires baud > 0
    ensures Distance(clock, Rounded(clock, baud) * baud) <= Distance(clock, other * baud)
  {
    RoundedIsClose(clock, baud);
    HalfAwayIsNearest(clock, baud, Rounded(clock, baud), other);
  }

  /** How far the rate `clock / divisor` is from the wanted one. */
  function RateOff(clock: int, baud: int, divisor: int): real
    requires divisor > 0
  {
    clock as real / divisor as real - baud as real
  }

  lemma RateOffTimesDivisor(clock: int, baud: int, divisor: int)
    requires divisor > 0
    ensures divisor as real * RateOff(clock, baud, divisor) == (clock - divisor * baud) as real
  {
    var d := divisor as real;
    var rate := clock as real / d;
    assert d * rate == clock as real;
    assert d * (rate - baud as real) == d * rate - d * baud as real;
  }

  lemma Shrink(d: real, off: real)
    requires d >= 16.0
    ensures off >= 0.0 ==> 0.0 <= 16.0 * off <= d * off
    ensures off <= 0.0 ==> d * off <= 16.0 * off <= 0.0
  {
    var extra := (d - 16.0) * off;
    assert d * off == 16.0 * off + extra;
    assert off >= 0.0 ==> extra >= 0.0;
    assert off <= 0.0 ==> extra <= 0.0;
  }

  /** A rate error of at most `baud / (2 * divisor)`, and of one part in 32. */
  predicate SmallError(baud: real, divisor: real, off: real) {
    && -baud <= 2.0 * (divisor * off) <= baud
    && -baud <= 32.0 * off <= baud
  }

  lemma ErrorFrom(baud: real, divisor: real, off: real, rest: real)
    requires divisor >= 16.0 && divisor * off == rest
    requires -baud <= 2.0 * rest <= baud
    ensures SmallError(baud, divisor, off)
  {
    Shrink(divisor, off);
  }

  lemma HalfAwayError(clock: int, baud: int, divisor: int)
    requires baud > 0 && divisor >= 16 && HalfAway(clock, baud, divisor)
    ensures SmallError(baud as real, divisor as real, RateOff(clock, baud, divisor))
  {
    var rest := clock - divisor * baud;
    RateOffTimesDivisor(clock, baud, divisor);
    ErrorFrom(baud as real, divisor as real, RateOff(clock, baud, divisor), rest as real);
  }

  /** The rate really produced, `clock / divisor`, is within `baud / (2 * divisor)` of the wanted one, which is one
      part in 32 at most. */
  lemma RateError(clock: u32, baud: u32)
    requires SupportedClock(clock) && BaudMin(clock) <= baud <= BaudMax(clock)
    ensures baud > 0 && Rounded(clock, baud) > 0
    ensures SmallError(baud as real, Rounded(clock, baud) as real, RateOff(clock, baud, Rounded(clock, baud)))
  {
    RoundedFits(clock, baud);
    RoundedIsClose(clock, baud);
    HalfAwayError(clock, baud, Rounded(clock, baud));
  }

  lemma FactorsKeepOrder(p: int, a: int, b: int)
    requires p >= 0 && a <= b
    ensures p * a <= p * b
  {
    assert p * b - p * a == p * (b - a);
  }

  lemma HalfAwayFalls(clock: int, slow: int, fast: int, p: int, q: int)
    requires 0 < slow <= fast && clock >= 0
    requires HalfAway(clock, slow, p)
    requires HalfAway(clock, fast, q)
    ensures q <= p
  {
    MultiplesKeepOrder(p, -1, slow);
    FactorsKeepOrder(p, slow, fast);
    MultiplesKeepOrder(p, q, fast);
  }

  /** A faster line never gets a larger divisor. */
  lemma RoundedFalls(clock: u32, slow: u32, fast: u32)
    requires 0 < slow <= fast
    ensures Rounded(clock, fast) <= Rounded(clock, slow)
  {
    RoundedIsClose(clock, slow);
    RoundedIsClose(clock, fast);
    HalfAwayFalls(clock, slow, fast, Rounded(clock, slow), Rounded(clock, fast));
  }

  lemma Halves(v: int)
    requires 0 <= v < 0x1_0000
    ensures v % 0x100 + 0x100 * ((v / 0x100) % 0x100) == v
  {
  }

  /** The two halves the divisor latch is written with. */
  method SetBaudrate(clock: u32, wanted: u32) returns (baud: u32, low: u8, high: u8)
    requires SupportedClock(clock)
    ensures BaudMin(clock) <= baud <= BaudMax(clock)
    ensures BaudMin(clock) <= wanted <= BaudMax(clock) ==> baud == wanted
    ensures forall other: u32 :: BaudMin(clock) <= other <= BaudMax(clock) ==>
              Distance(wanted, baud) <= Distance(wanted, other)
    ensures baud > 0 && (low as int) + 0x100 * (high as int) == Rounded(clock, baud)
    ensures DIVISOR_MIN <= Rounded(clock, baud) <= DIVISOR_MAX
  {
    baud := wanted;
    LimitsAreExact(clock, baud);
    if baud < BaudMin(clock) || baud > BaudMax(clock) {
      baud := if baud < BaudMin(clock) then BaudMin(clock) else baud;
      baud := if baud > BaudMax(clock) then BaudMax(clock) else baud;
    }
    RoundedFits(clock, baud);
    var divisor := Rounded(clock, baud);
    divisor := if divisor < DIVISOR_MIN then DIVISOR_MIN else divisor;
    divisor := if divisor > DIVISOR_MAX then DIVISOR_MAX else divisor;
    Halves(divisor);
    low := divisor % 0x100;
    high := (divisor / 0x100) % 0x100;
  }
}
