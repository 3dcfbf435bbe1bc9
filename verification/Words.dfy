/** Fixed-width unsigned numbers, the 32-bit millisecond clock and little-endian words, as the drivers use them. */
module Words {

  type u8 = x: int | 0 <= x < 0x100
  type u16 = x: int | 0 <= x < 0x1_0000
  type u32 = x: int | 0 <= x < 0x1_0000_0000

  const TWO32 := 0x1_0000_0000

  datatype Option<+T> = None | Some(value: T)

  /** `a - b` on `uint32_t`. */
  function Sub32(a: u32, b: u32): u32 {
    (a - b) % TWO32
  }

  /** `a + b` on `uint32_t`. */
  function Add32(a: u32, b: u32): u32 {
    (a + b) % TWO32
  }

  /** The cast `int32_t(x)`. */
  function Signed32(x: u32): int {
    if x < 0x8000_0000 then x else x - TWO32
  }

  /** `int32_t(now - t) >= 0`: the wrap-safe "time t has been reached". */
  predicate Due(now: u32, t: u32) {
    Signed32(Sub32(now, t)) >= 0
  }

  /** What `millis()` shows when `t` milliseconds have really gone by. */
  function Millis(t: nat): u32 {
    t % TWO32
  }

  /** Whole rounds of the clock do not show. */
  lemma AddMultiple(x: int, k: int)
    ensures (x + TWO32 * k) % TWO32 == x % TWO32
  {
  }

  /** The clock shows the time between two moments but for whole rounds. */
  lemma ElapsedIs(from: nat, to: nat)
    requires from <= to
    ensures Sub32(Millis(to), Millis(from)) == (to - from) % TWO32
    ensures (to - from) % TWO32 <= to - from
  {
    assert to == TWO32 * (to / TWO32) + Millis(to);
    assert from == TWO32 * (from / TWO32) + Millis(from);
    AddMultiple(Millis(to) - Millis(from), to / TWO32 - from / TWO32);
  }

  function Put16(v: u16): seq<u8> {
    [v % 0x100, v / 0x100]
  }

  function Get16(s: seq<u8>, i: nat): u16
    requires i + 2 <= |s|
  {
    s[i] + (s[i + 1] as int) * 0x100
  }

  /** `x & (1 << k)` is set, with the power of two given as `p`. */
  predicate Flag(x: nat, p: nat)
    requires p > 0
  {
    (x / p) % 2 == 1
  }
}
