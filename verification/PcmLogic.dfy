/** Decisions of the dual PID controller: which mode comes next, and the undervoltage latch. */
module PcmLogic {
  import opened Words
  import opened PcmMath

  const IDLE := 0
  const CHARGE := 1
  const DISCHARGE := 2

  type Mode = m: int | IDLE <= m <= DISCHARGE

  /** Power thresholds in watts, None while the battery voltage is not a number: every comparison is then false. */
  datatype Thresholds = Thresholds(stopCh: Option<real>, stopDis: Option<real>, startCh: Option<real>,
                                   startDis: Option<real>)

  predicate Below(x: real, t: Option<real>) {
    t.Some? && x < t.value * DEADBAND_FACTOR
  }

  predicate Above(x: real, t: Option<real>) {
    t.Some? && x > t.value * DEADBAND_FACTOR
  }

  function ThresholdsFor(battery: Option<real>, minCurCh: real, minCurDis: real, selfConsumption: real,
                         deltaCh: real, deltaDis: real): Thresholds {
    if battery.None? then Thresholds(None, None, None, None) else
    var stopCh, stopDis := -battery.value * minCurCh, battery.value * minCurDis + selfConsumption;
    Thresholds(Some(stopCh), Some(stopDis), Some(stopCh - deltaCh), Some(stopDis + deltaDis))
  }

  /** The error lies between the stop thresholds. */
  predicate RawDeadband(epsi: real, t: Thresholds) {
    Above(epsi, t.stopCh) && Below(epsi, t.stopDis)
  }

  /** What the state machine looks at. `gateCh` and `gateDis` say whether charging and discharging are allowed; `atMin`
      whether the level of the running direction is down at its minimum; `beyond` whether the output has crossed to
      the other side. */
  datatype Situation = Situation(epsi: real, t: Thresholds, gateCh: bool, gateDis: bool, deadband: bool, atMin: bool,
                                 beyond: bool, inStartup: bool)

  /** The mode, and how the state machine leaves `pass_through_` and `deadband_start_time_`. */
  datatype Decision = Decision(mode: Mode, passThrough: bool, deadbandStart: u32)

  /** The mode an idle converter starts in, if any. */
  function StartMode(epsi: real, t: Thresholds, gateCh: bool, gateDis: bool): Mode {
    if Below(epsi, t.startCh) && gateCh then CHARGE
    else if Above(epsi, t.startDis) && gateDis then DISCHARGE
    else IDLE
  }

  /** The next mode of a running direction `mode`, whose gate is `gate`; `other` is the other direction, and `reverse`
      says that it may and should start. */
  function NextRunning(mode: Mode, other: Mode, gate: bool, otherGate: bool, reverse: bool, s: Situation,
                       passThrough: bool, deadbandStart: u32, now: u32): Decision {
    if !gate then Decision(IDLE, false, 0)
    else if s.beyond && otherGate then Decision(other, true, 0)
    else if s.deadband && s.atMin && !s.inStartup then
      var start := if deadbandStart == 0 then now else deadbandStart;
      if Sub32(now, start) >= DEADBAND_CONFIRM_MS then Decision(IDLE, false, 0)
      else Decision(mode, passThrough, start)
    else if !s.inStartup && s.atMin && reverse && otherGate then Decision(other, true, 0)
    else Decision(mode, passThrough, 0)
  }

  function Decide(mode: Mode, s: Situation, passThrough: bool, deadbandStart: u32, now: u32): Decision {
    if mode == IDLE then Decision(StartMode(s.epsi, s.t, s.gateCh, s.gateDis), passThrough, deadbandStart)
    else if mode == CHARGE then
      NextRunning(CHARGE, DISCHARGE, s.gateCh, s.gateDis, Above(s.epsi, s.t.startDis), s, passThrough, deadbandStart,
                  now)
    else
      NextRunning(DISCHARGE, CHARGE, s.gateDis, s.gateCh, Below(s.epsi, s.t.startCh), s, passThrough, deadbandStart,
                  now)
  }

  /** Whatever the situation, the mode decided on is one that is allowed. */
  lemma DecisionIsAllowed(mode: Mode, s: Situation, passThrough: bool, deadbandStart: u32, now: u32)
    ensures var d := Decide(mode, s, passThrough, deadbandStart, now);
            (d.mode == CHARGE ==> s.gateCh) && (d.mode == DISCHARGE ==> s.gateDis)
  {
  }

  /** Only a reversal passes from one direction to the other. */
  lemma PassesThrough(mode: Mode, s: Situation, passThrough: bool, deadbandStart: u32, now: u32)
    ensures var d := Decide(mode, s, passThrough, deadbandStart, now);
            && (mode == IDLE || d.mode == mode ==> d.passThrough == passThrough)
            && (mode != IDLE && d.mode != IDLE && d.mode != mode ==> d.passThrough)
  {
  }

  /** Hysteresis: with start thresholds no nearer than the stop thresholds, no power inside the stop thresholds restarts
      an idle converter. */
  lemma NoRestartInDeadband(epsi: real, gateCh: bool, gateDis: bool, battery: Option<real>, minCurCh: real,
                            minCurDis: real, selfConsumption: real, deltaCh: real, deltaDis: real)
    requires deltaCh >= 0.0 && deltaDis >= 0.0
    requires RawDeadband(epsi, ThresholdsFor(battery, minCurCh, minCurDis, selfConsumption, deltaCh, deltaDis))
    ensures StartMode(epsi, ThresholdsFor(battery, minCurCh, minCurDis, selfConsumption, deltaCh, deltaDis),
                      gateCh, gateDis) == IDLE
  {
  }

  /** An update sees the deadband, at a minimal level and after start-up. */
  predicate SeesDeadband(s: Situation) {
    s.deadband && s.atMin && !s.inStartup
  }

  /** What an update makes of `deadbandStart`: it is the time of the first such update of a direction that goes on,
      and 0 when the update is not one of these. */
  lemma StartIsKept(mode: Mode, s: Situation, passThrough: bool, deadbandStart: u32, now: u32)
    requires mode != IDLE
    ensures var d := Decide(mode, s, passThrough, deadbandStart, now);
            d.deadbandStart == if d.mode != mode || !SeesDeadband(s) then 0
                               else if deadbandStart == 0 then now else deadbandStart
  {
  }

  /** A clock that shows exactly 0 is taken for no start at all: the deadband is seen for 2.5 s, and charging goes
      on. */
  lemma ZeroIsNoStart(s: Situation)
    requires SeesDeadband(s) && s.gateCh && !s.beyond
    ensures var first := Decide(CHARGE, s, false, 0, 0);
            var second := Decide(CHARGE, s, false, first.deadbandStart, DEADBAND_CONFIRM_MS);
            first == Decision(CHARGE, false, 0) && second == Decision(CHARGE, false, DEADBAND_CONFIRM_MS)
  {
  }

  /** A direction that stays allowed is given up for idle exactly when the deadband is seen, at a minimal level and
      after start-up, 2.5 s or more after `deadbandStart`; it is given up for the other direction only if that one
      is allowed. That `deadbandStart` is what its name says is an invariant of the controller. */
  lemma StopIsConfirmed(mode: Mode, s: Situation, passThrough: bool, deadbandStart: u32, now: u32)
    requires mode != IDLE && (if mode == CHARGE then s.gateCh else s.gateDis)
    ensures var d := Decide(mode, s, passThrough, deadbandStart, now);
            (d.mode == IDLE <==> !(s.beyond && (if mode == CHARGE then s.gateDis else s.gateCh)) &&
                                 s.deadband && s.atMin && !s.inStartup &&
                                 deadbandStart != 0 && Sub32(now, deadbandStart) >= DEADBAND_CONFIRM_MS) &&
            (d.mode != mode && d.mode != IDLE ==> d.passThrough)
  {
  }

  /** The undervoltage lockout never keeps an idle converter from charging. */
  lemma LockoutDoesNotBlockCharge(epsi: real, t: Thresholds, gateCh: bool, allowDischarging: bool, lockout: bool)
    ensures StartMode(epsi, t, gateCh, allowDischarging && !lockout) == CHARGE <==>
            StartMode(epsi, t, gateCh, allowDischarging) == CHARGE
  {
  }

  // ------------------------------------------------------------------------------------------------------------------
  // Undervoltage latch
  // ------------------------------------------------------------------------------------------------------------------

  /** A battery voltage with the thresholds in force when it was evaluated. */
  datatype Reading = Reading(volts: real, stop: real, start: real)

  function LatchStep(lockout: bool, r: Reading): bool {
    if r.volts < r.stop then true else if r.volts >= r.start then false else lockout
  }

  function Latch(readings: seq<Reading>): bool {
    if readings == [] then false else LatchStep(Latch(readings[..|readings| - 1]), readings[|readings| - 1])
  }

  /** The reading leaves the latch as it is. */
  predicate Inside(r: Reading) {
    r.stop <= r.volts && r.volts < r.start
  }

  /** Reading `i` is below its stop threshold and every later one is inside the band. */
  predicate LastOutsideIsLow(readings: seq<Reading>, i: nat) {
    i < |readings| && readings[i].volts < readings[i].stop && forall k | i < k < |readings| :: Inside(readings[k])
  }

  lemma {:induction false} LatchHolds(readings: seq<Reading>) returns (i: nat)
    requires Latch(readings)
    ensures LastOutsideIsLow(readings, i)
  {
    var n := |readings| - 1;
    if readings[n].volts < readings[n].stop {
      i := n;
    } else {
      i := LatchHolds(readings[..n]);
    }
  }

  lemma LatchNext(readings: seq<Reading>, r: Reading)
    ensures Latch(readings + [r]) == LatchStep(Latch(readings), r)
  {
    assert (readings + [r])[..|readings|] == readings;
  }

  lemma {:induction false} LatchFollows(readings: seq<Reading>, i: nat)
    requires LastOutsideIsLow(readings, i)
    ensures Latch(readings)
  {
    var n := |readings| - 1;
    if i < n {
      assert readings[n].volts >= readings[n].stop && Inside(readings[n]);
      assert forall k | i < k < n :: Inside(readings[..n][k]);
      LatchFollows(readings[..n], i);
    }
  }

  /** The lockout is set exactly when the last voltage outside [stop, start) was below stop. */
  lemma LatchIsLastOutside(readings: seq<Reading>)
    ensures Latch(readings) <==> exists i: nat :: LastOutsideIsLow(readings, i)
  {
    if Latch(readings) {
      var i := LatchHolds(readings);
    }
    forall i: nat | LastOutsideIsLow(readings, i) ensures Latch(readings) {
      LatchFollows(readings, i);
    }
  }
}
