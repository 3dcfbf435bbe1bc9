/** The charge/discharge controller `DUALPIDPCMComponent`: one update per input sample, which decides the mode, computes
    the output and drives the power switch, the direction switch and the two level outputs. */
module PcmController {
  import opened Words
  import opened PcmMath
  import opened PcmLogic

  /** What the user sets; the levels are fractions. */
  datatype Settings = Settings(
    activation: bool, manualOverride: bool, pidMode: bool, feedforward: bool, allowCharging: bool,
    allowDischarging: bool, setpoint: real, ffThreshold: real, startV: real, stopV: real, selfConsumption: real,
    deltaCh: real, deltaDis: real, kp: real, ki: real, minCh: real, maxCh: real, minDis: real, maxDis: real)

  predicate GoodSettings(s: Settings) {
    0.0 <= s.minCh <= 1.0 && 0.0 <= s.maxCh <= 1.0 && 0.0 <= s.minDis <= 1.0 && 0.0 <= s.maxDis <= 1.0
  }

  /** A command to the converter, and the converter it is given to. */
  datatype Command = Power(on: bool) | Direction(charge: bool) | ChargeLevel(level: real) | DischargeLevel(level: real)

  datatype Converter = Converter(power: bool, chargeSide: bool, charge: real, discharge: real)

  /** A level is only raised with the power on and the direction set for it; the power is only cut at level 0. */
  predicate Safe(c: Converter, cmd: Command) {
    match cmd
    case Power(on) => on || (c.charge == 0.0 && c.discharge == 0.0)
    case Direction(_) => c.power
    case ChargeLevel(level) => level >= 0.0 && (level > 0.0 ==> c.power && c.chargeSide)
    case DischargeLevel(level) => level >= 0.0 && (level > 0.0 ==> c.power && !c.chargeSide)
  }

  /** The direction is changed while a level is up. */
  predicate FlipsUnderLoad(c: Converter, cmd: Command) {
    cmd.Direction? && (c.charge > 0.0 || c.discharge > 0.0)
  }

  /** A level is raised while the other one is up. */
  predicate RaisesAgainst(c: Converter, cmd: Command) {
    (cmd.ChargeLevel? && cmd.level > 0.0 && c.discharge > 0.0) ||
    (cmd.DischargeLevel? && cmd.level > 0.0 && c.charge > 0.0)
  }

  /** What one would like of every command. */
  predicate StrictlySafe(c: Converter, cmd: Command) {
    Safe(c, cmd) && !FlipsUnderLoad(c, cmd) && !RaisesAgainst(c, cmd)
  }

  /** How many commands of a trace are of one and of the other kind. */
  function Flips(trace: seq<(Converter, Command)>): nat {
    if trace == [] then 0
    else
      var last := trace[|trace| - 1];
      Flips(trace[..|trace| - 1]) + if FlipsUnderLoad(last.0, last.1) then 1 else 0
  }

  function Raises(trace: seq<(Converter, Command)>): nat {
    if trace == [] then 0
    else
      var last := trace[|trace| - 1];
      Raises(trace[..|trace| - 1]) + if RaisesAgainst(last.0, last.1) then 1 else 0
  }

  lemma CountAppend(trace: seq<(Converter, Command)>, c: Converter, cmd: Command)
    ensures Flips(trace + [(c, cmd)]) == Flips(trace) + if FlipsUnderLoad(c, cmd) then 1 else 0
    ensures Raises(trace + [(c, cmd)]) == Raises(trace) + if RaisesAgainst(c, cmd) then 1 else 0
  {
    var all := trace + [(c, cmd)];
    assert all[..|all| - 1] == trace && all[|all| - 1] == (c, cmd);
  }

  function Count(b: bool): nat {
    if b then 1 else 0
  }

  /** The second trace goes on from the first, and what it adds counts these many of either kind. */
  predicate Adds(before: seq<(Converter, Command)>, after: seq<(Converter, Command)>, flips: nat, raises: nat) {
    before <= after && Flips(after) == Flips(before) + flips && Raises(after) == Raises(before) + raises
  }

  predicate AddsStrict(before: seq<(Converter, Command)>, after: seq<(Converter, Command)>) {
    forall k | |before| <= k < |after| :: StrictlySafe(after[k].0, after[k].1)
  }

  /** The safe commands added to a trace are strictly safe exactly when they count none of either kind. */
  lemma {:induction false} StrictWhenNoneCounted(before: seq<(Converter, Command)>, after: seq<(Converter, Command)>)
    requires before <= after && forall k | |before| <= k < |after| :: Safe(after[k].0, after[k].1)
    ensures Flips(before) <= Flips(after) && Raises(before) <= Raises(after)
    ensures AddsStrict(before, after) <==> Adds(before, after, 0, 0)
    decreases |after|
  {
    if before == after {
      return;
    }
    var n := |after| - 1;
    StrictWhenNoneCounted(before, after[..n]);
    assert forall k | |before| <= k < n :: after[..n][k] == after[k];
    assert AddsStrict(before, after) <==> AddsStrict(before, after[..n]) && StrictlySafe(after[n].0, after[n].1);
  }

  /** One full update as the stop of a direction sees it: when it was, and whether the running converter was in the
      deadband after start-up. */
  datatype Look = Look(t: nat, quiet: bool)

  predicate QuietFrom(history: seq<Look>, k: nat) {
    k < |history| && forall j | k <= j < |history| :: history[j].quiet
  }

  /** The updates at the end of a history, as far as each of them was quiet: the first one the clock showed anything
      but 0 at. */
  function StretchStart(history: seq<Look>): (k: Option<nat>)
    ensures k.Some? ==> k.value < |history| && Millis(history[k.value].t) != 0
  {
    if history == [] || !history[|history| - 1].quiet then None
    else
      var n := |history| - 1;
      var before := StretchStart(history[..n]);
      if before.Some? then before else if Millis(history[n].t) != 0 then Some(n) else None
  }

  /** What that means: from there on all are quiet, and at every earlier one since which all are the clock showed 0. */
  lemma {:induction false} StretchStartIs(history: seq<Look>)
    ensures var k := StretchStart(history);
            && (k.Some? ==> QuietFrom(history, k.value))
            && forall j: nat | QuietFrom(history, j) :: Millis(history[j].t) == 0 || (k.Some? && k.value <= j)
    decreases |history|
  {
    if history != [] && history[|history| - 1].quiet {
      var n := |history| - 1;
      StretchStartIs(history[..n]);
      forall j: nat | QuietFrom(history, j)
        ensures j == n || QuietFrom(history[..n], j)
      {
      }
    }
  }

  /** The time `deadbandStart` stands for. */
  function StartShown(history: seq<Look>): u32 {
    var k := StretchStart(history);
    if k.None? then 0 else Millis(history[k.value].t)
  }

  /** The clock at the time `t` of the last update is 2.5 s or more past the start of the quiet stretch. */
  predicate Confirmed(history: seq<Look>, t: nat) {
    var k := StretchStart(history);
    k.Some? && (t - history[k.value].t) % TWO32 >= 2500
  }

  /** The updates come in the order of time, none after `clock`. */
  predicate InOrder(history: seq<Look>, clock: nat) {
    (forall i, j | 0 <= i < j < |history| :: history[i].t <= history[j].t) &&
    (forall k | 0 <= k < |history| :: history[k].t <= clock)
  }

  lemma StartAppends(history: seq<Look>, look: Look)
    ensures StretchStart(history + [look])
         == if !look.quiet then None
            else if StretchStart(history).Some? then StretchStart(history)
            else if Millis(look.t) != 0 then Some(|history|) else None
  {
    assert (history + [look])[..|history|] == history;
  }

  /** One more update: the start shown, and whether the stop is confirmed, in terms of the start shown before. */
  lemma StretchGoesOn(history: seq<Look>, clock: nat, look: Look)
    requires InOrder(history, clock) && clock <= look.t
    ensures var all, start, now := history + [look], StartShown(history), Millis(look.t);
            && InOrder(all, look.t)
            && StartShown(all) == (if !look.quiet then 0 else if start == 0 then now else start)
            && (Confirmed(all, look.t) <==> look.quiet && start != 0 && Sub32(now, start) >= 2500)
  {
    hide StretchStart, Millis, Sub32;
    StartAppends(history, look);
    var k := StretchStart(history);
    if k.Some? {
      ElapsedIs(history[k.value].t, look.t);
    }
    ElapsedIs(look.t, look.t);
  }

  /** Some update at `t` or before and every one after it was quiet. */
  ghost predicate QuietSince(history: seq<Look>, t: int) {
    exists k: nat :: QuietFrom(history, k) && history[k].t <= t
  }

  /** In real time: a confirmed stop has seen quiet updates for 2.5 s. */
  lemma ConfirmedMeans(history: seq<Look>, t: nat)
    requires InOrder(history, t) && Confirmed(history, t)
    ensures QuietSince(history, t - 2500)
  {
    StretchStartIs(history);
    var k := StretchStart(history).value;
    assert QuietFrom(history, k) && history[k].t <= t - 2500;
  }

  /** And a stretch of quiet updates is confirmed 2.5 s after any one of them at which the clock did not show 0,
      unless it lasts for a round of the clock. */
  lemma LongStretchIsConfirmed(history: seq<Look>, t: nat, j: nat)
    requires InOrder(history, t) && QuietFrom(history, j) && Millis(history[j].t) != 0
    requires history[j].t + 2500 <= t
    ensures StretchStart(history).Some?
    ensures t - history[StretchStart(history).value].t < TWO32 ==> Confirmed(history, t)
  {
    StretchStartIs(history);
  }

  /** With the clock at 0 it is not: both updates quiet, 2.5 s apart, and no stop. */
  lemma QuietNotConfirmed()
    ensures var history := [Look(TWO32, true), Look(TWO32 + 2500, true)];
            QuietFrom(history, 0) && !Confirmed(history, TWO32 + 2500)
  {
    var history := [Look(TWO32, true), Look(TWO32 + 2500, true)];
    assert history[..1] == [Look(TWO32, true)] && history[..1][..0] == [];
    assert StretchStart(history[..1]) == None;
  }

  /** Both modes run, in different directions. */
  predicate Reverses(before: Mode, after: Mode) {
    before != IDLE && after != IDLE && before != after
  }

  /** One update of a direction that goes on after start-up: the error, the time since the last update, the
      feed-forward jump if there was one, what regulation asked for and the bounds it was cut to, the regulation in
      force, and what the update added to the integral. */
  datatype Sample = Sample(error: real, dt: real, jump: real, demand: real, lo: real, hi: real, standard: bool,
                           ki: real, share: real)
  {
    predicate Inside() {
      lo <= demand <= hi
    }
  }

  /** Without a jump the share is error times time, unless that pushes further out of the bounds; with standard
      regulation a jump adds what moves the output by it. */
  predicate SampleOk(s: Sample) {
    var push := s.error * s.dt;
    if s.jump == 0.0 then
      s.share == if (s.demand < s.lo && push < 0.0) || (s.demand > s.hi && push > 0.0) then 0.0 else push
    else if s.standard && s.ki > 0.0001 then 0.00001 * (s.ki * s.share) == s.jump
    else s.share == 0.0
  }

  function Total(samples: seq<Sample>): real {
    if samples == [] then 0.0 else Total(samples[..|samples| - 1]) + samples[|samples| - 1].share
  }

  /** The sum of error times time, over the updates without a jump. */
  function Area(samples: seq<Sample>): real {
    if samples == [] then 0.0
    else
      var s := samples[|samples| - 1];
      Area(samples[..|samples| - 1]) + if s.jump == 0.0 then s.error * s.dt else 0.0
  }

  /** The sum of the jumps. */
  function Jumps(samples: seq<Sample>): real {
    if samples == [] then 0.0 else Jumps(samples[..|samples| - 1]) + samples[|samples| - 1].jump
  }

  /** No saturation so far, and every jump was made with the integral gain `ki`. */
  predicate Calm(samples: seq<Sample>, ki: real) {
    forall k | 0 <= k < |samples| ::
      samples[k].Inside() && (samples[k].jump != 0.0 ==> samples[k].ki == ki > 0.0001)
  }

  predicate SamplesOk(samples: seq<Sample>, standard: bool) {
    forall k | 0 <= k < |samples| :: SampleOk(samples[k]) && samples[k].standard == standard
  }

  lemma CalmStep(ki: real, total: real, area: real, jumps: real, s: Sample)
    requires SampleOk(s) && s.standard && s.Inside() && (s.jump != 0.0 ==> s.ki == ki > 0.0001)
    requires 0.00001 * (ki * total) == 0.00001 * (ki * area) + jumps
    ensures 0.00001 * (ki * (total + s.share)) ==
            0.00001 * (ki * (area + if s.jump == 0.0 then s.error * s.dt else 0.0)) + (jumps + s.jump)
  {
    var push := if s.jump == 0.0 then s.error * s.dt else 0.0;
    assert ki * (total + s.share) == ki * total + ki * s.share;
    assert ki * (area + push) == ki * area + ki * push;
    if s.jump != 0.0 {
      assert ki * push == 0.0;
    }
  }

  lemma {:induction false} CalmTotal(samples: seq<Sample>, ki: real)
    requires SamplesOk(samples, true) && Calm(samples, ki)
    ensures 0.00001 * (ki * Total(samples)) == 0.00001 * (ki * Area(samples)) + Jumps(samples)
    decreases |samples|
  {
    hide SampleOk;
    if samples != [] {
      var before, s := samples[..|samples| - 1], samples[|samples| - 1];
      assert forall k | 0 <= k < |before| :: before[k] == samples[k];
      CalmTotal(before, ki);
      CalmStep(ki, Total(before), Area(before), Jumps(before), s);
    }
  }

  predicate SpacedUpTo(times: seq<nat>, clock: nat) {
    (forall k | 0 <= k < |times| :: times[k] <= clock) &&
    (forall i, j | 0 <= i < j < |times| :: times[i] + 4000 <= times[j])
  }

  lemma SpacedStays(times: seq<nat>, before: nat, t: nat)
    requires SpacedUpTo(times, before) && before <= t
    ensures SpacedUpTo(times, t)
  {
  }

  lemma SpacedNext(times: seq<nat>, before: nat, t: nat)
    requires SpacedUpTo(times, before) && before <= t
    requires times != [] ==> Sub32(Millis(t), Millis(times[|times| - 1])) >= 4000
    ensures SpacedUpTo(times + [t], t)
  {
    if times != [] {
      ElapsedIs(times[|times| - 1], t);
    }
  }

  /** What regulation asks for, over the neutral point or the last output, with the integral so far. */
  function Demand(u: Settings, base: real, before: real, error: real, dt: real, jump: real): real {
    if jump == 0.0 then base + 0.00001 * (u.kp * error + u.ki * (before + error * dt))
    else if !u.pidMode then Min(Max(base + jump, 0.0), 1.0) + 0.00001 * (u.ki * before)
    else base + 0.00001 * (u.ki * before) + if u.ki > 0.0001 then jump else 0.0
  }

  /** The output for the largest and the smallest level of a direction. */
  function Lowest(u: Settings, m: Mode): real {
    if m == CHARGE then 0.5 - 0.5 * u.maxCh else 0.5 + 0.5 * u.minDis
  }

  function Highest(u: Settings, m: Mode): real {
    if m == CHARGE then 0.5 - 0.5 * u.minCh else 0.5 + 0.5 * u.maxDis
  }

  lemma Gains(kp: real, e: real, ki: real, x: real)
    ensures COEFF * kp * e + COEFF * ki * x == 0.00001 * (kp * e + ki * x)
    ensures COEFF * ki * x == 0.00001 * (ki * x)
  {
    assert COEFF * kp * e == COEFF * (kp * e);
    assert COEFF * ki * x == COEFF * (ki * x);
  }

  function Other(m: Mode): Mode {
    if m == CHARGE then DISCHARGE else CHARGE
  }

  class Pcm {
    const lb: real := 0.01
    const ub: real := 0.01
    const neutral: real := 0.5
    const minCurCh: real
    const minCurDis: real

    var user: Settings
    var input: real
    var battery: Option<real>

    // regulation
    var lastTime: u32
    var lastFf: u32
    var error: real
    var prevError: real
    var integral: real
    var output: real
    var prevOutput: real

    // levels: as computed, and as last handed to set_*_level
    var curCh: real
    var prevCh: real
    var curDis: real
    var prevDis: real

    // state machine
    var mode: Mode
    var newMode: Mode
    var prevActivation: bool
    var deadband: bool
    var lockout: bool
    var passThrough: bool
    var onoffFlag: bool
    var modeStart: u32
    var deadbandStart: u32
    var idleStart: u32

    // the converter: the two switches, and the levels last sent
    var onoff: bool
    var chargeSide: bool
    var sentCh: real
    var sentDis: real

    /** Every command given so far, with the state of the converter at that moment. */
    ghost var trace: seq<(Converter, Command)>
    /** Every battery voltage evaluated so far, with the thresholds then. */
    ghost var readings: seq<Reading>
    /** The updates the direction has gone on for since its start-up, or since the regulation was changed. */
    ghost var samples: seq<Sample>
    /** When a change of the error counted for the feed-forward. */
    ghost var counted: seq<nat>
    /** Every full update so far, and the time gone by. */
    ghost var history: seq<Look>
    ghost var clock: nat

    ghost function Plant(): Converter
      reads this`onoff, this`chargeSide, this`sentCh, this`sentDis
    {
      Converter(onoff, chargeSide, sentCh, sentDis)
    }

    ghost predicate TraceSafe()
      reads this`trace
    {
      forall k | 0 <= k < |trace| :: Safe(trace[k].0, trace[k].1)
    }

    /** The last level sent to each device is the remembered one; at most one is not 0, and only in its mode. */
    ghost predicate Levels()
      reads this`curCh, this`prevCh, this`sentCh, this`curDis, this`prevDis, this`sentDis, this`mode
    {
      curCh == prevCh == sentCh >= 0.0 && curDis == prevDis == sentDis >= 0.0 &&
      (sentCh > 0.0 ==> mode == CHARGE) && (sentDis > 0.0 ==> mode == DISCHARGE)
    }

    /** `deadbandStart` shows, while a direction runs, where the stretch of updates that saw the deadband began. */
    ghost predicate Tracks()
      reads this`history, this`clock, this`deadbandStart, this`mode
    {
      InOrder(history, clock) && deadbandStart == if mode == IDLE then 0 else StartShown(history)
    }

    /** What holds between any two calls, whatever the user and other automations do to switches and settings. */
    ghost predicate Valid()
      reads this
    {
      Consistent() && Tracks() && Remembers() && Spaced()
    }

    /** The integral is what the samples have added up to. */
    ghost predicate Remembers()
      reads this`samples, this`user, this`integral, this`mode, this`prevOutput, this`output
    {
      SamplesOk(samples, user.pidMode) &&
      (mode != IDLE ==> integral == Total(samples) && prevOutput == output)
    }

    /** The changes that counted are at least 4 s apart, however often the clock wraps. */
    ghost predicate Spaced()
      reads this`counted, this`lastFf, this`clock
    {
      SpacedUpTo(counted, clock) && (counted != [] ==> lastFf == Millis(counted[|counted| - 1]))
    }

    ghost predicate Consistent()
      reads this`user, this`curCh, this`prevCh, this`sentCh, this`curDis, this`prevDis, this`sentDis, this`mode,
            this`newMode, this`lockout, this`readings, this`prevActivation, this`passThrough, this`trace
    {
      Sound() && (!prevActivation ==> mode == IDLE) && !passThrough
    }

    /** What holds while an update is under way, too. */
    ghost predicate Sound()
      reads this`user, this`curCh, this`prevCh, this`sentCh, this`curDis, this`prevDis, this`sentDis, this`mode,
            this`newMode, this`lockout, this`readings, this`trace
    {
      && GoodSettings(user) && Levels() && newMode == mode
      && (lockout ==> mode != DISCHARGE) && lockout == Latch(readings)
      && TraceSafe()
    }

    /** The switches agree with the levels and the mode. */
    ghost predicate SwitchesAgree()
      reads this`onoff, this`chargeSide, this`sentCh, this`sentDis, this`mode
    {
      (sentCh > 0.0 ==> onoff && chargeSide) && (sentDis > 0.0 ==> onoff && !chargeSide) &&
      (mode == IDLE ==> !onoff && sentCh == 0.0 && sentDis == 0.0)
    }

    predicate Gate()
      reads this`user, this`lockout
    {
      user.allowDischarging && !lockout
    }

    /** setup() */
    constructor (minCurCh: real, minCurDis: real, user: Settings, input: real, battery: Option<real>,
                 chargeSide: bool, now: u32)
      requires GoodSettings(user)
      ensures Valid() && SwitchesAgree() && mode == IDLE && readings == [] && trace == [] && history == []
      ensures this.user == user && this.input == input && this.battery == battery && this.chargeSide == chargeSide
      ensures this.minCurCh == minCurCh && this.minCurDis == minCurDis && lastTime == now
      ensures modeStart == Sub32(now, STARTUP_INHIBIT_MS) && clock == 0
    {
      this.minCurCh, this.minCurDis := minCurCh, minCurDis;
      this.user, this.input, this.battery := user, input, battery;
      lastTime, lastFf, error, prevError, integral, output, prevOutput := now, 0, 0.0, 0.0, 0.0, 0.5, 0.5;
      curCh, prevCh, curDis, prevDis, sentCh, sentDis := 0.0, 0.0, 0.0, 0.0, 0.0, 0.0;
      mode, newMode, prevActivation, deadband, lockout := IDLE, IDLE, false, false, false;
      passThrough, onoffFlag := false, false;
      modeStart, deadbandStart, idleStart := Sub32(now, STARTUP_INHIBIT_MS), 0, 0;
      onoff, this.chargeSide := false, chargeSide;
      trace, readings, history, clock, samples, counted := [], [], [], 0, [], [];
    }

    // ----------------------------------------------------------------------------------------------------------------
    // Commands
    // ----------------------------------------------------------------------------------------------------------------

    method SwitchPower(on: bool)
      requires TraceSafe() && (on || (sentCh == 0.0 && sentDis == 0.0))
      modifies this`onoff, this`trace
      ensures TraceSafe() && onoff == on && Adds(old(trace), trace, 0, 0)
    {
      if onoff != on {
        CountAppend(trace, Plant(), Power(on));
        trace := trace + [(Plant(), Power(on))];
        onoff := on;
      }
    }

    method SwitchDirection(charge: bool)
      requires TraceSafe() && onoff
      modifies this`chargeSide, this`trace
      ensures TraceSafe() && chargeSide == charge
      ensures Adds(old(trace), trace, if old(chargeSide) != charge && (sentCh > 0.0 || sentDis > 0.0) then 1 else 0, 0)
    {
      if chargeSide != charge {
        CountAppend(trace, Plant(), Direction(charge));
        trace := trace + [(Plant(), Direction(charge))];
        chargeSide := charge;
      }
    }

    /** A level reaches the device unless it is the remembered one, or is above 0 while the power is off. */
    method SetChargingLevel(level: real)
      requires level >= 0.0
      modifies this`curCh, this`prevCh, this`sentCh, this`trace
      ensures curCh == prevCh == Quantize(level) >= 0.0
      ensures var sends := Quantize(level) != old(prevCh) && (Quantize(level) > 0.0 ==> onoff);
              && sentCh == (if sends then Quantize(level) else old(sentCh))
              && trace == if sends then old(trace) + [(old(Plant()), ChargeLevel(Quantize(level)))] else old(trace)
    {
      QuantizeProperties(level, level);
      var quantized := Quantize(level);
      if quantized != prevCh {
        if quantized > 0.0 {
          if onoff {
            trace := trace + [(Plant(), ChargeLevel(quantized))];
            sentCh := quantized;
          }
        } else {
          trace := trace + [(Plant(), ChargeLevel(0.0))];
          sentCh := 0.0;
        }
      }
      curCh := quantized;
      prevCh := quantized;
    }

    method SetDischargingLevel(level: real)
      requires level >= 0.0
      modifies this`curDis, this`prevDis, this`sentDis, this`trace
      ensures curDis == prevDis == Quantize(level) >= 0.0
      ensures var sends := Quantize(level) != old(prevDis) && (Quantize(level) > 0.0 ==> onoff);
              && sentDis == (if sends then Quantize(level) else old(sentDis))
              && trace == if sends then old(trace) + [(old(Plant()), DischargeLevel(Quantize(level)))] else old(trace)
    {
      QuantizeProperties(level, level);
      var quantized := Quantize(level);
      if quantized != prevDis {
        if quantized > 0.0 {
          if onoff {
            trace := trace + [(Plant(), DischargeLevel(quantized))];
            sentDis := quantized;
          }
        } else {
          trace := trace + [(Plant(), DischargeLevel(0.0))];
          sentDis := 0.0;
        }
      }
      curDis := quantized;
      prevDis := quantized;
    }

    /** The same where the remembered level is the one sent last and the switches are as they should be. */
    method DriveCharge(level: real)
      requires TraceSafe() && level >= 0.0 && prevCh == sentCh
      requires Quantize(level) > 0.0 ==> onoff && chargeSide
      modifies this`curCh, this`prevCh, this`sentCh, this`trace
      ensures TraceSafe() && curCh == prevCh == sentCh == Quantize(level) && sentCh >= 0.0
      ensures Adds(old(trace), trace, 0, if sentCh != old(sentCh) && sentCh > 0.0 && sentDis > 0.0 then 1 else 0)
    {
      hide Quantize, Flips, Raises;
      CountAppend(trace, Plant(), ChargeLevel(Quantize(level)));
      SetChargingLevel(level);
    }

    method DriveDischarge(level: real)
      requires TraceSafe() && level >= 0.0 && prevDis == sentDis
      requires Quantize(level) > 0.0 ==> onoff && !chargeSide
      modifies this`curDis, this`prevDis, this`sentDis, this`trace
      ensures TraceSafe() && curDis == prevDis == sentDis == Quantize(level) && sentDis >= 0.0
      ensures Adds(old(trace), trace, 0, if sentDis != old(sentDis) && sentDis > 0.0 && sentCh > 0.0 then 1 else 0)
    {
      hide Quantize, Flips, Raises;
      CountAppend(trace, Plant(), DischargeLevel(Quantize(level)));
      SetDischargingLevel(level);
    }

    method ZeroLevels()
      requires TraceSafe() && prevCh == sentCh && prevDis == sentDis
      modifies this`curCh, this`prevCh, this`sentCh, this`curDis, this`prevDis, this`sentDis, this`trace
      ensures TraceSafe() && curCh == prevCh == sentCh == 0.0 && curDis == prevDis == sentDis == 0.0
      ensures Adds(old(trace), trace, 0, 0)
    {
      hide Quantize, Safe, Flips, Raises;
      ZeroStaysZero();
      DriveCharge(0.0);
      DriveDischarge(0.0);
    }

    /** Levels to 0 first, then the power. */
    method ShutDown()
      requires TraceSafe() && prevCh == sentCh && prevDis == sentDis
      modifies this`curCh, this`prevCh, this`sentCh, this`curDis, this`prevDis, this`sentDis, this`trace, this`onoff,
               this`onoffFlag
      ensures TraceSafe() && curCh == prevCh == sentCh == 0.0 && curDis == prevDis == sentDis == 0.0 && !onoff
      ensures Adds(old(trace), trace, 0, 0)
    {
      hide Safe, Flips, Raises;
      ZeroLevels();
      onoffFlag := false;
      SwitchPower(false);
    }

    static lemma ZeroStaysZero()
      ensures Quantize(0.0) == 0.0
    {
      assert (0.0 * 1000.0 + 0.5).Floor == 0;
    }

    // ----------------------------------------------------------------------------------------------------------------
    // Parts of pid_update
    // ----------------------------------------------------------------------------------------------------------------

    function CurrentThresholds(): Thresholds
      reads this`battery, this`user
    {
      ThresholdsFor(battery, minCurCh, minCurDis, user.selfConsumption, user.deltaCh, user.deltaDis)
    }

    /** The level of the running direction is no more than its minimum plus `margin`. */
    predicate AtMin(margin: real)
      reads this`mode, this`curCh, this`curDis, this`user
    {
      (mode == CHARGE ==> curCh <= user.minCh + margin) && (mode == DISCHARGE ==> curDis <= user.minDis + margin)
    }

    /** `current_deadband_` for an active controller. */
    predicate InDeadband(epsi: real, t: Thresholds)
      reads this`mode, this`curCh, this`curDis, this`user
    {
      RawDeadband(epsi, t) && curCh <= user.minCh && curDis <= user.minDis && AtMin(0.0)
    }

    /** The activation has just been switched on. */
    method ActivationEdge()
      requires Levels() && (!prevActivation ==> mode == IDLE) && newMode == mode
      modifies this`prevError, this`integral, this`prevOutput, this`output, this`mode, this`newMode,
               this`prevActivation
      ensures mode == old(mode) && newMode == mode && prevActivation == user.activation
      ensures user.activation && !old(prevActivation) ==>
                integral == 0.0 && output == prevOutput == if error > 0.0 then neutral + ub else neutral - lb
      ensures !user.activation || old(prevActivation) ==>
                unchanged(`integral) && unchanged(`prevOutput) && unchanged(`prevError) && unchanged(`output)
    {
      if user.activation && !prevActivation {
        prevError := error;
        integral := 0.0;
        if error > 0.0 {
          prevOutput := neutral + ub;
          output := neutral + ub;
        } else {
          prevOutput := neutral - lb;
          output := neutral - lb;
        }
        mode := IDLE;
        newMode := IDLE;
      }
      prevActivation := user.activation;
    }

    lemma LevelsAreSent()
      requires Levels()
      ensures prevCh == sentCh && prevDis == sentDis
    {
    }

    lemma NoneLoaded(before: seq<(Converter, Command)>, side: bool, ch: real, dis: real)
      requires Adds(before, trace, 0, 0) && mode == IDLE
      ensures Driven(before, side, ch, dis)
    {
    }

    lemma AllOff()
      requires curCh == prevCh == sentCh == 0.0 && curDis == prevDis == sentDis == 0.0 && !onoff && mode == IDLE
      ensures Levels() && SwitchesAgree() && LevelsAsWanted()
    {
    }

    /** The activation is off: levels to 0 first, then the power. */
    method Deactivate(now: u32)
      requires Levels() && TraceSafe()
      modifies this`curCh, this`prevCh, this`sentCh, this`curDis, this`prevDis, this`sentDis, this`trace, this`onoff,
               this`output, this`prevOutput, this`mode, this`newMode, this`onoffFlag, this`deadband, this`passThrough,
               this`deadbandStart, this`idleStart, this`lastTime, this`prevError
      ensures Levels() && TraceSafe() && SwitchesAgree() && LevelsAsWanted()
      ensures mode == newMode == IDLE && output == neutral && prevError == error &&
              !passThrough && idleStart == 0
      ensures Driven(old(trace), old(chargeSide), old(sentCh), old(sentDis)) && deadbandStart == 0 && lastTime == now
    {
      hide TraceSafe, Adds, Levels, SwitchesAgree, LevelsAsWanted, Driven;
      LevelsAreSent();
      ghost var before, side, ch, dis := trace, chargeSide, sentCh, sentDis;
      ShutDown();
      output := neutral;
      prevOutput := neutral;
      mode := IDLE;
      newMode := IDLE;
      deadband := false;
      passThrough := false;
      deadbandStart := 0;
      idleStart := 0;
      lastTime := now;
      prevError := error;
      AllOff();
      NoneLoaded(before, side, ch, dis);
    }

    /** The hysteresis of the undervoltage protection. */
    method UpdateLockout()
      requires lockout == Latch(readings)
      modifies this`lockout, this`readings
      ensures lockout == Latch(readings)
      ensures readings == if battery.None? then old(readings)
                          else old(readings) + [Reading(battery.value, user.stopV, user.startV)]
    {
      if battery.Some? {
        if battery.value < user.stopV {
          lockout := true;
        } else if battery.value >= user.startV {
          lockout := false;
        }
        ghost var r := Reading(battery.value, user.stopV, user.startV);
        readings := readings + [r];
        assert readings[..|readings| - 1] == old(readings);
      }
    }

    /** Idle, and the power lies between the stop thresholds. */
    method StayIdle(now: u32)
      requires Levels() && TraceSafe() && mode == IDLE
      modifies this`curCh, this`prevCh, this`sentCh, this`curDis, this`prevDis, this`sentDis, this`trace, this`onoff,
               this`passThrough, this`deadbandStart, this`lastTime, this`prevError
      ensures Levels() && TraceSafe() && SwitchesAgree() && Adds(old(trace), trace, 0, 0) && deadbandStart == 0
      ensures lastTime == now && prevError == error && !passThrough
    {
      hide Quantize, Safe, Flips, Raises;
      passThrough := false;
      deadbandStart := 0;
      SwitchPower(false);
      ZeroLevels();
      lastTime := now;
      prevError := error;
    }

    // ----------------------------------------------------------------------------------------------------------------
    // Regulation
    // ----------------------------------------------------------------------------------------------------------------

    predicate InStartup(now: u32)
      reads this`modeStart
    {
      Sub32(now, modeStart) < STARTUP_INHIBIT_MS
    }

    /** Bounds of the output in the running mode. */
    function OutputBounds(): (real, real)
      reads this`mode, this`user
    {
      if mode == CHARGE then ((1.0 - user.maxCh) * neutral, (1.0 - user.minCh) * neutral)
      else (user.minDis * neutral + neutral, user.maxDis * neutral + neutral)
    }

    /** Where a running mode starts. */
    function Landing(m: Mode): real {
      if m == CHARGE then neutral - lb else neutral + ub
    }

    /** The error has changed by more than the threshold, and the last such change that counted is long enough ago. */
    predicate Triggers(now: u32, e: real)
      reads this`user, this`prevError, this`lastFf
    {
      user.feedforward && Abs(e - prevError) > user.ffThreshold && Sub32(now, lastFf) >= DELAY_FEEDFORWARD
    }

    /** The feed-forward jump of this update, 0 when there is none. */
    function JumpAt(now: u32, e: real): real
      reads this`user, this`prevError, this`lastFf, this`modeStart
    {
      if Triggers(now, e) && !InStartup(now) && Abs(Jump(e - prevError)) > 0.001 then Jump(e - prevError) else 0.0
    }

    lemma SpacedTrigger(now: u32, e: real)
      ensures Triggers(now, e) ==> Sub32(now, lastFf) >= DELAY_FEEDFORWARD
    {
    }

    /** The part of the output that a gain makes of a value. */
    static function Part(gain: real, x: real): real {
      COEFF * gain * x
    }

    /** The PID formula for the error `e` on what is stored: proportional and integral part over the neutral point,
        or over the output of the last update. A jump takes the place of the error; with standard regulation and
        some integral gain it moves the output by just itself. */
    function RawOutput(jump: real, dt: real, e: real): real
      reads this`user, this`integral, this`prevOutput
    {
      var base := if user.pidMode then neutral else prevOutput;
      if jump == 0.0 then base + Part(user.kp, e) + Part(user.ki, integral + e * dt)
      else if !user.pidMode then Clamp(base + jump, 0.0, 1.0) + Part(user.ki, integral)
      else if user.ki > 0.0001 then base + Part(user.ki, integral) + jump
      else base + Part(user.ki, integral)
    }

    /** Output and integral after regulation for the error `e`. What the error adds to the integral is taken back
        when it pushes further into saturation; the start-up freezes both. */
    function Regulated(now: u32, dt: real, e: real): (real, real)
      reads this`user, this`integral, this`prevOutput, this`prevError, this`lastFf, this`modeStart, this`mode
    {
      if InStartup(now) then (Landing(mode), 0.0)
      else
        var jump := JumpAt(now, e);
        var raw, push := RawOutput(jump, dt, e), if jump == 0.0 then e * dt else 0.0;
        var (lo, hi) := OutputBounds();
        (Clamp(raw, lo, hi),
         integral + FromJump(jump) + if (raw < lo && push < 0.0) || (raw > hi && push > 0.0) then 0.0 else push)
    }

    method FeedForward(now: u32) returns (jump: real)
      modifies this`lastFf
      ensures jump == old(JumpAt(now, error)) && lastFf == if old(Triggers(now, error)) then now else old(lastFf)
    {
      hide Jump;
      jump := 0.0;
      if user.feedforward {
        var inStartup := InStartup(now);
        var delta := error - prevError;
        if Abs(delta) > user.ffThreshold {
          var pending := CalculateFfJump(delta);
          if !(Sub32(now, lastFf) < DELAY_FEEDFORWARD) {
            lastFf := now;
            if !inStartup && Abs(pending) > 0.001 {
              jump := pending;
            }
          }
        }
      }
    }

    static function JumpToIntegral(jump: real, ki: real): real
      requires ki > 0.0001
    {
      jump / (COEFF * ki)
    }

    static lemma NoPart(gain: real)
      ensures Part(gain, 0.0) == 0.0
    {
    }

    /** What a jump adds to the integral moves the output by the jump. */
    static lemma JumpMovesOutput(jump: real, ki: real, integral: real)
      requires ki > 0.0001
      ensures Part(ki, integral + JumpToIntegral(jump, ki)) == Part(ki, integral) + jump
    {
      var g := COEFF * ki;
      assert g > 0.0;
      Quotient(jump, g);
      assert g * (integral + jump / g) == g * integral + (jump / g) * g;
    }

    /** What a jump adds to the integral of standard regulation. */
    function FromJump(jump: real): real
      reads this`user
    {
      if jump != 0.0 && user.pidMode && user.ki > 0.0001 then JumpToIntegral(jump, user.ki) else 0.0
    }

    /** Integral and raw output of a PID step; a feed-forward jump takes the place of the error in it. */
    method Integrate(now: u32, dt: real) returns (step: real, rawOutput: real)
      modifies this`lastFf, this`integral, this`prevError
      ensures lastFf == if old(Triggers(now, error)) then now else old(lastFf)
      ensures var jump := old(JumpAt(now, error));
              && step == (if jump == 0.0 then error * dt else 0.0)
              && integral == old(integral) + step + FromJump(jump)
              && rawOutput == old(RawOutput(jump, dt, error))
    {
      hide Jump, Clamp, Abs, JumpToIntegral, JumpAt, Triggers, Part;
      NoPart(user.kp);
      var jump := FeedForward(now);
      ghost var raw := RawOutput(jump, dt, error);
      var errorForPid := error;
      step := error * dt;
      if jump != 0.0 {
        step := 0.0;
        errorForPid := 0.0;
      }
      integral := integral + step;
      var base := if user.pidMode then neutral else prevOutput;
      if jump != 0.0 {
        if user.pidMode {
          if user.ki > 0.0001 {
            JumpMovesOutput(jump, user.ki, integral);
            integral := integral + JumpToIntegral(jump, user.ki);
          }
        } else {
          base := Clamp(base + jump, 0.0, 1.0);
        }
        prevError := error;
      }
      rawOutput := base + Part(user.kp, errorForPid) + Part(user.ki, integral);
      assert rawOutput == raw;
    }

    lemma DemandMeans(jump: real, dt: real, e: real)
      ensures RawOutput(jump, dt, e) ==
              Demand(user, if user.pidMode then 0.5 else prevOutput, integral, e, dt, jump)
    {
      Gains(user.kp, e, user.ki, integral + e * dt);
      Gains(user.kp, e, user.ki, integral);
    }

    /** A jump adds to the integral what moves the output by it. */
    lemma FromJumpMeans(jump: real)
      ensures user.pidMode && user.ki > 0.0001 && jump != 0.0 ==> 0.00001 * (user.ki * FromJump(jump)) == jump
    {
      if jump != 0.0 && user.pidMode && user.ki > 0.0001 {
        JumpMovesOutput(jump, user.ki, 0.0);
        NoPart(user.ki);
        Gains(0.0, 0.0, user.ki, FromJump(jump));
      }
    }

    /** Regulation in closed form. */
    lemma RegulatedMeans(now: u32, dt: real, e: real)
      requires mode != IDLE && !InStartup(now)
      ensures var (o, i), jump := Regulated(now, dt, e), JumpAt(now, e);
              var lo, hi := Lowest(user, mode), Highest(user, mode);
              var demand := Demand(user, if user.pidMode then 0.5 else prevOutput, integral, e, dt, jump);
              && o == Min(Max(demand, lo), hi)
              && SampleOk(Sample(e, dt, jump, demand, lo, hi, user.pidMode, user.ki, i - integral))
    {
      hide JumpAt, Demand, RawOutput;
      DemandMeans(JumpAt(now, e), dt, e);
      FromJumpMeans(JumpAt(now, e));
      hide JumpToIntegral;
    }

    /** A jump: with feed-forward, after 4 s without one and 8 s of the direction, for a change of the error beyond the
        threshold. */
    lemma JumpAtMeans(now: u32, e: real)
      ensures JumpAt(now, e) != 0.0 <==>
              && user.feedforward && (e - prevError > user.ffThreshold || prevError - e > user.ffThreshold)
              && Sub32(now, lastFf) >= 4000 && Sub32(now, modeStart) >= 8000
              && (Jump(e - prevError) > 0.001 || Jump(e - prevError) < -0.001)
      ensures JumpAt(now, e) != 0.0 ==> JumpAt(now, e) == Jump(e - prevError)
    {
    }

    /** In charge the output asks for no discharge, in discharge for no charge. */
    ghost predicate OnItsSide()
      reads this`mode, this`output
    {
      if mode == CHARGE then output <= neutral else output >= neutral
    }

    lemma BoundsOnSide(x: real)
      requires mode != IDLE && GoodSettings(user)
      ensures var (lo, hi) := OutputBounds();
              if mode == CHARGE then Clamp(x, lo, hi) <= neutral else Clamp(x, lo, hi) >= neutral
    {
    }

    /** The PID step of a running mode: the PID formula between the bounds of the mode. What the error adds to the
        integral is taken back when it pushes further into saturation. */
    method Regulate(now: u32, dt: real)
      requires mode != IDLE && GoodSettings(user)
      modifies this`lastFf, this`integral, this`output, this`prevOutput, this`prevError
      ensures (output, integral) == old(Regulated(now, dt, error)) && OnItsSide()
      ensures lastFf == if old(Triggers(now, error)) then now else old(lastFf)
      ensures InStartup(now) ==> prevOutput == output && prevError == error
    {
      hide JumpAt, Triggers, RawOutput, FromJump, Clamp;
      var step, rawOutput := Integrate(now, dt);
      var (lo, hi) := OutputBounds();
      if rawOutput < lo && step < 0.0 {
        integral := integral - step;
      } else if rawOutput > hi && step > 0.0 {
        integral := integral - step;
      }
      output := Clamp(rawOutput, lo, hi);
      BoundsOnSide(rawOutput);
      if InStartup(now) {
        output := Landing(mode);
        integral := 0.0;
        prevOutput := Landing(mode);
        prevError := error;
      }
    }

    // ----------------------------------------------------------------------------------------------------------------
    // Mode
    // ----------------------------------------------------------------------------------------------------------------

    function SituationAt(epsi: real, t: Thresholds, now: u32): Situation
      reads this
    {
      Situation(epsi, t, user.allowCharging, Gate(), deadband, AtMin(0.01),
                if mode == CHARGE then output > neutral + ub else output < neutral - lb, InStartup(now))
    }

    /** What an update decides, with the gate of discharging and the deadband as it finds them. Regulation keeps the
        output on the side of its mode, so that the output itself never reverses the direction. */
    function NextDecision(epsi: real, t: Thresholds, gateDis: bool, dead: bool, now: u32): Decision
      reads this`mode, this`curCh, this`curDis, this`user, this`modeStart, this`passThrough, this`deadbandStart
    {
      if mode == IDLE && dead then Decision(IDLE, false, 0)
      else
        Decide(mode, Situation(epsi, t, user.allowCharging, gateDis, dead, AtMin(0.01), false, InStartup(now)),
               passThrough, deadbandStart, now)
    }

    /** The state machine: the mode wanted next. */
    method DecideMode(epsi: real, t: Thresholds, now: u32)
      modifies this`newMode, this`passThrough, this`deadbandStart
      ensures Decision(newMode, passThrough, deadbandStart) ==
              Decide(mode, old(SituationAt(epsi, t, now)), old(passThrough), old(deadbandStart), now)
    {
      hide Below, Above;
      var inStartup := InStartup(now);
      newMode := mode;
      if mode == IDLE {
        if Below(epsi, t.startCh) && user.allowCharging {
          newMode := CHARGE;
        } else if Above(epsi, t.startDis) && Gate() {
          newMode := DISCHARGE;
        }
      } else if mode == CHARGE {
        if !user.allowCharging {
          StopRunning();
        } else if output > neutral + ub && Gate() {
          Reverse(DISCHARGE);
        } else if deadband && curCh <= user.minCh + 0.01 && !inStartup {
          ConfirmDeadband(now);
        } else if !inStartup && curCh <= user.minCh + 0.01 && Above(epsi, t.startDis) && Gate() {
          Reverse(DISCHARGE);
        } else {
          deadbandStart := 0;
        }
      } else {
        if !Gate() {
          StopRunning();
        } else if output < neutral - lb && user.allowCharging {
          Reverse(CHARGE);
        } else if deadband && curDis <= user.minDis + 0.01 && !inStartup {
          ConfirmDeadband(now);
        } else if !inStartup && curDis <= user.minDis + 0.01 && Below(epsi, t.startCh) && user.allowCharging {
          Reverse(CHARGE);
        } else {
          deadbandStart := 0;
        }
      }
    }

    method StopRunning()
      modifies this`newMode, this`passThrough, this`deadbandStart
      ensures newMode == IDLE && !passThrough && deadbandStart == 0
    {
      newMode := IDLE;
      passThrough := false;
      deadbandStart := 0;
    }

    method Reverse(other: Mode)
      modifies this`newMode, this`passThrough, this`deadbandStart
      ensures newMode == other && passThrough && deadbandStart == 0
    {
      newMode := other;
      passThrough := true;
      deadbandStart := 0;
    }

    method ConfirmDeadband(now: u32)
      modifies this`newMode, this`passThrough, this`deadbandStart
      ensures var start := if old(deadbandStart) == 0 then now else old(deadbandStart);
              if Sub32(now, start) >= DEADBAND_CONFIRM_MS then newMode == IDLE && !passThrough && deadbandStart == 0
              else newMode == old(newMode) && passThrough == old(passThrough) && deadbandStart == start
    {
      if deadbandStart == 0 {
        deadbandStart := now;
      }
      if Sub32(now, deadbandStart) >= DEADBAND_CONFIRM_MS {
        newMode := IDLE;
        passThrough := false;
        deadbandStart := 0;
      }
    }

    /** A direction begins; after a short pause, or when reversing, without the start-up freeze. */
    method EnterRunning(now: u32)
      requires newMode != IDLE
      modifies this`prevOutput, this`output, this`integral, this`modeStart, this`passThrough, this`idleStart, this`mode
      ensures mode == newMode && output == prevOutput == Landing(newMode) && integral == 0.0 && !passThrough
      ensures idleStart == 0
      ensures modeStart == if old(passThrough) || (old(idleStart) > 0 && Sub32(now, old(idleStart)) < STANDBY_GRACE_MS)
                           then old(modeStart) else now
    {
      prevOutput := Landing(newMode);
      output := Landing(newMode);
      integral := 0.0;
      if !passThrough {
        var warm := idleStart > 0 && Sub32(now, idleStart) < STANDBY_GRACE_MS;
        if !warm {
          modeStart := now;
        }
      }
      passThrough := false;
      idleStart := 0;
      mode := newMode;
    }

    /** A direction ends: levels to 0 first, then the power. */
    method EnterIdle(now: u32)
      requires Levels() && TraceSafe() && newMode == IDLE
      modifies this`prevOutput, this`output, this`integral, this`curCh, this`prevCh, this`sentCh, this`curDis,
               this`prevDis, this`sentDis, this`trace, this`passThrough, this`onoffFlag, this`idleStart, this`onoff,
               this`mode, this`lastTime, this`prevError
      ensures Levels() && TraceSafe() && SwitchesAgree() && mode == IDLE && output == neutral && integral == 0.0
      ensures Adds(old(trace), trace, 0, 0)
      ensures idleStart == lastTime == now && prevError == error && !passThrough
    {
      hide TraceSafe, Adds, Levels, SwitchesAgree, LevelsAsWanted;
      LevelsAreSent();
      prevOutput := neutral;
      output := neutral;
      integral := 0.0;
      passThrough := false;
      idleStart := now;
      ShutDown();
      mode := newMode;
      lastTime := now;
      prevError := error;
      AllOff();
    }

    // ----------------------------------------------------------------------------------------------------------------
    // Actuators
    // ----------------------------------------------------------------------------------------------------------------

    /** The level the running mode asks for. */
    function WantedLevel(): real
      reads this`mode, this`output, this`user
    {
      if mode == CHARGE then Clamp(OToOc(output, neutral), user.minCh, user.maxCh)
      else Clamp(OToOd(output, neutral), user.minDis, user.maxDis)
    }

    /** As `Levels`, while the mode may have changed since the levels were sent. */
    ghost predicate Levels0()
      reads this`prevCh, this`sentCh, this`prevDis, this`sentDis, this`mode
    {
      prevCh == sentCh >= 0.0 && prevDis == sentDis >= 0.0 && (sentCh == 0.0 || sentDis == 0.0) &&
      (mode == IDLE ==> sentCh == 0.0 && sentDis == 0.0)
    }

    /** The direction switch, at `side` so far, has to be turned for the mode, and one of the given levels is up. */
    ghost predicate TurnsLoaded(side: bool, ch: real, dis: real)
      reads this`mode, this`deadband
    {
      mode != IDLE && !deadband && side != (mode == CHARGE) && (ch > 0.0 || dis > 0.0)
    }

    /** The level of the mode is up, and the other one was at the given levels. */
    ghost predicate RisesAgainst(ch: real, dis: real)
      reads this`mode, this`sentCh, this`sentDis
    {
      (mode == CHARGE && dis > 0.0 && sentCh > 0.0) || (mode == DISCHARGE && ch > 0.0 && sentDis > 0.0)
    }

    /** The commands given since `before` turn the switch under load and raise a level against the other as often as the
        earlier positions make it necessary. */
    ghost predicate Driven(before: seq<(Converter, Command)>, side: bool, ch: real, dis: real)
      reads this`trace, this`mode, this`deadband, this`sentCh, this`sentDis
    {
      Adds(before, trace, Count(TurnsLoaded(side, ch, dis)), Count(RisesAgainst(ch, dis)))
    }

    /** Power first, then the direction. */
    method DriveSwitches()
      requires TraceSafe() && Levels0()
      requires mode == CHARGE ==> user.allowCharging
      requires mode == DISCHARGE ==> Gate()
      modifies this`trace, this`onoff, this`chargeSide
      ensures TraceSafe() && onoff == (mode != IDLE)
      ensures !deadband && mode != IDLE ==> chargeSide == (mode == CHARGE)
      ensures Adds(old(trace), trace, Count(TurnsLoaded(old(chargeSide), sentCh, sentDis)), 0)
    {
      hide Quantize, Latch, Safe, Flips, Raises;
      if mode != IDLE {
        SwitchPower(true);
      } else {
        SwitchPower(false);
      }
      if !deadband {
        if mode == CHARGE && user.allowCharging {
          SwitchDirection(true);
        } else if mode == DISCHARGE && Gate() {
          SwitchDirection(false);
        }
      }
    }

    method DriveLevels()
      requires TraceSafe() && Levels0() && curCh >= 0.0 && curDis >= 0.0 && onoff == (mode != IDLE)
      requires !deadband && mode != IDLE ==> chargeSide == (mode == CHARGE)
      requires mode == CHARGE ==> user.allowCharging
      requires mode == DISCHARGE ==> Gate()
      modifies this`curCh, this`prevCh, this`sentCh, this`curDis, this`prevDis, this`sentDis, this`trace
      ensures TraceSafe() && curCh == prevCh == sentCh && curDis == prevDis == sentDis
      ensures sentCh == if mode == CHARGE && !deadband then Quantize(old(curCh)) else 0.0
      ensures sentDis == if mode == DISCHARGE && !deadband then Quantize(old(curDis)) else 0.0
      ensures sentCh >= 0.0 && sentDis >= 0.0
      ensures Adds(old(trace), trace, 0, Count(RisesAgainst(old(sentCh), old(sentDis))))
    {
      hide Quantize, Latch, Safe, Flips, Raises;
      ZeroStaysZero();
      if mode == IDLE || deadband {
        DriveCharge(0.0);
        DriveDischarge(0.0);
      } else if mode == CHARGE && user.allowCharging {
        DriveCharge(curCh);
        DriveDischarge(0.0);
      } else if mode == DISCHARGE && Gate() {
        DriveDischarge(curDis);
        DriveCharge(0.0);
      }
    }

    /** Power first, then the direction, then the levels. */
    method Actuate()
      requires GoodSettings(user) && Levels0() && TraceSafe()
      requires mode == CHARGE ==> user.allowCharging
      requires mode == DISCHARGE ==> Gate()
      modifies this`curCh, this`prevCh, this`sentCh, this`curDis, this`prevDis, this`sentDis, this`trace, this`onoff,
               this`chargeSide, this`onoffFlag
      ensures Levels() && TraceSafe() && SwitchesAgree() && onoff == (mode != IDLE)
      ensures LevelsAsWanted()
      ensures Driven(old(trace), old(chargeSide), old(sentCh), old(sentDis))
    {
      hide Quantize, OToOc, OToOd, Clamp, Latch, Safe, Flips, Raises;
      ComputeLevels();
      DriveSwitches();
      DriveLevels();
    }

    method ComputeLevels()
      requires GoodSettings(user)
      modifies this`curCh, this`curDis, this`onoffFlag
      ensures curCh == (if mode == CHARGE then WantedLevel() else 0.0) && curCh >= 0.0
      ensures curDis == (if mode == DISCHARGE then WantedLevel() else 0.0) && curDis >= 0.0
      ensures onoffFlag == (mode != IDLE)
    {
      if mode == IDLE {
        curCh := 0.0;
        curDis := 0.0;
        onoffFlag := false;
      } else if mode == CHARGE {
        curCh := OToOc(output, neutral);
        curCh := Min(Max(curCh, user.minCh), user.maxCh);
        curDis := 0.0;
        onoffFlag := true;
      } else {
        curCh := 0.0;
        curDis := OToOd(output, neutral);
        curDis := Min(Max(curDis, user.minDis), user.maxDis);
        onoffFlag := true;
      }
    }

    // ----------------------------------------------------------------------------------------------------------------
    // pid_update
    // ----------------------------------------------------------------------------------------------------------------

    /** What the level outputs get at the end of an update. */
    ghost predicate LevelsAsWanted()
      reads this`mode, this`user, this`lockout, this`sentCh, this`sentDis, this`deadband, this`output
    {
      (mode == CHARGE ==> user.allowCharging && sentCh == if deadband then 0.0 else Quantize(WantedLevel())) &&
      (mode == DISCHARGE ==> Gate() && sentDis == if deadband then 0.0 else Quantize(WantedLevel()))
    }

    /** The mode an idle controller is in after an update. */
    function ModeFromIdle(): Mode
      reads this`user, this`input, this`battery, this`lockout
    {
      var epsi, t := input - user.setpoint, CurrentThresholds();
      if RawDeadband(epsi, t) then IDLE else StartMode(epsi, t, user.allowCharging, Gate())
    }

    /** The start of a direction: frozen anew, unless it follows another direction or a short pause. */
    ghost predicate StartNoted(was: Mode, start: u32, idle: u32, now: u32)
      reads this`mode, this`modeStart, this`idleStart, this`passThrough, this`user
    {
      && !passThrough
      && modeStart == (if mode != was && was == IDLE && !(idle > 0 && Sub32(now, idle) < 25000) then now else start)
      && idleStart == (if !user.activation || (mode != was && mode != IDLE) then 0
                       else if mode != was then now else idle)
    }

    /** The state machine, and the start or the end of a direction. Returns false when the controller has gone idle and
        the update is over. */
    method ChangeMode(epsi: real, t: Thresholds, now: u32) returns (goOn: bool)
      requires Levels() && TraceSafe() && !passThrough && user.activation
      modifies this`newMode, this`passThrough, this`deadbandStart, this`prevOutput, this`output, this`integral,
               this`modeStart, this`idleStart, this`mode, this`curCh, this`prevCh, this`sentCh, this`curDis,
               this`prevDis, this`sentDis, this`trace, this`onoffFlag, this`onoff, this`lastTime, this`prevError
      ensures TraceSafe() && newMode == mode
      ensures var d := old(Decide(mode, SituationAt(epsi, t, now), passThrough, deadbandStart, now));
              mode == d.mode && deadbandStart == d.deadbandStart
      ensures (mode == CHARGE ==> user.allowCharging) && (mode == DISCHARGE ==> Gate())
      ensures StartNoted(old(mode), old(modeStart), old(idleStart), now)
      ensures mode != old(mode) && mode != IDLE ==> output == Landing(mode) && integral == 0.0
      ensures mode == old(mode) ==> output == old(output) && integral == old(integral)
      ensures goOn ==> Levels0() && unchanged(`trace) && unchanged(`sentCh) && unchanged(`sentDis)
      ensures !goOn ==> lastTime == now && prevError == error && mode == IDLE && Levels() && SwitchesAgree() &&
                        LevelsAsWanted() && Driven(old(trace), old(chargeSide), old(sentCh), old(sentDis))
    {
      hide Quantize, OToOc, OToOd, Clamp, Latch, Safe, Decide, Adds;
      DecisionIsAllowed(mode, SituationAt(epsi, t, now), passThrough, deadbandStart, now);
      PassesThrough(mode, SituationAt(epsi, t, now), passThrough, deadbandStart, now);
      DecideMode(epsi, t, now);
      if newMode == mode {
        return true;
      }
      if newMode == IDLE {
        EnterIdle(now);
        return false;
      }
      EnterRunning(now);
      return true;
    }

    method DecideAndActuate(epsi: real, t: Thresholds, now: u32)
      requires !passThrough && user.activation && GoodSettings(user) && Levels() && TraceSafe()
      modifies this`newMode, this`passThrough, this`deadbandStart, this`prevOutput, this`output, this`integral,
               this`modeStart, this`idleStart, this`mode, this`curCh, this`prevCh, this`sentCh, this`curDis,
               this`prevDis, this`sentDis, this`trace, this`onoffFlag, this`onoff, this`chargeSide, this`lastTime,
               this`prevError
      ensures Levels() && TraceSafe() && newMode == mode && SwitchesAgree() && LevelsAsWanted()
      ensures var d := old(Decide(mode, SituationAt(epsi, t, now), passThrough, deadbandStart, now));
              mode == d.mode && deadbandStart == d.deadbandStart
      ensures StartNoted(old(mode), old(modeStart), old(idleStart), now) && lastTime == now && prevError == error
      ensures mode != old(mode) && mode != IDLE ==> output == Landing(mode) && integral == 0.0
      ensures mode == old(mode) ==> output == old(output) && integral == old(integral)
      ensures mode != IDLE ==> prevOutput == output
      ensures Driven(old(trace), old(chargeSide), old(sentCh), old(sentDis))
    {
      hide Quantize, OToOc, OToOd, Clamp, Latch, Safe, Decide, Adds, SituationAt, WantedLevel, TraceSafe,
        Driven, LevelsAsWanted, Levels, Levels0, SwitchesAgree, Gate;
      var goOn := ChangeMode(epsi, t, now);
      if goOn {
        Actuate();
        EndUpdate(now);
      }
    }

    method EndUpdate(now: u32)
      modifies this`lastTime, this`prevError, this`prevOutput
      ensures lastTime == now && prevError == error && prevOutput == output
    {
      lastTime := now;
      prevError := error;
      prevOutput := output;
    }

    /** Regulation in a running mode, then the state machine. */
    method RegulateAndDecide(epsi: real, t: Thresholds, dt: real, now: u32)
      requires !passThrough && user.activation && GoodSettings(user) && Levels() && TraceSafe()
      requires mode == IDLE ==> !deadband
      modifies this`newMode, this`passThrough, this`deadbandStart, this`prevOutput, this`output, this`integral,
               this`modeStart, this`idleStart, this`mode, this`curCh, this`prevCh, this`sentCh, this`curDis,
               this`prevDis, this`sentDis, this`trace, this`onoffFlag, this`onoff, this`chargeSide, this`lastTime,
               this`prevError, this`lastFf
      ensures Levels() && TraceSafe() && newMode == mode && SwitchesAgree() && LevelsAsWanted()
      ensures var d := old(NextDecision(epsi, t, Gate(), deadband, now));
              mode == d.mode && deadbandStart == d.deadbandStart
      ensures StartNoted(old(mode), old(modeStart), old(idleStart), now) && lastTime == now && prevError == error
      ensures mode != old(mode) && mode != IDLE ==> output == Landing(mode) && integral == 0.0
      ensures mode == old(mode) != IDLE ==> (output, integral) == old(Regulated(now, dt, error))
      ensures lastFf == if old(mode != IDLE && Triggers(now, error)) then now else old(lastFf)
      ensures mode != IDLE ==> prevOutput == output
      ensures Driven(old(trace), old(chargeSide), old(sentCh), old(sentDis))
    {
      hide Quantize, OToOc, OToOd, Clamp, Latch, Safe, Adds;
      if mode != IDLE {
        Regulate(now, dt);
      }
      DecideAndActuate(epsi, t, now);
    }

    /** Stay idle, or regulate and decide. */
    method DriveMode(epsi: real, t: Thresholds, dt: real, now: u32)
      requires !passThrough && user.activation && GoodSettings(user) && Levels() && TraceSafe() && newMode == mode
      modifies this`newMode, this`passThrough, this`deadbandStart, this`prevOutput, this`output, this`integral,
               this`modeStart, this`idleStart, this`mode, this`curCh, this`prevCh, this`sentCh, this`curDis,
               this`prevDis, this`sentDis, this`trace, this`onoffFlag, this`onoff, this`chargeSide, this`lastTime,
               this`prevError, this`lastFf
      ensures Levels() && TraceSafe() && newMode == mode && SwitchesAgree() && LevelsAsWanted()
      ensures var d := old(NextDecision(epsi, t, Gate(), deadband, now));
              mode == d.mode && deadbandStart == d.deadbandStart
      ensures StartNoted(old(mode), old(modeStart), old(idleStart), now) && lastTime == now && prevError == error
      ensures mode != old(mode) && mode != IDLE ==> output == Landing(mode) && integral == 0.0
      ensures mode == old(mode) != IDLE ==> (output, integral) == old(Regulated(now, dt, error))
      ensures lastFf == if old(mode != IDLE && Triggers(now, error)) then now else old(lastFf)
      ensures mode != IDLE ==> prevOutput == output
      ensures Driven(old(trace), old(chargeSide), old(sentCh), old(sentDis))
    {
      hide Quantize, OToOc, OToOd, Clamp, Latch, Safe, Decide, Adds;
      if deadband && mode == IDLE {
        StayIdle(now);
      } else {
        RegulateAndDecide(epsi, t, dt, now);
      }
    }

    /** An update of an activated controller, from the undervoltage protection on. */
    method UpdateActive(epsi: real, t: Thresholds, dt: real, now: u32)
      requires !passThrough && user.activation && Sound() && deadband == InDeadband(epsi, t)
      modifies this`newMode, this`passThrough, this`deadbandStart, this`prevOutput, this`output, this`integral,
               this`modeStart, this`idleStart, this`mode, this`curCh, this`prevCh, this`sentCh, this`curDis,
               this`prevDis, this`sentDis, this`trace, this`onoffFlag, this`onoff, this`chargeSide, this`lastTime,
               this`prevError, this`lastFf, this`lockout, this`readings
      ensures Sound() && SwitchesAgree() && LevelsAsWanted() && !passThrough
      ensures readings == if battery.Some? then old(readings) + [Reading(battery.value, user.stopV, user.startV)]
                          else old(readings)
      ensures var gate := Gate();
              var d := old(NextDecision(epsi, t, gate, deadband, now));
              mode == d.mode && deadbandStart == d.deadbandStart
      ensures StartNoted(old(mode), old(modeStart), old(idleStart), now) && lastTime == now && prevError == error
      ensures mode != old(mode) && mode != IDLE ==> output == Landing(mode) && integral == 0.0
      ensures mode == old(mode) != IDLE ==> (output, integral) == old(Regulated(now, dt, error))
      ensures lastFf == if old(mode != IDLE && Triggers(now, error)) then now else old(lastFf)
      ensures mode != IDLE ==> prevOutput == output
      ensures Driven(old(trace), old(chargeSide), old(sentCh), old(sentDis))
    {
      hide Quantize, OToOc, OToOd, Clamp, Latch, Safe, RawDeadband, StartMode, ThresholdsFor, Decide, Adds, Driven,
        NextDecision, Levels, TraceSafe, SwitchesAgree, GoodSettings, InDeadband;
      UpdateLockout();
      DriveMode(epsi, t, dt, now);
    }

    /** A second sample in the same millisecond. */
    method SkipSample(now: u32)
      requires Valid()
      modifies this`error, this`lastTime, this`prevCh, this`prevDis
      ensures Valid() && lastTime == now
    {
      hide Latch, Safe, StartShown, InOrder;
      error := input - user.setpoint;
      lastTime := now;
      prevCh := curCh;
      prevDis := curDis;
    }

    /** Error, activation edge and deadband of a sample. */
    method Prepare(epsi: real, t: Thresholds)
      requires Consistent()
      modifies this`error, this`prevError, this`integral, this`prevOutput, this`output, this`mode, this`newMode,
               this`prevActivation, this`deadband
      ensures Sound() && mode == old(mode) && prevActivation == user.activation && error == epsi
      ensures deadband == (user.activation && InDeadband(epsi, t))
      ensures mode != IDLE ==>
                unchanged(`integral) && unchanged(`prevOutput) && unchanged(`prevError) && unchanged(`output)
    {
      hide TraceSafe, Latch, InDeadband;
      error := epsi;
      ActivationEdge();
      deadband := user.activation && InDeadband(epsi, t);
      newMode := mode;
    }

    lemma SoundParts()
      requires Sound()
      ensures GoodSettings(user) && Levels() && TraceSafe() && lockout == Latch(readings)
    {
    }

    lemma SoundAgain()
      requires GoodSettings(user) && Levels() && TraceSafe() && lockout == Latch(readings) && mode == newMode == IDLE
      ensures Sound()
    {
    }

    /** An update of a controller that is not activated. */
    method UpdateInactive(now: u32)
      requires Sound() && !user.activation
      modifies this`curCh, this`prevCh, this`sentCh, this`curDis, this`prevDis, this`sentDis, this`trace, this`onoff,
               this`output, this`prevOutput, this`mode, this`newMode, this`onoffFlag, this`deadband, this`passThrough,
               this`deadbandStart, this`idleStart, this`lastTime, this`prevError
      ensures Sound() && SwitchesAgree() && LevelsAsWanted() && mode == IDLE && deadbandStart == 0
      ensures lastTime == now && prevError == error && !passThrough
      ensures StartNoted(old(mode), old(modeStart), old(idleStart), now)
      ensures Driven(old(trace), old(chargeSide), old(sentCh), old(sentDis))
    {
      hide Sound, SwitchesAgree, LevelsAsWanted, Levels, TraceSafe, Latch, Driven;
      SoundParts();
      Deactivate(now);
      SoundAgain();
    }

    /** What a full update makes of readings, start, regulation and commands. */
    twostate predicate Updated(dt: real, now: u32)
      reads this`user, this`battery, this`input, this`readings, this`deadband, this`mode, this`modeStart,
            this`idleStart, this`passThrough, this`lastTime, this`prevError, this`output, this`integral,
            this`prevOutput, this`trace, this`sentCh, this`sentDis, this`curCh, this`curDis, this`lastFf
    {
      && readings == (if user.activation && battery.Some?
                      then old(readings) + [Reading(battery.value, user.stopV, user.startV)] else old(readings))
      && StartNoted(old(mode), old(modeStart), old(idleStart), now) && lastTime == now
      && prevError == old(input - user.setpoint)
      && (mode != old(mode) && mode != IDLE ==> output == Landing(mode) && integral == 0.0)
      && (mode == old(mode) != IDLE ==> (output, integral) == old(Regulated(now, dt, input - user.setpoint)))
      && (mode != IDLE ==> prevOutput == output)
      && Driven(old(trace), old(chargeSide), old(sentCh), old(sentDis))
    }

    method FullUpdate(dt: real, now: u32)
      requires Consistent()
      modifies this`newMode, this`passThrough, this`deadbandStart, this`prevOutput, this`output, this`integral,
               this`modeStart, this`idleStart, this`mode, this`curCh, this`prevCh, this`sentCh, this`curDis,
               this`prevDis, this`sentDis, this`trace, this`onoffFlag, this`onoff, this`chargeSide, this`lastTime,
               this`prevError, this`lastFf, this`lockout, this`readings, this`error, this`deadband,
               this`prevActivation
      ensures Consistent() && SwitchesAgree() && LevelsAsWanted()
      ensures !user.activation ==> mode == IDLE && deadbandStart == 0
      ensures user.activation ==>
                var gate := Gate();
                var d := old(FullDecision(gate, now));
                mode == d.mode && deadbandStart == d.deadbandStart
      ensures lastFf == if old(user.activation && mode != IDLE && Triggers(now, input - user.setpoint)) then now
                        else old(lastFf)
      ensures user.activation ==> deadband == old(InDeadband(input - user.setpoint, CurrentThresholds()))
      ensures Updated(dt, now)
    {
      hide Quantize, OToOc, OToOd, Clamp, Latch, Safe, RawDeadband, StartMode, ThresholdsFor, Decide, Adds,
        NextDecision, WantedLevel, TraceSafe, Driven, InDeadband, Sound, SwitchesAgree, LevelsAsWanted,
        StartNoted, Triggers, Regulated, Landing, InStartup, CurrentThresholds, Gate;
      var epsi, t := input - user.setpoint, CurrentThresholds();
      Prepare(epsi, t);
      if !user.activation {
        UpdateInactive(now);
      } else {
        UpdateActive(epsi, t, dt, now);
      }
    }

    /** The running converter is in the deadband after start-up, its level at the minimum. */
    ghost predicate Quiet(now: u32)
      reads this`mode, this`curCh, this`curDis, this`user, this`modeStart, this`input, this`battery
    {
      user.activation && mode != IDLE && InDeadband(input - user.setpoint, CurrentThresholds()) && !InStartup(now)
    }

    /** The direction of the mode is one that is allowed. */
    predicate Allowed(m: Mode)
      reads this`user, this`lockout
    {
      (m == CHARGE ==> user.allowCharging) && (m == DISCHARGE ==> Gate())
    }

    /** The decision of a full update on the state before it, for the gate of discharging after it. */
    ghost function FullDecision(gateDis: bool, now: u32): Decision
      reads this`mode, this`curCh, this`curDis, this`user, this`modeStart, this`passThrough, this`deadbandStart,
            this`input, this`battery
    {
      var epsi, t := input - user.setpoint, CurrentThresholds();
      NextDecision(epsi, t, gateDis, InDeadband(epsi, t), now)
    }

    /** The lockout after the update, and the gate of discharging that goes with it. */
    ghost predicate LockoutNext()
      reads this`user, this`battery, this`lockout
    {
      if battery.None? then lockout else LatchStep(lockout, Reading(battery.value, user.stopV, user.startV))
    }

    ghost predicate GateNext()
      reads this`user, this`battery, this`lockout
    {
      user.allowDischarging && !LockoutNext()
    }

    /** The update reverses the direction: its level is down at the minimum, the start-up is over, the error is not
        in the deadband but beyond the start threshold of the other direction, and both are allowed. */
    ghost predicate ReversalDue(gateDis: bool, now: u32)
      reads this`mode, this`curCh, this`curDis, this`user, this`modeStart, this`input, this`battery
    {
      var epsi, t := input - user.setpoint, CurrentThresholds();
      user.activation && mode != IDLE && AtMin(0.01) && !InStartup(now) && !InDeadband(epsi, t) &&
      user.allowCharging && gateDis && if mode == CHARGE then Above(epsi, t.startDis) else Below(epsi, t.startCh)
    }

    lemma NothingDue(gateDis: bool, now: u32)
      ensures !user.activation ==> !ReversalDue(gateDis, now)
    {
    }

    /** How an idle controller starts: beyond the start threshold of an allowed direction, by 2 %, and not between
        the stop thresholds. Without a battery voltage it stays idle. */
    lemma IdleStartMeans()
      ensures battery.None? ==> ModeFromIdle() == IDLE
      ensures battery.Some? ==>
                var e, v := input - user.setpoint, battery.value;
                var stopCh, stopDis := -(v * minCurCh), v * minCurDis + user.selfConsumption;
                var dead := stopCh * 1.02 < e < stopDis * 1.02;
                var charge := user.allowCharging && e < (stopCh - user.deltaCh) * 1.02;
                var discharge := user.allowDischarging && !lockout && e > (stopDis + user.deltaDis) * 1.02;
                ModeFromIdle() ==
                if dead then IDLE else if charge then CHARGE else if discharge then DISCHARGE else IDLE
    {
      assert battery.Some? ==> -battery.value * minCurCh == -(battery.value * minCurCh);
    }

    /** What a quiet update has seen. */
    lemma QuietMeans(now: u32)
      ensures Quiet(now) <==>
              && user.activation && mode != IDLE && Sub32(now, modeStart) >= 8000
              && battery.Some? && curCh <= user.minCh && curDis <= user.minDis
              && -(battery.value * minCurCh) * 1.02 < input - user.setpoint <
                 (battery.value * minCurDis + user.selfConsumption) * 1.02
    {
      assert battery.Some? ==> -battery.value * minCurCh == -(battery.value * minCurCh);
    }

    /** When a direction is reversed. */
    lemma ReversalDueMeans(gateDis: bool, now: u32)
      ensures ReversalDue(gateDis, now) <==>
              && user.activation && battery.Some? && user.allowCharging && gateDis && Sub32(now, modeStart) >= 8000
              && !Quiet(now)
              && var e, v := input - user.setpoint, battery.value;
                 (mode == CHARGE && curCh <= user.minCh + 0.01 &&
                  e > (v * minCurDis + user.selfConsumption + user.deltaDis) * 1.02) ||
                 (mode == DISCHARGE && curDis <= user.minDis + 0.01 &&
                  e < (-(v * minCurCh) - user.deltaCh) * 1.02)
    {
      assert battery.Some? ==> -battery.value * minCurCh == -(battery.value * minCurCh);
    }

    /** The level of a running mode: how far the output is from the neutral point, relative to all of its side,
        between the smallest and the largest level. */
    lemma WantedLevelMeans()
      ensures WantedLevel() ==
              if mode == CHARGE then Min(Max(if output > 0.5 then 0.0 else 1.0 - 2.0 * output, user.minCh), user.maxCh)
              else Min(Max(if output < 0.5 then 0.0 else 2.0 * output - 1.0, user.minDis), user.maxDis)
    {
      Quotient(output, 0.5);
      Quotient(output - 0.5, 0.5);
    }

    /** What follows from the decision, whatever the gate of discharging. */
    lemma DecisionMeans(gateDis: bool, now: u32)
      requires Consistent() && user.activation
      ensures var d := FullDecision(gateDis, now);
              && (mode == IDLE ==>
                    var epsi, t := input - user.setpoint, CurrentThresholds();
                    d.mode == if RawDeadband(epsi, t) then IDLE else StartMode(epsi, t, user.allowCharging, gateDis))
              && (mode == IDLE ==> d.deadbandStart == 0 || d.deadbandStart == deadbandStart)
              && (mode != IDLE ==>
                    d.deadbandStart == if d.mode != mode || !Quiet(now) then 0
                                       else if deadbandStart == 0 then now else deadbandStart)
              && (mode != IDLE && (if mode == CHARGE then user.allowCharging else gateDis) ==>
                    (d.mode == IDLE <==> Quiet(now) && deadbandStart != 0 &&
                                         Sub32(now, deadbandStart) >= DEADBAND_CONFIRM_MS))
              && (Reverses(mode, d.mode) <==> ReversalDue(gateDis, now))
              && (Reverses(mode, d.mode) ==> !InDeadband(input - user.setpoint, CurrentThresholds()) && !Quiet(now))
    {
      hide RawDeadband, ThresholdsFor, StartMode, Latch, Quantize, Below, Above;
      if mode != IDLE {
        var epsi, t := input - user.setpoint, CurrentThresholds();
        var s := Situation(epsi, t, user.allowCharging, gateDis, InDeadband(epsi, t), AtMin(0.01), false,
                           InStartup(now));
        StartIsKept(mode, s, passThrough, deadbandStart, now);
        assert Quiet(now) <==> SeesDeadband(s);
      }
    }

    /** The level a direction starts with. */
    function FirstLevel(m: Mode): real
      reads this`user
    {
      if m == CHARGE then Quantize(Clamp(OToOc(Landing(CHARGE), neutral), user.minCh, user.maxCh))
      else Quantize(Clamp(OToOd(Landing(DISCHARGE), neutral), user.minDis, user.maxDis))
    }

    /** The commands added: the switch is turned under load exactly by a reversal from a level above 0, a level raised
        against the other exactly if that level then is above 0, and everything else is strictly safe. */
    ghost predicate DrivenAsAgreed(before: seq<(Converter, Command)>, loaded: bool, first: real)
      reads this`trace
    {
      Adds(before, trace, Count(loaded), Count(loaded && first > 0.0)) && (AddsStrict(before, trace) <==> !loaded)
    }

    lemma CountsWhenAgreed(before: seq<(Converter, Command)>, was: Mode, side: bool, ch: real, dis: real)
      requires Consistent() && LevelsAsWanted() && Driven(before, side, ch, dis)
      requires Reverses(was, mode) ==> !deadband && output == Landing(mode)
      requires ch >= 0.0 && (ch > 0.0 ==> side && was == CHARGE)
      requires dis >= 0.0 && (dis > 0.0 ==> !side && was == DISCHARGE)
      ensures DrivenAsAgreed(before, Reverses(was, mode) && (ch > 0.0 || dis > 0.0), FirstLevel(Other(was)))
    {
      hide Latch, Safe, Flips, Raises, Quantize, OToOc, OToOd, Clamp;
      StrictWhenNoneCounted(before, trace);
    }

    lemma LockoutIsLatch()
      requires Consistent()
      ensures lockout == Latch(readings)
    {
    }

    lemma LockoutFollows(was: bool, seen: seq<Reading>)
      requires Consistent() && was == Latch(seen) && user.activation
      requires readings == if battery.Some? then seen + [Reading(battery.value, user.stopV, user.startV)] else seen
      ensures lockout == if battery.None? then was else LatchStep(was, Reading(battery.value, user.stopV, user.startV))
    {
      hide Latch, LatchStep;
      LockoutIsLatch();
      if battery.Some? {
        LatchNext(seen, Reading(battery.value, user.stopV, user.startV));
      }
    }

    lemma LevelsWhenAgreed()
      requires Consistent()
      ensures SwitchesAgree() ==>
                && sentCh >= 0.0 && (sentCh > 0.0 ==> chargeSide && mode == CHARGE)
                && sentDis >= 0.0 && (sentDis > 0.0 ==> !chargeSide && mode == DISCHARGE)
    {
    }

    /** The bookkeeping of a full update: the start of the quiet stretch is noted, or `deadbandStart` is 0; and a
        change of the error that counted. */
    ghost method NoteUpdate(t: nat, quiet: bool, was: Mode, start: u32, trigger: bool, ff: u32)
      requires InOrder(history, clock) && clock <= t && start == if was == IDLE then 0 else StartShown(history)
      requires quiet ==> was != IDLE
      requires deadbandStart == if mode == IDLE || !quiet then 0 else if start == 0 then Millis(t) else start
      requires SpacedUpTo(counted, clock) && (counted != [] ==> ff == Millis(counted[|counted| - 1]))
      requires lastFf == if trigger then Millis(t) else ff
      requires trigger ==> Sub32(Millis(t), ff) >= DELAY_FEEDFORWARD
      modifies this`history, this`clock, this`counted
      ensures Tracks() && clock == t && history == old(history) + [Look(t, quiet)]
      ensures Spaced() && counted == if trigger then old(counted) + [t] else old(counted)
      ensures Confirmed(history, t) <==> quiet && start != 0 && Sub32(Millis(t), start) >= DEADBAND_CONFIRM_MS
    {
      hide SpacedUpTo, Millis, Sub32;
      StretchGoesOn(history, clock, Look(t, quiet));
      SpacedStays(counted, clock, t);
      if trigger {
        SpacedNext(counted, clock, t);
        counted := counted + [t];
      }
      history := history + [Look(t, quiet)];
      clock := t;
    }

    /** Time goes by. */
    ghost method Wait(t: nat)
      requires Valid() && clock <= t
      modifies this`clock
      ensures Valid() && clock == t
    {
      hide Latch, Safe, SpacedUpTo;
      SpacedStays(counted, clock, t);
      clock := t;
    }

    /** A full update and its bookkeeping. */
    method TimedUpdate(dt: real, now: u32, ghost t: nat)
      requires Consistent() && Tracks() && Spaced() && clock <= t && now == Millis(t)
      modifies this`newMode, this`passThrough, this`deadbandStart, this`prevOutput, this`output, this`integral,
               this`modeStart, this`idleStart, this`mode, this`curCh, this`prevCh, this`sentCh, this`curDis,
               this`prevDis, this`sentDis, this`trace, this`onoffFlag, this`onoff, this`chargeSide, this`lastTime,
               this`prevError, this`lastFf, this`lockout, this`readings, this`error, this`deadband,
               this`prevActivation, this`history, this`clock, this`counted
      ensures Consistent() && Tracks() && Spaced() && SwitchesAgree() && LevelsAsWanted() && clock == t
      ensures history == old(history) + [Look(t, old(Quiet(now)))]
      ensures !user.activation ==> mode == IDLE
      ensures user.activation ==>
                var gate := Gate();
                mode == old(FullDecision(gate, now)).mode
      ensures user.activation && old(mode) == IDLE ==> mode == ModeFromIdle()
      ensures counted == if old(user.activation && mode != IDLE && Triggers(now, input - user.setpoint))
                         then old(counted) + [t] else old(counted)
      ensures user.activation ==>
                var gate := Gate();
                Reverses(old(mode), mode) <==> old(ReversalDue(gate, now))
      ensures Reverses(old(mode), mode) ==> !deadband
      ensures user.activation && old(mode) != IDLE && Allowed(old(mode)) ==> (mode == IDLE <==> Confirmed(history, t))
      ensures user.activation ==> deadband == old(InDeadband(input - user.setpoint, CurrentThresholds()))
      ensures Updated(dt, now)
    {
      hide Quantize, OToOc, OToOd, Clamp, Latch, Safe, RawDeadband, StartMode, ThresholdsFor, Decide, Adds,
        NextDecision, FullDecision, InDeadband, WantedLevel, TraceSafe, InOrder, StartShown, Driven,
        Consistent, AtMin, InStartup, Confirmed, ReversalDue, StartNoted, Triggers, Regulated, Landing, SwitchesAgree,
        LevelsAsWanted, SpacedUpTo, Sub32, Millis, CurrentThresholds, Updated;
      ghost var quiet, was, start, ff := Quiet(now), mode, deadbandStart, lastFf;
      ghost var trigger := user.activation && mode != IDLE && Triggers(now, input - user.setpoint);
      SpacedTrigger(now, input - user.setpoint);
      if user.activation {
        DecisionMeans(true, now);
        DecisionMeans(false, now);
      }
      FullUpdate(dt, now);
      NoteUpdate(t, quiet, was, start, trigger, ff);
    }

    /** Goes on from the samples before: the output is what the closed form asks for, between the bounds. */
    ghost predicate GoesOn(before: seq<Sample>, last: real, was: real, e: real, dt: real, jump: real)
      reads this`samples, this`output, this`integral, this`user, this`mode
    {
      var lo, hi := Lowest(user, mode), Highest(user, mode);
      var demand := Demand(user, if user.pidMode then 0.5 else last, was, e, dt, jump);
      && output == Min(Max(demand, lo), hi)
      && samples == before + [Sample(e, dt, jump, demand, lo, hi, user.pidMode, user.ki, integral - was)]
    }

    /** With standard regulation, as long as there was no saturation: the output is the neutral point, the error
        times its gain, the area under the errors times its gain, and the jumps; the error does not count in an
        update with a jump. */
    ghost predicate ClosedForm(e: real, jump: real)
      reads this`samples, this`output, this`user
    {
      user.pidMode && Calm(samples, user.ki) ==>
        output == 0.5 + 0.00001 * (user.kp * (if jump == 0.0 then e else 0.0) + user.ki * Area(samples)) +
                  Jumps(samples)
    }

    lemma ClosedLoop(before: seq<Sample>, last: real, was: real, e: real, dt: real, jump: real)
      requires Remembers() && mode != IDLE
      requires GoesOn(before, last, was, e, dt, jump)
      ensures ClosedForm(e, jump)
    {
      if user.pidMode && Calm(samples, user.ki) {
        var s := samples[|samples| - 1];
        assert samples[..|samples| - 1] == before;
        assert s.Inside() && SampleOk(s);
        CalmTotal(samples, user.ki);
        assert user.ki * (was + s.share) == user.ki * was + user.ki * s.share;
      }
    }

    /** The bookkeeping of the samples. */
    ghost method NoteSample(was: Mode, startup: bool, last: real, i: real, e: real, dt: real, jump: real)
      requires SamplesOk(samples, user.pidMode)
      requires mode != IDLE ==> prevOutput == output
      requires mode != IDLE && (mode != was || startup) ==> integral == 0.0
      requires mode == was != IDLE && !startup ==>
                 var lo, hi := Lowest(user, mode), Highest(user, mode);
                 var demand := Demand(user, if user.pidMode then 0.5 else last, i, e, dt, jump);
                 && i == Total(samples)
                 && output == Min(Max(demand, lo), hi)
                 && SampleOk(Sample(e, dt, jump, demand, lo, hi, user.pidMode, user.ki, integral - i))
      modifies this`samples
      ensures Remembers()
      ensures mode == was != IDLE && !startup ==> GoesOn(old(samples), last, i, e, dt, jump) && ClosedForm(e, jump)
      ensures mode != IDLE && (mode != was || startup) ==> samples == []
    {
      hide SampleOk, Demand, Min, Max, ClosedForm;
      if mode == was && mode != IDLE && !startup {
        var s := Sample(e, dt, jump, Demand(user, if user.pidMode then 0.5 else last, i, e, dt, jump),
                        Lowest(user, mode), Highest(user, mode), user.pidMode, user.ki, integral - i);
        assert (samples + [s])[..|samples|] == samples;
        var before := samples;
        samples := samples + [s];
        ClosedLoop(before, last, i, e, dt, jump);
      } else {
        samples := [];
      }
    }

    /** A full update and the sample it adds. */
    method SampledUpdate(dt: real, now: u32, ghost t: nat)
      requires Valid() && clock <= t && now == Millis(t)
      modifies this`newMode, this`passThrough, this`deadbandStart, this`prevOutput, this`output, this`integral,
               this`modeStart, this`idleStart, this`mode, this`curCh, this`prevCh, this`sentCh, this`curDis,
               this`prevDis, this`sentDis, this`trace, this`onoffFlag, this`onoff, this`chargeSide, this`lastTime,
               this`prevError, this`lastFf, this`lockout, this`readings, this`error, this`deadband,
               this`prevActivation, this`history, this`clock, this`samples, this`counted
      ensures Valid() && SwitchesAgree() && LevelsAsWanted() && clock == t
      ensures history == old(history) + [Look(t, old(Quiet(now)))]
      ensures readings == if user.activation && battery.Some?
                          then old(readings) + [Reading(battery.value, user.stopV, user.startV)] else old(readings)
      ensures !user.activation ==> mode == IDLE
      ensures user.activation ==>
                var gate := Gate();
                mode == old(FullDecision(gate, now)).mode
      ensures user.activation && old(mode) == IDLE ==> mode == ModeFromIdle()
      ensures user.activation ==> deadband == old(InDeadband(input - user.setpoint, CurrentThresholds()))
      ensures StartNoted(old(mode), old(modeStart), old(idleStart), now) && lastTime == now
      ensures prevError == old(input - user.setpoint)
      ensures mode == old(mode) != IDLE && !old(InStartup(now)) ==>
                GoesOn(old(samples), old(output), old(integral), old(input - user.setpoint), dt,
                       old(JumpAt(now, input - user.setpoint))) &&
                ClosedForm(old(input - user.setpoint), old(JumpAt(now, input - user.setpoint)))
      ensures mode != IDLE && (mode != old(mode) || old(InStartup(now))) ==> output == Landing(mode) && samples == []
      ensures counted == if old(user.activation && mode != IDLE && Triggers(now, input - user.setpoint))
                         then old(counted) + [t] else old(counted)
      ensures Driven(old(trace), old(chargeSide), old(sentCh), old(sentDis))
      ensures user.activation ==>
                var gate := Gate();
                Reverses(old(mode), mode) <==> old(ReversalDue(gate, now))
      ensures Reverses(old(mode), mode) ==> !deadband
      ensures user.activation && old(mode) != IDLE && Allowed(old(mode)) ==> (mode == IDLE <==> Confirmed(history, t))
    {
      hide Quantize, Clamp, Latch, Safe, RawDeadband, Adds, InDeadband, WantedLevel, TraceSafe, Driven, Consistent,
        Tracks, SwitchesAgree, LevelsAsWanted, AtMin, InStartup, Confirmed, ReversalDue, FullDecision, Quiet,
        ModeFromIdle, CurrentThresholds, Gate, JumpAt, Demand, SampleOk, SamplesOk, GoesOn, ClosedForm, Triggers,
        Lowest, Highest, Min, Max, Total, Reverses, StartNoted, Landing, Spaced;
      ghost var was, startup, e, i, last := mode, InStartup(now), input - user.setpoint, integral, output;
      ghost var jump := JumpAt(now, e);
      if mode != IDLE && !startup {
        RegulatedMeans(now, dt, e);
      }
      TimedUpdate(dt, now, t);
      NoteSample(was, startup, last, i, e, dt, jump);
    }

    /** A full update, the safety of its commands and the lockout. */
    method AgreedUpdate(dt: real, now: u32, ghost t: nat)
      requires Valid() && clock <= t && now == Millis(t)
      modifies this`newMode, this`passThrough, this`deadbandStart, this`prevOutput, this`output, this`integral,
               this`modeStart, this`idleStart, this`mode, this`curCh, this`prevCh, this`sentCh, this`curDis,
               this`prevDis, this`sentDis, this`trace, this`onoffFlag, this`onoff, this`chargeSide, this`lastTime,
               this`prevError, this`lastFf, this`lockout, this`readings, this`error, this`deadband,
               this`prevActivation, this`history, this`clock, this`samples, this`counted
      ensures Valid() && SwitchesAgree() && LevelsAsWanted() && clock == t
      ensures history == old(history) + [Look(t, old(Quiet(now)))]
      ensures readings == if user.activation && battery.Some?
                          then old(readings) + [Reading(battery.value, user.stopV, user.startV)] else old(readings)
      ensures !user.activation ==> mode == IDLE
      ensures user.activation ==>
                lockout == old(LockoutNext()) && mode == old(FullDecision(GateNext(), now)).mode &&
                deadband == old(InDeadband(input - user.setpoint, CurrentThresholds())) &&
                (old(mode) == IDLE ==> mode == ModeFromIdle())
      ensures StartNoted(old(mode), old(modeStart), old(idleStart), now) && lastTime == now
      ensures prevError == old(input - user.setpoint)
      ensures counted == if old(user.activation && mode != IDLE && Triggers(now, input - user.setpoint))
                         then old(counted) + [t] else old(counted)
      ensures mode == old(mode) != IDLE && !old(InStartup(now)) ==>
                GoesOn(old(samples), old(output), old(integral), old(input - user.setpoint), dt,
                       old(JumpAt(now, input - user.setpoint))) &&
                ClosedForm(old(input - user.setpoint), old(JumpAt(now, input - user.setpoint)))
      ensures mode != IDLE && (mode != old(mode) || old(InStartup(now))) ==> output == Landing(mode) && samples == []
      ensures Driven(old(trace), old(chargeSide), old(sentCh), old(sentDis))
      ensures Reverses(old(mode), mode) <==> old(ReversalDue(GateNext(), now))
      ensures old(SwitchesAgree()) ==>
                DrivenAsAgreed(old(trace), old(ReversalDue(GateNext(), now) && (sentCh > 0.0 || sentDis > 0.0)),
                               old(FirstLevel(Other(mode))))
      ensures user.activation && old(mode) != IDLE && Allowed(old(mode)) ==> (mode == IDLE <==> Confirmed(history, t))
    {
      hide Quantize, OToOc, OToOd, Clamp, Latch, Safe, RawDeadband, StartMode, ThresholdsFor, Decide, Adds,
        NextDecision, FullDecision, InDeadband, WantedLevel, TraceSafe, Confirmed, Driven, DrivenAsAgreed,
        LevelsAsWanted, ModeFromIdle, AtMin, InStartup, Quiet, ReversalDue, FirstLevel, Consistent, Tracks,
        CurrentThresholds, Remembers, Spaced, Sub32, Millis, SwitchesAgree, Allowed, Landing, LatchStep, StartNoted,
        JumpAt, GoesOn, ClosedForm, Triggers;
      ghost var commands, was, side, ch, dis := trace, mode, chargeSide, sentCh, sentDis;
      ghost var agreed, seen, locked := SwitchesAgree(), readings, lockout;
      NothingDue(GateNext(), now);
      LockoutIsLatch();
      LevelsWhenAgreed();
      SampledUpdate(dt, now, t);
      if user.activation {
        LockoutFollows(locked, seen);
      }
      if agreed {
        CountsWhenAgreed(commands, was, side, ch, dis);
      }
    }

    /** One input sample at time `t`, when the clock shows `now`. Returns false when the update does nothing: manual
        override, or a second sample in the same millisecond. */
    method PidUpdate(now: u32, ghost t: nat) returns (full: bool)
      requires Valid() && clock <= t && now == Millis(t)
      modifies this`newMode, this`passThrough, this`deadbandStart, this`prevOutput, this`output, this`integral,
               this`modeStart, this`idleStart, this`mode, this`curCh, this`prevCh, this`sentCh, this`curDis,
               this`prevDis, this`sentDis, this`trace, this`onoffFlag, this`onoff, this`chargeSide, this`lastTime,
               this`prevError, this`lastFf, this`lockout, this`readings, this`error, this`deadband,
               this`prevActivation, this`history, this`clock, this`samples, this`counted
      ensures Valid() && clock == t
      ensures full <==> !user.manualOverride && now != old(lastTime)
      ensures history == if full then old(history) + [Look(t, old(Quiet(now)))] else old(history)
      // actuator safety at return
      ensures full || old(SwitchesAgree()) ==> SwitchesAgree()
      ensures !full ==> unchanged(`mode) && unchanged(`sentCh) && unchanged(`sentDis) && unchanged(`onoff) &&
                        unchanged(`chargeSide) && unchanged(`lockout) && unchanged(`trace)
      // undervoltage latch
      ensures readings == if full && user.activation && battery.Some?
                          then old(readings) + [Reading(battery.value, user.stopV, user.startV)] else old(readings)
      // mode and levels
      ensures full && !user.activation ==> mode == IDLE
      ensures full && user.activation ==> mode == old(FullDecision(GateNext(), now)).mode
      ensures full && user.activation && old(mode) == IDLE ==> mode == ModeFromIdle()
      ensures full && user.activation ==> deadband == old(InDeadband(input - user.setpoint, CurrentThresholds()))
      ensures if full then StartNoted(old(mode), old(modeStart), old(idleStart), now)
              else unchanged(`modeStart) && unchanged(`idleStart)
      ensures lastTime == if user.manualOverride then old(lastTime) else now
      ensures full ==> LevelsAsWanted() && prevError == old(input - user.setpoint)
      // regulation
      ensures full && mode != IDLE && (mode != old(mode) || old(InStartup(now))) ==>
                output == (if mode == CHARGE then 0.49 else 0.51) && samples == []
      ensures full && mode == old(mode) != IDLE && !old(InStartup(now)) ==>
                GoesOn(old(samples), old(output), old(integral), old(input - user.setpoint),
                       old(Sub32(now, lastTime) as real / 1000.0), old(JumpAt(now, input - user.setpoint))) &&
                ClosedForm(old(input - user.setpoint), old(JumpAt(now, input - user.setpoint)))
      ensures !full ==> unchanged(`output) && unchanged(`integral) && unchanged(`samples)
      ensures counted == if full && old(user.activation && mode != IDLE && Triggers(now, input - user.setpoint))
                         then old(counted) + [t] else old(counted)
      // how safe the commands are
      ensures full ==> Driven(old(trace), old(chargeSide), old(sentCh), old(sentDis))
      ensures full && user.activation ==> lockout == old(LockoutNext())
      ensures full ==> (Reverses(old(mode), mode) <==> old(ReversalDue(GateNext(), now)))
      ensures full && old(SwitchesAgree()) ==>
                DrivenAsAgreed(old(trace), old(ReversalDue(GateNext(), now) && (sentCh > 0.0 || sentDis > 0.0)),
                               old(FirstLevel(Other(mode))))
      // a direction that may go on is given up exactly when the deadband has been seen for long enough
      ensures full && user.activation && old(mode) != IDLE && Allowed(old(mode)) ==>
                (mode == IDLE <==> Confirmed(history, t))
    {
      hide Quantize, OToOc, OToOd, Clamp, Latch, Safe, RawDeadband, StartMode, ThresholdsFor, Decide, Adds,
        NextDecision, FullDecision, InDeadband, WantedLevel, TraceSafe, Confirmed, Driven, DrivenAsAgreed,
        LevelsAsWanted, ModeFromIdle, AtMin, InStartup, Quiet, ReversalDue, FirstLevel, Consistent, Tracks,
        SwitchesAgree, LockoutNext, JumpAt, Triggers, GoesOn, ClosedForm, Remembers, StartNoted, Spaced;
      if user.manualOverride {
        Wait(t);
        return false;
      }
      var dt := Sub32(now, lastTime) as real / 1000.0;
      if dt < 0.001 {
        SkipSample(now);
        Wait(t);
        return false;
      }
      AgreedUpdate(dt, now, t);
      return true;
    }

    // ----------------------------------------------------------------------------------------------------------------
    // What happens between updates
    // ----------------------------------------------------------------------------------------------------------------

    /** Standard or incremental regulation, each with its own gains; the change starts without a jolt. */
    method SetPidMode(enable: bool, kp: real, ki: real)
      requires Valid()
      modifies this`user, this`integral, this`prevError, this`prevOutput, this`samples
      ensures Valid() && Unmoved(old(Plant()), old(trace))
      ensures if enable == old(user).pidMode then unchanged(this)
              else user == old(user).(pidMode := enable, kp := kp, ki := ki) && integral == 0.0 && prevError == error &&
                   samples == []
    {
      hide Latch, Safe, StartShown, InOrder, TraceSafe, Levels, Tracks, Spaced;
      if user.pidMode == enable {
        return;
      }
      user := user.(pidMode := enable, kp := kp, ki := ki);
      integral := 0.0;
      samples := [];
      prevError := error;
      if !enable {
        prevOutput := output;
      }
    }

    /** The user changes anything else; switching the activation off or forbidding a direction acts at the next
        update. */
    method Adjust(settings: Settings)
      requires Valid() && GoodSettings(settings) && settings.pidMode == user.pidMode
      modifies this`user
      ensures Valid() && user == settings && Unmoved(old(Plant()), old(trace))
    {
      user := settings;
    }

    /** New readings of the two sensors. */
    method Sense(input: real, battery: Option<real>)
      requires Valid()
      modifies this`input, this`battery
      ensures Valid() && this.input == input && this.battery == battery && Unmoved(old(Plant()), old(trace))
    {
      this.input := input;
      this.battery := battery;
    }

    /** Somebody else operates the switches: the levels are still the remembered ones, and the next full update
        makes the switches agree again. */
    method Meddle(onoff: bool, chargeSide: bool)
      requires Valid()
      modifies this`onoff, this`chargeSide
      ensures Valid() && this.onoff == onoff && this.chargeSide == chargeSide && trace == old(trace)
    {
      this.onoff := onoff;
      this.chargeSide := chargeSide;
    }

    ghost predicate Unmoved(plant: Converter, commands: seq<(Converter, Command)>)
      reads this`onoff, this`chargeSide, this`sentCh, this`sentDis, this`trace
    {
      Plant() == plant && trace == commands
    }
  }

  // ------------------------------------------------------------------------------------------------------------------
  // A reversal that is not strictly safe
  // ------------------------------------------------------------------------------------------------------------------

  const BOTH_WAYS := Settings(true, false, true, false, true, true, 0.0, 0.0, 48.0, 44.0, 0.0, 10.0, 10.0, 1.0, 1.0,
                              0.02, 1.0, 0.02, 1.0)
  const VOLTS := Some(50.0)

  lemma LandingLevel()
    ensures Quantize(Clamp(OToOc(0.49, 0.5), 0.02, 1.0)) == 0.02 && Quantize(Clamp(OToOd(0.51, 0.5), 0.02, 1.0)) == 0.02
  {
    assert (0.02 * 1000.0 + 0.5).Floor == 20;
  }

  /** An idle converter is told to take 1000 W and starts charging; 8 s later it is told to give 1000 W. The second
      update turns the direction switch with the charging level up and raises the other level against it. */
  method ReversalUnderLoad() returns (ghost commands: seq<(Converter, Command)>)
    ensures (forall k | 0 <= k < |commands| :: Safe(commands[k].0, commands[k].1))
    ensures Flips(commands) == 1 && Raises(commands) == 1
  {
    var pcm := new Pcm(1.0, 1.0, BOTH_WAYS, -1000.0, VOLTS, true, 10000);
    LandingLevel();
    Begin(pcm);
    pcm.Sense(1000.0, VOLTS);
    Turn(pcm);
    commands := pcm.trace;
  }

  lemma TakeAndGive()
    ensures var t := ThresholdsFor(VOLTS, 1.0, 1.0, 0.0, 10.0, 10.0);
            !RawDeadband(-1000.0, t) && StartMode(-1000.0, t, true, true) == CHARGE &&
            !RawDeadband(1000.0, t) && Above(1000.0, t.startDis)
  {
  }

  lemma VoltsAreEnough(readings: seq<Reading>)
    ensures Latch([]) == false
    ensures Latch(readings + [Reading(50.0, 44.0, 48.0)]) == false
  {
    LatchNext(readings, Reading(50.0, 44.0, 48.0));
  }

  method Begin(pcm: Pcm)
    requires pcm.Valid() && pcm.SwitchesAgree() && pcm.mode == IDLE && pcm.readings == [] && pcm.trace == []
    requires pcm.user == BOTH_WAYS && pcm.battery == VOLTS && pcm.minCurCh == pcm.minCurDis == 1.0
    requires pcm.input == -1000.0 && pcm.modeStart == 2000 && pcm.lastTime == 10000 && pcm.clock == 0
    modifies pcm
    ensures pcm.Valid() && pcm.SwitchesAgree() && pcm.mode == CHARGE && pcm.sentCh == 0.02
    ensures Flips(pcm.trace) == 0 && Raises(pcm.trace) == 0
    ensures pcm.readings == [Reading(50.0, 44.0, 48.0)] && pcm.clock == 20000
    ensures pcm.user == BOTH_WAYS && pcm.battery == VOLTS && pcm.lastTime == 20000
    ensures pcm.modeStart == 2000 || pcm.modeStart == 20000
  {
    hide Quantize, Clamp, OToOc, OToOd, RawDeadband, StartMode, ThresholdsFor, Latch, Safe, AddsStrict, StretchStart;
    LandingLevel();
    TakeAndGive();
    VoltsAreEnough([]);
    var full := pcm.PidUpdate(20000, 20000);
  }

  method Turn(pcm: Pcm)
    requires pcm.Valid() && pcm.SwitchesAgree() && pcm.mode == CHARGE && pcm.sentCh == 0.02
    requires Flips(pcm.trace) == 0 && Raises(pcm.trace) == 0
    requires pcm.readings == [Reading(50.0, 44.0, 48.0)] && pcm.clock == 20000
    requires pcm.user == BOTH_WAYS && pcm.battery == VOLTS && pcm.minCurCh == pcm.minCurDis == 1.0
    requires pcm.input == 1000.0 && pcm.lastTime == 20000
    requires pcm.modeStart == 2000 || pcm.modeStart == 20000
    modifies pcm
    ensures pcm.Valid() && Flips(pcm.trace) == 1 && Raises(pcm.trace) == 1
  {
    hide Quantize, Clamp, OToOc, OToOd, RawDeadband, StartMode, ThresholdsFor, Latch, Safe, AddsStrict, StretchStart,
      Above, Below, Decide;
    LandingLevel();
    TakeAndGive();
    var full := pcm.PidUpdate(28000, 28000);
  }
}
