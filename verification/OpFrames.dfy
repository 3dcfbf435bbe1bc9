/** What the operation engine puts on the air over whole runs, told from the frames that reach the transmit queue: which
    frames an operation queues and in which order, that a power limit goes out as it was asked for, what its success
    means, and where the address of a paired inverter comes from. */
module OpFrames {
  import opened Words
  import opened TxEngine
  import opened OpEngine
  import opened OpTheorems

  // ------------------------------------------------------------------------------------------------------------------
  // What an operation is to queue
  // ------------------------------------------------------------------------------------------------------------------

  /** What an operation does once a frame is on its way: it pauses, or waits for the answer. */
  datatype Then = Pause(ms: u32) | Reply(ms: u32)

  datatype Ask = Ask(frame: Outgoing, next: Then)

  /** A frame to a known inverter, on the cluster of the application. */
  function ToInverter(cfg: Config, i: Inverter, p: Payload): Outgoing {
    Outgoing(false, i.short, cfg.panId, 0x0006, cfg.macAck, p)
  }

  /** The pairing broadcasts, on every PAN, and their clusters. */
  function PairFrames(): seq<Ask> {
    [Ask(Outgoing(true, 0xFFFF, 0xFFFF, 0x020D, false, Pairing(0)), Pause(1500)),
     Ask(Outgoing(true, 0xFFFF, 0xFFFF, 0x020C, false, Pairing(1)), Pause(1500)),
     Ask(Outgoing(true, 0xFFFF, 0xFFFF, 0x010F, false, Pairing(2)), Pause(1500)),
     Ask(Outgoing(true, 0xFFFF, 0xFFFF, 0x0101, false, Pairing(3)), Pause(1500))]
  }

  /** The requests of one pass of an operation: none for an inverter that is unknown or, but for pairing, not paired. */
  function Asked(cfg: Config, inverters: seq<Inverter>, op: Op): seq<Ask> {
    var hello := Outgoing(true, 0xFFFF, cfg.panId, 0x0006, false, NormalOps);
    if op.kind == NORMAL_OPS then [Ask(hello, Pause(250)), Ask(hello, Pause(500))]
    else if op.inv >= |inverters| then []
    else
      var i := inverters[op.inv];
      if op.kind == PAIR then PairFrames()
      else if i.short == 0 || i.short >= 0xFFF8 then []
      else
        match op.kind
        case POLL => [Ask(ToInverter(cfg, i, Poll), Reply(cfg.responseTimeout))]
        case QUERY => [Ask(ToInverter(cfg, i, Query), Reply(cfg.responseTimeout))]
        case REBOOT => [Ask(ToInverter(cfg, i, Reboot), Pause(1000))]
        case _ =>
          [Ask(ToInverter(cfg, i, Throttle(op.arg + i.calibration)), Pause(800)),
           Ask(ToInverter(cfg, i, QueryFlush), Pause(800)),
           Ask(ToInverter(cfg, i, Query), Reply(cfg.responseTimeout))]
  }

  /** The steps that make these requests. */
  function Steps(asked: seq<Ask>): seq<OpStep> {
    if asked == [] then []
    else
      var last := asked[|asked| - 1];
      Steps(asked[..|asked| - 1])
      + [Send(last.frame), if last.next.Pause? then Delay(last.next.ms) else Await(last.next.ms)]
  }

  lemma StepsNext(asked: seq<Ask>, r: Ask)
    ensures Steps(asked + [r])
         == Steps(asked) + [Send(r.frame), if r.next.Pause? then Delay(r.next.ms) else Await(r.next.ms)]
  {
    assert (asked + [r])[..|asked|] == asked;
  }

  lemma StepsOfOne(a: Ask)
    ensures Steps([a]) == [Send(a.frame), if a.next.Pause? then Delay(a.next.ms) else Await(a.next.ms)]
  {
    StepsNext([], a);
    assert [] + [a] == [a];
  }

  lemma StepsOfTwo(a: Ask, b: Ask)
    ensures Steps([a, b]) == Steps([a]) + Steps([b])
  {
    StepsOfOne(b);
    StepsNext([a], b);
    assert [a] + [b] == [a, b];
  }

  lemma StepsOfThree(a: Ask, b: Ask, c: Ask)
    ensures Steps([a, b, c]) == Steps([a]) + Steps([b]) + Steps([c])
  {
    StepsOfTwo(a, b);
    StepsOfOne(c);
    StepsNext([a, b], c);
    assert [a, b] + [c] == [a, b, c];
  }

  lemma StepsOfFour(a: Ask, b: Ask, c: Ask, d: Ask)
    ensures Steps([a, b, c, d]) == Steps([a]) + Steps([b]) + Steps([c]) + Steps([d])
  {
    StepsOfThree(a, b, c);
    StepsOfOne(d);
    StepsNext([a, b, c], d);
    assert [a, b, c] + [d] == [a, b, c, d];
  }

  /** The step list of an operation makes exactly the requests it is to make. */
  lemma StepListAsks(cfg: Config, inverters: seq<Inverter>, op: Op)
    ensures StepList(cfg, inverters, op) == Steps(Asked(cfg, inverters, op))
  {
    hide Steps;
    var a := Asked(cfg, inverters, op);
    if |a| == 1 {
      StepsOfOne(a[0]);
      assert a == [a[0]];
    } else if |a| == 2 {
      StepsOfTwo(a[0], a[1]);
      StepsOfOne(a[0]);
      StepsOfOne(a[1]);
      assert a == [a[0], a[1]];
    } else if |a| == 3 {
      StepsOfThree(a[0], a[1], a[2]);
      StepsOfOne(a[0]);
      StepsOfOne(a[1]);
      StepsOfOne(a[2]);
      assert a == [a[0], a[1], a[2]];
    } else if |a| == 4 {
      StepsOfFour(a[0], a[1], a[2], a[3]);
      StepsOfOne(a[0]);
      StepsOfOne(a[1]);
      StepsOfOne(a[2]);
      StepsOfOne(a[3]);
      assert a == [a[0], a[1], a[2], a[3]];
    } else {
      NoSteps();
      assert a == [];
    }
  }

  lemma NoSteps()
    ensures Steps([]) == []
  {
  }

  // ------------------------------------------------------------------------------------------------------------------
  // What it does queue
  // ------------------------------------------------------------------------------------------------------------------

  /** The frame that reached the end of the transmit queue between two states, if there is a new one. */
  ghost function NewFrames(t: Tx, u: Tx): seq<Outgoing> {
    if u.issued > t.issued && u.queue != [] then [u.queue[|u.queue| - 1].frame] else []
  }

  /** A pass of an operation begins: it is started, or tried again. */
  predicate Begins(t: Ops, u: Ops) {
    u.q.started != t.q.started || u.r.attempt != t.r.attempt
  }

  /** The frames run_op_ has queued since the present pass began. */
  ghost function PassFrames(cfg: Config, h: Hub, events: seq<HubEvent>): seq<Outgoing> {
    if events == [] then []
    else
      var before, e := events[..|events| - 1], events[|events| - 1];
      var t, u := HubRun(cfg, h, before), HubRun(cfg, h, events);
      if Begins(t.ops, u.ops) then []
      else PassFrames(cfg, h, before) + if e.Operate? then NewFrames(t.tx, u.tx) else []
  }

  function FramesOf(asked: seq<Ask>): (r: seq<Outgoing>)
    ensures |r| == |asked|
  {
    seq(|asked|, k requires 0 <= k < |asked| => asked[k].frame)
  }

  lemma {:induction false} StepAt(asked: seq<Ask>, k: nat)
    requires k < |asked|
    ensures |Steps(asked)| == 2 * |asked| && Steps(asked)[2 * k] == Send(asked[k].frame)
    ensures Steps(asked)[2 * k + 1] == if asked[k].next.Pause? then Delay(asked[k].next.ms) else Await(asked[k].next.ms)
    decreases |asked|
  {
    var n := |asked| - 1;
    StepsLength(asked[..n]);
    if k < n {
      StepAt(asked[..n], k);
    }
  }

  lemma {:induction false} StepsLength(asked: seq<Ask>)
    ensures |Steps(asked)| == 2 * |asked|
    decreases |asked|
  {
    if asked != [] {
      StepsLength(asked[..|asked| - 1]);
    }
  }

  /** How many frames the present pass has queued. */
  function QueuedSoFar(r: Running): nat {
    r.stepIdx / 2 + if r.stepIdx % 2 == 1 || r.sendIssued then 1 else 0
  }

  /** The frames of the present pass are the first of those asked for. */
  ghost predicate PassInv(cfg: Config, o: Ops, frames: seq<Outgoing>) {
    o.r.active ==>
      var a, n := Asked(cfg, o.inverters, o.r.cur), QueuedSoFar(o.r);
      n <= |a| && frames == FramesOf(a)[..n] && o.r.stepIdx <= 2 * |a| && (o.r.sendIssued ==> o.r.stepIdx % 2 == 0)
  }

  lemma SameFrames(t: Tx)
    ensures NewFrames(t, t) == []
  {
  }

  lemma QueuedIsNew(t: Tx, f: Outgoing)
    ensures NewFrames(t, QueueTx(t, f)) == [f]
  {
  }

  lemma BeginPass(cfg: Config, inverters: seq<Inverter>, r: Running, op: Op, now: u32)
    ensures var b := Begin(cfg, inverters, r, op, now);
            b.active && b.cur == op && b.stepIdx == 0 && !b.sendIssued && b.attempt == 0
  {
  }

  /** One call of run_op_ on a running operation that goes on: a retry begins a new pass, and otherwise the frame
      queued, if any, is the next one asked for. */
  lemma AdvancePass(cfg: Config, inverters: seq<Inverter>, r: Running, tx: Tx, now: u32, frames: seq<Outgoing>)
    requires r.active && RunInv(cfg, inverters, r)
    requires var a, n := Asked(cfg, inverters, r.cur), QueuedSoFar(r);
             n <= |a| && frames == FramesOf(a)[..n] && r.stepIdx <= 2 * |a| && (r.sendIssued ==> r.stepIdx % 2 == 0)
    ensures var (next, verdict) := Advance(cfg, inverters, r, tx, now);
            var a, added := Asked(cfg, inverters, r.cur), if ToSend(r).Some? then [ToSend(r).value] else [];
            && (verdict.None? ==>
                  var n := QueuedSoFar(next);
                  && n <= |a| && next.stepIdx <= 2 * |a| && (next.sendIssued ==> next.stepIdx % 2 == 0)
                  && (if next.attempt != r.attempt then n == 0 else frames + added == FramesOf(a)[..n]))
            && (verdict == Some(true) ==> frames == FramesOf(a) && added == [])
  {
    hide Asked, Steps, StepList, SendsIn;
    var a := Asked(cfg, inverters, r.cur);
    StepListAsks(cfg, inverters, r.cur);
    StepsLength(a);
    if r.stepIdx < 2 * |a| {
      var k := r.stepIdx / 2;
      StepAt(a, k);
      assert r.stepIdx == 2 * k || r.stepIdx == 2 * k + 1;
      assert FramesOf(a)[..k + 1] == FramesOf(a)[..k] + [a[k].frame];
    }
  }

  lemma OperatePass(cfg: Config, t: Hub, now: u32, ready: bool, frames: seq<Outgoing>)
    requires HubInv(cfg, t) && PassInv(cfg, t.ops, frames)
    ensures var u := HubNext(cfg, t, Operate(now, ready));
            PassInv(cfg, u.ops, if Begins(t.ops, u.ops) then [] else frames + NewFrames(t.tx, u.tx))
  {
    hide Asked, Steps, StepList, TxInv, QueueInv, RunInv, QueueTx, Advance, Begin, Learn;
    var r := t.ops.r;
    SameFrames(t.tx);
    if r.active {
      AdvancePass(cfg, t.ops.inverters, r, t.tx, now, frames);
      AdvanceKeepsOp(cfg, t.ops.inverters, r, t.tx, now);
      var (next, verdict) := Advance(cfg, t.ops.inverters, r, t.tx, now);
      ConcludeNotes(t.ops, next, verdict);
      if ToSend(r).Some? {
        QueuedIsNew(t.tx, ToSend(r).value);
      }
      if verdict.None? {
        assert RunOp(cfg, t.ops, t.tx, now, ready) == t.ops.(r := next);
      } else {
        ConcludedIsIdle(t.ops, next, verdict);
      }
    } else if t.ops.q.queue != [] && ready {
      BeginPass(cfg, t.ops.inverters, r, t.ops.q.queue[0], now);
      var b := Begin(cfg, t.ops.inverters, r, t.ops.q.queue[0], now);
      if b.steps == [] {
        ConcludedIsIdle(t.ops.(q := TakeNext(t.ops.q)), b, Some(false));
      }
    }
  }

  lemma ConcludedIsIdle(o: Ops, r: Running, verdict: Option<bool>)
    requires verdict.Some?
    ensures !Conclude(o, r, verdict).r.active
  {
  }

  lemma OtherPass(cfg: Config, t: Hub, e: HubEvent, frames: seq<Outgoing>)
    requires !e.Operate? && PassInv(cfg, t.ops, frames)
    ensures var u := HubNext(cfg, t, e);
            !Begins(t.ops, u.ops) && PassInv(cfg, u.ops, frames) && u.ops.inverters == t.ops.inverters
  {
    hide Asked, QueueTx, ProcessTx;
  }

  /** Over every run: what the present pass has queued are the first frames asked for, in order. */
  lemma {:induction false} PassesAskInOrder(cfg: Config, h: Hub, events: seq<HubEvent>)
    requires OpTheorems.Initial(h)
    ensures PassInv(cfg, HubRun(cfg, h, events).ops, PassFrames(cfg, h, events))
  {
    if events != [] {
      hide PassInv, HubNext, HubInv, NewFrames, Begins;
      var n := |events| - 1;
      var before, e := events[..n], events[n];
      PassesAskInOrder(cfg, h, before);
      HubRunKeepsInv(cfg, h, before);
      var t, frames := HubRun(cfg, h, before), PassFrames(cfg, h, before);
      if e.Operate? {
        OperatePass(cfg, t, e.now, e.ready, frames);
      } else {
        OtherPass(cfg, t, e, frames);
        assert frames + [] == frames;
      }
    } else {
      NoPass(cfg, h);
    }
  }

  lemma NoPass(cfg: Config, h: Hub)
    requires OpTheorems.Initial(h)
    ensures PassInv(cfg, HubRun(cfg, h, []).ops, PassFrames(cfg, h, []))
  {
  }

  /** Over every run, for operations of every kind: what the running one has queued in this pass are the first
      frames it is asked for, in order; and when one ends successfully, its last pass has queued all of them. */
  lemma SuccessMeansAllSent(cfg: Config, h: Hub, events: seq<HubEvent>, now: u32, ready: bool)
    requires OpTheorems.Initial(h)
    ensures var o := HubRun(cfg, h, events).ops;
            var asked := FramesOf(Asked(cfg, o.inverters, o.r.cur));
            var u := HubNext(cfg, HubRun(cfg, h, events), Operate(now, ready)).ops;
            && (o.r.active ==> PassFrames(cfg, h, events) <= asked)
            && (|u.outcomes| > |o.outcomes| && u.outcomes[|o.outcomes|].1 ==>
                  o.r.active && PassFrames(cfg, h, events) == asked && u.outcomes[|o.outcomes|].0 == o.r.cur)
  {
    hide Asked, Steps, StepList, TxInv, QueueInv, RunInv, QueueTx, Advance, Begin, Learn;
    var t, frames := HubRun(cfg, h, events), PassFrames(cfg, h, events);
    PassesAskInOrder(cfg, h, events);
    HubRunKeepsInv(cfg, h, events);
    if t.ops.r.active {
      AdvancePass(cfg, t.ops.inverters, t.ops.r, t.tx, now, frames);
      AdvanceKeepsOp(cfg, t.ops.inverters, t.ops.r, t.tx, now);
      var (next, verdict) := Advance(cfg, t.ops.inverters, t.ops.r, t.tx, now);
      ConcludeNotes(t.ops, next, verdict);
    } else if t.ops.q.queue != [] && ready {
      var b := Begin(cfg, t.ops.inverters, t.ops.r, t.ops.q.queue[0], now);
      ConcludeNotes(t.ops.(q := TakeNext(t.ops.q)), b, if b.steps == [] then Some(false) else None);
    }
  }

  // ------------------------------------------------------------------------------------------------------------------
  // Power limits on the air
  // ------------------------------------------------------------------------------------------------------------------

  /** A power limit that was queued for an inverter: the address and the watts in the frame. */
  datatype Limit = Limit(inv: nat, dst: u16, watts: int)

  ghost function LimitIn(t: Hub, u: Hub): seq<Limit> {
    var added := NewFrames(t.tx, u.tx);
    if added != [] && added[0].payload.Throttle?
    then [Limit(t.ops.r.cur.inv, added[0].dst, added[0].payload.watts)] else []
  }

  /** The power limits run_op_ has queued in a run. */
  ghost function LimitsOnAir(cfg: Config, h: Hub, events: seq<HubEvent>): seq<Limit> {
    if events == [] then []
    else
      var before, e := events[..|events| - 1], events[|events| - 1];
      LimitsOnAir(cfg, h, before)
      + if e.Operate? then LimitIn(HubRun(cfg, h, before), HubRun(cfg, h, events)) else []
  }

  function WattsFor(log: seq<Limit>, inv: nat): seq<int> {
    if log == [] then []
    else WattsFor(log[..|log| - 1], inv) + if log[|log| - 1].inv == inv then [log[|log| - 1].watts] else []
  }

  lemma WattsAppend(log: seq<Limit>, l: Limit, inv: nat)
    ensures WattsFor(log + [l], inv) == WattsFor(log, inv) + if l.inv == inv then [l.watts] else []
  {
    assert (log + [l])[..|log|] == log;
  }

  /** The last `k` of these are all the limit with the calibration added. */
  predicate EndsIn(out: seq<int>, k: nat, limit: int, calibration: int) {
    k <= |out| && forall i | |out| - k <= i < |out| :: out[i] == limit + calibration
  }

  /** `out` are the limits in their order, each with the calibration of the inverter added, and each sent as often
      as there can be passes: three times, twice, once or, if it came to nothing, not at all. */
  ghost predicate Repeats(out: seq<int>, limits: seq<int>, calibration: int)
    decreases |limits|
  {
    if limits == [] then out == []
    else
      var n := |limits| - 1;
      exists k: nat :: k <= 3 && EndsIn(out, k, limits[n], calibration) &&
                       Repeats(out[..|out| - k], limits[..n], calibration)
  }

  lemma RepeatsNext(out: seq<int>, limits: seq<int>, limit: int, k: nat, calibration: int)
    requires k <= 3 && EndsIn(out, k, limit, calibration) && Repeats(out[..|out| - k], limits, calibration)
    ensures Repeats(out, limits + [limit], calibration)
  {
    var all := limits + [limit];
    var n := |all| - 1;
    assert all[..n] == limits && all[n] == limit;
    assert EndsIn(out, k, all[n], calibration) && Repeats(out[..|out| - k], all[..n], calibration);
  }

  /** How often the running limit has been sent. */
  function Sent(r: Running): nat {
    r.attempt + if QueuedSoFar(r) > 0 then 1 else 0
  }

  /** The limits before the running one are all out, and the running one as often as it has been sent. */
  ghost predicate LimitInv(o: Ops, inv: nat, out: seq<int>, calibration: int) {
    var limits := Limits(o.q.started, inv);
    if o.r.active && Same(o.r.cur, THROTTLE, inv) then
      limits != [] && limits[|limits| - 1] == o.r.cur.arg && Sent(o.r) <= 3 &&
      EndsIn(out, Sent(o.r), o.r.cur.arg, calibration) &&
      Repeats(out[..|out| - Sent(o.r)], limits[..|limits| - 1], calibration)
    else Repeats(out, limits, calibration)
  }

  lemma LimitInvMeans(o: Ops, inv: nat, out: seq<int>, calibration: int)
    requires LimitInv(o, inv, out, calibration)
    ensures Repeats(out, Limits(o.q.started, inv), calibration)
  {
    var limits := Limits(o.q.started, inv);
    if o.r.active && Same(o.r.cur, THROTTLE, inv) {
      var n := |limits| - 1;
      RepeatsNext(out, limits[..n], limits[n], Sent(o.r), calibration);
      assert limits[..n] + [limits[n]] == limits;
    }
  }

  /** The only power limit among the requests of an operation is the first of a THROTTLE: the watts asked for plus the
      calibration, to the address of the inverter. */
  lemma OnlyLimit(cfg: Config, inverters: seq<Inverter>, op: Op, k: nat)
    requires k < |Asked(cfg, inverters, op)|
    ensures var f := Asked(cfg, inverters, op)[k].frame;
            && (f.payload.Throttle? <==> op.kind == THROTTLE && k == 0)
            && (f.payload.Throttle? ==>
                  op.inv < |inverters| && f.payload.watts == op.arg + inverters[op.inv].calibration &&
                  f.dst == inverters[op.inv].short && Paired(inverters[op.inv]))
  {
  }

  /** The inverters stay the same but for their addresses. */
  predicate SameInverters(a: seq<Inverter>, b: seq<Inverter>) {
    |a| == |b| && forall i | 0 <= i < |a| :: a[i].calibration == b[i].calibration
  }

  lemma NextSameInverters(cfg: Config, t: Hub, e: HubEvent)
    ensures SameInverters(t.ops.inverters, HubNext(cfg, t, e).ops.inverters)
  {
    hide Accept, Advance, Begin, QueueTx, ProcessTx, Refused;
  }

  /** What ToSend takes is the next request. */
  lemma SendsNext(cfg: Config, inverters: seq<Inverter>, r: Running, frames: seq<Outgoing>)
    requires RunInv(cfg, inverters, r) && ToSend(r).Some?
    requires QueuedSoFar(r) <= |Asked(cfg, inverters, r.cur)|
    ensures var a, n := Asked(cfg, inverters, r.cur), QueuedSoFar(r);
            n < |a| && ToSend(r).value == a[n].frame && r.stepIdx == 2 * n
  {
    hide Asked, Steps, StepList, SendsIn;
    var a := Asked(cfg, inverters, r.cur);
    StepListAsks(cfg, inverters, r.cur);
    StepsLength(a);
    var k := r.stepIdx / 2;
    assert r.stepIdx == 2 * k + r.stepIdx % 2;
    StepAt(a, k);
  }

  /** How the number of times the running limit was sent goes on. */
  lemma SentNext(cfg: Config, inverters: seq<Inverter>, r: Running, tx: Tx, now: u32)
    requires r.active && RunInv(cfg, inverters, r) && (r.sendIssued ==> r.stepIdx % 2 == 0)
    requires Advance(cfg, inverters, r, tx, now).1.None?
    ensures var next := Advance(cfg, inverters, r, tx, now).0;
            next.cur == r.cur && next.active &&
            (r.cur.kind == THROTTLE ==>
               Sent(next) == Sent(r) + (if ToSend(r).Some? && QueuedSoFar(r) == 0 then 1 else 0) <= 3)
  {
    hide Asked, Steps, StepList, SendsIn;
    var a := Asked(cfg, inverters, r.cur);
    StepListAsks(cfg, inverters, r.cur);
    StepsLength(a);
    AdvanceKeepsOp(cfg, inverters, r, tx, now);
    AdvanceKeepsRun(cfg, inverters, r, tx, now);
    if r.stepIdx < 2 * |a| {
      StepAt(a, r.stepIdx / 2);
      assert r.stepIdx == 2 * (r.stepIdx / 2) || r.stepIdx == 2 * (r.stepIdx / 2) + 1;
    }
  }

  /** A call that leaves the operation running. */
  lemma AdvanceLimit(cfg: Config, t: Hub, now: u32, inv: nat, out: seq<int>)
    requires HubInv(cfg, t) && t.ops.r.active && inv < |t.ops.inverters|
    requires QueuedSoFar(t.ops.r) <= |Asked(cfg, t.ops.inverters, t.ops.r.cur)|
    requires t.ops.r.sendIssued ==> t.ops.r.stepIdx % 2 == 0
    requires LimitInv(t.ops, inv, out, t.ops.inverters[inv].calibration)
    requires Advance(cfg, t.ops.inverters, t.ops.r, t.tx, now).1.None?
    ensures var u := HubNext(cfg, t, Operate(now, true));
            LimitInv(u.ops, inv, out + WattsFor(LimitIn(t, u), inv), t.ops.inverters[inv].calibration)
  {
    hide Asked, Steps, StepList, TxInv, QueueInv, RunInv, QueueTx, Advance, Repeats, EndsIn, Limits,
      WattsFor, QueuedSoFar;
    var r, u := t.ops.r, HubNext(cfg, t, Operate(now, true));
    SentNext(cfg, t.ops.inverters, r, t.tx, now);
    SameFrames(t.tx);
    if ToSend(r).Some? {
      QueuedIsNew(t.tx, ToSend(r).value);
      SendsNext(cfg, t.ops.inverters, r, []);
      OnlyLimit(cfg, t.ops.inverters, r.cur, QueuedSoFar(r));
      OneWatt(r.cur.inv, ToSend(r).value, inv);
      EndsInNext(out, Sent(r), r.cur.arg, t.ops.inverters[inv].calibration);
    }
    NoWatts(inv);
    assert out + [] == out;
  }

  lemma EndsInNext(out: seq<int>, k: nat, limit: int, calibration: int)
    ensures EndsIn(out, k, limit, calibration) ==>
              var more := out + [limit + calibration];
              EndsIn(more, k + 1, limit, calibration) && more[..|more| - (k + 1)] == out[..|out| - k]
  {
  }

  lemma NoWatts(inv: nat)
    ensures WattsFor([], inv) == []
  {
  }

  lemma OneWatt(of: nat, f: Outgoing, inv: nat)
    ensures f.payload.Throttle? ==>
              WattsFor([Limit(of, f.dst, f.payload.watts)], inv) == if of == inv then [f.payload.watts] else []
  {
    if f.payload.Throttle? {
      WattsAppend([], Limit(of, f.dst, f.payload.watts), inv);
      assert [] + [Limit(of, f.dst, f.payload.watts)] == [Limit(of, f.dst, f.payload.watts)];
    }
  }

  /** A call that ends the operation queues nothing. */
  lemma EndQueuesNothing(cfg: Config, inverters: seq<Inverter>, r: Running, tx: Tx, now: u32)
    requires r.active && Advance(cfg, inverters, r, tx, now).1.Some?
    ensures ToSend(r).None?
  {
  }

  lemma FinishKeepsStarted(o: Ops, r: Running, verdict: Option<bool>)
    ensures var t := Conclude(o, r, verdict);
            t.q.started == o.q.started && (verdict.Some? ==> !t.r.active)
  {
    hide Refused;
  }

  /** An operation is started, and may be over at once. */
  lemma StartLimit(cfg: Config, t: Hub, now: u32, inv: nat, out: seq<int>, calibration: int)
    requires !t.ops.r.active && t.ops.q.queue != [] && LimitInv(t.ops, inv, out, calibration)
    ensures LimitInv(StartNext(cfg, t.ops, now), inv, out, calibration)
  {
    hide StepList, Limits, Conclude, Begin;
    var op, started := t.ops.q.queue[0], t.ops.q.started;
    var b := Begin(cfg, t.ops.inverters, t.ops.r, op, now);
    BeginPass(cfg, t.ops.inverters, t.ops.r, op, now);
    LimitsAppend(started, op, inv);
    FinishKeepsStarted(t.ops.(q := TakeNext(t.ops.q)), b, if b.steps == [] then Some(false) else None);
    ConcludeNotes(t.ops.(q := TakeNext(t.ops.q)), b, if b.steps == [] then Some(false) else None);
    var limits := Limits(started, inv);
    assert out[..|out| - 0] == out && limits + [] == limits;
    if Same(op, THROTTLE, inv) {
      RepeatsNext(out, limits, op.arg, 0, calibration);
    }
  }

  lemma OperateLimit(cfg: Config, t: Hub, now: u32, ready: bool, inv: nat, out: seq<int>, frames: seq<Outgoing>)
    requires HubInv(cfg, t) && PassInv(cfg, t.ops, frames) && inv < |t.ops.inverters|
    requires LimitInv(t.ops, inv, out, t.ops.inverters[inv].calibration)
    ensures var u := HubNext(cfg, t, Operate(now, ready));
            LimitInv(u.ops, inv, out + WattsFor(LimitIn(t, u), inv), t.ops.inverters[inv].calibration)
  {
    hide Asked, Steps, StepList, TxInv, QueueInv, RunInv, QueueTx, Advance, Repeats, EndsIn, Limits, WattsFor, Conclude,
      StartNext;
    SameFrames(t.tx);
    NoWatts(inv);
    assert out + [] == out;
    var r, calibration := t.ops.r, t.ops.inverters[inv].calibration;
    if r.active {
      var (next, verdict) := Advance(cfg, t.ops.inverters, r, t.tx, now);
      if verdict.None? {
        AdvanceLimit(cfg, t, now, inv, out);
      } else {
        EndQueuesNothing(cfg, t.ops.inverters, r, t.tx, now);
        FinishKeepsStarted(t.ops, next, verdict);
        LimitInvMeans(t.ops, inv, out, calibration);
      }
    } else if t.ops.q.queue != [] && ready {
      StartLimit(cfg, t, now, inv, out, calibration);
    }
  }

  lemma OtherLimit(cfg: Config, t: Hub, e: HubEvent, inv: nat, out: seq<int>, calibration: int)
    requires !e.Operate? && LimitInv(t.ops, inv, out, calibration)
    ensures LimitInv(HubNext(cfg, t, e).ops, inv, out, calibration)
  {
    hide Repeats, EndsIn, Limits, QueueTx, ProcessTx;
  }

  lemma {:induction false} LimitsFollow(cfg: Config, h: Hub, events: seq<HubEvent>, inv: nat)
    requires OpTheorems.Initial(h) && inv < |h.ops.inverters|
    ensures SameInverters(h.ops.inverters, HubRun(cfg, h, events).ops.inverters)
    ensures LimitInv(HubRun(cfg, h, events).ops, inv, WattsFor(LimitsOnAir(cfg, h, events), inv),
                     h.ops.inverters[inv].calibration)
  {
    hide LimitInv, HubInv, PassInv, HubNext, WattsFor, LimitIn;
    if events == [] {
      NoLimitYet(cfg, h, inv);
    } else {
      var n := |events| - 1;
      var before, e := events[..n], events[n];
      LimitsFollow(cfg, h, before, inv);
      HubRunKeepsInv(cfg, h, before);
      PassesAskInOrder(cfg, h, before);
      var t, log := HubRun(cfg, h, before), LimitsOnAir(cfg, h, before);
      NextSameInverters(cfg, t, e);
      if e.Operate? {
        OperateLimit(cfg, t, e.now, e.ready, inv, WattsFor(log, inv), PassFrames(cfg, h, before));
        AtMostOne(t, HubRun(cfg, h, events));
        OneMore(log, LimitIn(t, HubRun(cfg, h, events)), inv);
      } else {
        OtherLimit(cfg, t, e, inv, WattsFor(log, inv), h.ops.inverters[inv].calibration);
        assert log + [] == log;
      }
    }
  }

  lemma NoLimitYet(cfg: Config, h: Hub, inv: nat)
    requires OpTheorems.Initial(h) && inv < |h.ops.inverters|
    ensures LimitInv(HubRun(cfg, h, []).ops, inv, WattsFor(LimitsOnAir(cfg, h, []), inv),
                     h.ops.inverters[inv].calibration)
  {
  }

  lemma AtMostOne(t: Hub, u: Hub)
    ensures |LimitIn(t, u)| <= 1
  {
  }

  lemma OneMore(log: seq<Limit>, added: seq<Limit>, inv: nat)
    requires |added| <= 1
    ensures WattsFor(log + added, inv) == WattsFor(log, inv) + WattsFor(added, inv)
  {
    hide WattsFor;
    NoWatts(inv);
    if added == [] {
      assert log + added == log;
    } else {
      WattsAppend(log, added[0], inv);
      WattsAppend([], added[0], inv);
      assert added == [added[0]] && [] + [added[0]] == [added[0]];
    }
  }

  /** Over every run: the watts of the limits queued for an inverter are its started limits in their order, each
      with the calibration added and repeated by retries only, so never more than three times. With
      `LimitsAreFaithful` these are the limits the caller asked for. */
  lemma LimitsGoOut(cfg: Config, h: Hub, events: seq<HubEvent>, inv: nat)
    requires OpTheorems.Initial(h) && inv < |h.ops.inverters|
    ensures Repeats(WattsFor(LimitsOnAir(cfg, h, events), inv), Limits(HubRun(cfg, h, events).ops.q.started, inv),
                    h.ops.inverters[inv].calibration)
  {
    hide Repeats;
    LimitsFollow(cfg, h, events, inv);
    LimitInvMeans(HubRun(cfg, h, events).ops, inv, WattsFor(LimitsOnAir(cfg, h, events), inv),
                  h.ops.inverters[inv].calibration);
  }

  /** Over every run: a limit is queued by a running THROTTLE of its inverter, which is paired, to its present
      address, with the watts asked for plus the calibration. */
  lemma LimitIsAddressed(cfg: Config, h: Hub, events: seq<HubEvent>, now: u32, ready: bool)
    requires OpTheorems.Initial(h)
    requires LimitIn(HubRun(cfg, h, events), HubNext(cfg, HubRun(cfg, h, events), Operate(now, ready))) != []
    ensures var t := HubRun(cfg, h, events);
            var l := LimitIn(t, HubNext(cfg, t, Operate(now, ready)))[0];
            && t.ops.r.active && t.ops.r.cur.kind == THROTTLE && t.ops.r.cur.inv == l.inv < |t.ops.inverters|
            && Paired(t.ops.inverters[l.inv]) && l.dst == t.ops.inverters[l.inv].short
            && l.watts == t.ops.r.cur.arg + t.ops.inverters[l.inv].calibration
  {
    hide Asked, Steps, StepList, TxInv, QueueInv, RunInv, QueueTx, RunOp;
    var t := HubRun(cfg, h, events);
    HubRunKeepsInv(cfg, h, events);
    PassesAskInOrder(cfg, h, events);
    SameFrames(t.tx);
    if ToSend(t.ops.r).Some? {
      QueuedIsNew(t.tx, ToSend(t.ops.r).value);
      SendsNext(cfg, t.ops.inverters, t.ops.r, []);
      OnlyLimit(cfg, t.ops.inverters, t.ops.r.cur, QueuedSoFar(t.ops.r));
    }
  }

  // ------------------------------------------------------------------------------------------------------------------
  // Answers
  // ------------------------------------------------------------------------------------------------------------------

  /** An answer with the serial number of the inverter, decoded and, for a poll, plausible. */
  predicate IsAnswerFrom(op: Op, a: Answer) {
    a.found == Some(op.inv) && a.decoded && (op.kind == POLL ==> a.plausible)
  }

  /** Over every run: a poll, a query or a power limit that succeeds has had, in its last pass and when at most the last
      frame of that pass was still to be queued, such an answer; and all its frames were queued in that pass. */
  lemma SuccessMeansHeard(cfg: Config, h: Hub, events: seq<HubEvent>, now: u32, ready: bool) returns (j: nat)
    requires OpTheorems.Initial(h)
    requires var o := HubRun(cfg, h, events).ops;
             var u := HubNext(cfg, HubRun(cfg, h, events), Operate(now, ready)).ops;
             |u.outcomes| > |o.outcomes| && u.outcomes[|o.outcomes|].1 &&
             u.outcomes[|o.outcomes|].0.kind in {POLL, QUERY, THROTTLE}
    ensures var o := HubRun(cfg, h, events).ops;
            var asked := FramesOf(Asked(cfg, o.inverters, o.r.cur));
            && j < |events| && events[j].Received? && IsAnswerFrom(o.r.cur, events[j].a)
            && (forall k | j <= k <= |events| :: SamePass(HubRun(cfg, h, events[..k]).ops, o))
            && |PassFrames(cfg, h, events[..j])| + 1 >= |Asked(cfg, HubRun(cfg, h, events[..j]).ops.inverters, o.r.cur)|
            && PassFrames(cfg, h, events) == asked
  {
    hide Asked, HubRun, HubNext, PassFrames;
    j := SuccessMeansAnswered(cfg, h, events, now, ready);
    SuccessMeansAllSent(cfg, h, events, now, ready);
    assert events[..|events|] == events;
    HubRunKeepsInv(cfg, h, events[..j]);
    PassesAskInOrder(cfg, h, events[..j]);
    assert SamePass(HubRun(cfg, h, events[..j]).ops, HubRun(cfg, h, events).ops);
    ExpectedMeans(cfg, HubRun(cfg, h, events[..j]).ops, PassFrames(cfg, h, events[..j]), events[j].a);
  }

  lemma ExpectedMeans(cfg: Config, o: Ops, frames: seq<Outgoing>, a: Answer)
    requires RunInv(cfg, o.inverters, o.r) && PassInv(cfg, o, frames) && Expected(o.r, a)
    ensures IsAnswerFrom(o.r.cur, a) && |frames| + 1 >= |Asked(cfg, o.inverters, o.r.cur)|
  {
    hide Steps, StepList, SendsIn;
    var asked, k := Asked(cfg, o.inverters, o.r.cur), o.r.stepIdx / 2;
    StepListAsks(cfg, o.inverters, o.r.cur);
    StepsLength(asked);
    assert o.r.stepIdx == 2 * k + o.r.stepIdx % 2;
    StepAt(asked, k);
  }

  // ------------------------------------------------------------------------------------------------------------------
  // Pairing
  // ------------------------------------------------------------------------------------------------------------------

  /** While a pairing of the inverter was running, a node with this address answered with its serial number. */
  ghost predicate HeardFrom(cfg: Config, h: Hub, events: seq<HubEvent>, inv: nat, short: u16) {
    exists j | 0 <= j < |events| ::
      && events[j].Received? && events[j].a.found == Some(inv) && events[j].a.src == short && 0 < short < 0xFFF8
      && Pairs(HubRun(cfg, h, events[..j]).ops.r, inv)
  }

  predicate Pairs(r: Running, inv: nat) {
    r.active && r.cur.kind == PAIR && r.cur.inv == inv
  }

  ghost predicate AddressInv(cfg: Config, h: Hub, events: seq<HubEvent>, inv: nat) {
    var o := HubRun(cfg, h, events).ops;
    && |o.inverters| == |h.ops.inverters|
    && (Pairs(o.r, inv) && inv < |o.inverters| && o.r.pairAddr != 0 ==> HeardFrom(cfg, h, events, inv, o.r.pairAddr))
    && (inv < |o.inverters| && o.inverters[inv].short != h.ops.inverters[inv].short ==>
          HeardFrom(cfg, h, events, inv, o.inverters[inv].short))
  }

  lemma HeardStays(cfg: Config, h: Hub, events: seq<HubEvent>, e: HubEvent, inv: nat, short: u16)
    requires HeardFrom(cfg, h, events, inv, short)
    ensures HeardFrom(cfg, h, events + [e], inv, short)
  {
    hide HubRun;
    var j :| 0 <= j < |events| && events[j].Received? && events[j].a.found == Some(inv) && events[j].a.src == short &&
             0 < short < 0xFFF8 && Pairs(HubRun(cfg, h, events[..j]).ops.r, inv);
    var all := events + [e];
    assert all[j] == events[j] && all[..j] == events[..j];
  }

  lemma HeardNow(cfg: Config, h: Hub, events: seq<HubEvent>, e: HubEvent, inv: nat)
    requires e.Received? && e.a.found == Some(inv) && 0 < e.a.src < 0xFFF8
    requires Pairs(HubRun(cfg, h, events).ops.r, inv)
    ensures HeardFrom(cfg, h, events + [e], inv, e.a.src)
  {
    var all := events + [e];
    assert all[..|events|] == events && all[|events|] == e;
  }

  /** What an event does to the address a pairing has found and to the inverters. */
  lemma NextAddress(cfg: Config, t: Hub, e: HubEvent, inv: nat)
    ensures var u := HubNext(cfg, t, e);
            && |u.ops.inverters| == |t.ops.inverters|
            && (Pairs(u.ops.r, inv) && inv < |u.ops.inverters| && u.ops.r.pairAddr != 0 ==>
                  Pairs(t.ops.r, inv) &&
                  (u.ops.r.pairAddr == t.ops.r.pairAddr ||
                   (e.Received? && e.a.found == Some(inv) && u.ops.r.pairAddr == e.a.src && 0 < e.a.src < 0xFFF8)))
            && (inv < |u.ops.inverters| && u.ops.inverters[inv].short != t.ops.inverters[inv].short ==>
                  Pairs(t.ops.r, inv) && u.ops.inverters[inv].short == t.ops.r.pairAddr != 0)
  {
    hide StepList, QueueTx, ProcessTx, Accept, Refused;
  }

  lemma {:induction false} AddressesHeard(cfg: Config, h: Hub, events: seq<HubEvent>, inv: nat)
    requires OpTheorems.Initial(h)
    ensures AddressInv(cfg, h, events, inv)
  {
    if events != [] {
      hide HubNext, HeardFrom, Pairs;
      var n := |events| - 1;
      var before, e := events[..n], events[n];
      assert events == before + [e];
      AddressesHeard(cfg, h, before, inv);
      var t := HubRun(cfg, h, before);
      NextAddress(cfg, t, e, inv);
      forall short: u16 | HeardFrom(cfg, h, before, inv, short) ensures HeardFrom(cfg, h, events, inv, short) {
        HeardStays(cfg, h, before, e, inv, short);
      }
      if e.Received? && e.a.found == Some(inv) && 0 < e.a.src < 0xFFF8 && Pairs(t.ops.r, inv) {
        HeardNow(cfg, h, before, e, inv);
      }
    }
  }

  /** Over every run: the address of an inverter is the one it had at the start, or that of a node that answered
      with its serial number while its pairing was running. */
  lemma AddressComesFromPairing(cfg: Config, h: Hub, events: seq<HubEvent>, inv: nat)
    requires OpTheorems.Initial(h) && inv < |h.ops.inverters|
    ensures var o := HubRun(cfg, h, events).ops;
            inv < |o.inverters| &&
            (o.inverters[inv].short == h.ops.inverters[inv].short ||
             HeardFrom(cfg, h, events, inv, o.inverters[inv].short))
  {
    AddressesHeard(cfg, h, events, inv);
  }

  /** The address heard last since the present pass began. */
  ghost function LastHeard(cfg: Config, h: Hub, events: seq<HubEvent>): u16 {
    if events == [] then 0
    else
      var before, e := events[..|events| - 1], events[|events| - 1];
      var t, u := HubRun(cfg, h, before), HubRun(cfg, h, events);
      if Begins(t.ops, u.ops) then 0
      else if e.Received? && t.ops.r.active && t.ops.r.cur.kind == PAIR && e.a.found == Some(t.ops.r.cur.inv) &&
              0 < e.a.src < 0xFFF8
      then e.a.src
      else LastHeard(cfg, h, before)
  }

  ghost predicate FoundIs(o: Ops, heard: u16) {
    o.r.active && o.r.cur.kind == PAIR && o.r.cur.inv < |o.inverters| ==> o.r.pairAddr == heard
  }

  lemma NextFound(cfg: Config, t: Hub, e: HubEvent, heard: u16)
    requires HubInv(cfg, t) && FoundIs(t.ops, heard)
    ensures var u := HubNext(cfg, t, e);
            FoundIs(u.ops, if Begins(t.ops, u.ops) then 0
                           else if e.Received? && t.ops.r.active && t.ops.r.cur.kind == PAIR &&
                                   e.a.found == Some(t.ops.r.cur.inv) && 0 < e.a.src < 0xFFF8
                           then e.a.src else heard)
  {
    hide StepList, QueueTx, ProcessTx, Refused, TxInv, QueueInv, Conclude;
    match e
    case Request(_, _, _) =>
    case Received(_) =>
    case SendFrame(_) =>
    case Transmit(_, _) =>
    case Operate(now, ready) =>
      var o := t.ops;
      if o.r.active {
        var (r, verdict) := Advance(cfg, o.inverters, o.r, t.tx, now);
        AdvanceKeepsOp(cfg, o.inverters, o.r, t.tx, now);
        FinishKeepsStarted(o, r, verdict);
        ConcludeNotes(o, r, verdict);
      } else if o.q.queue != [] && ready {
        var b := Begin(cfg, o.inverters, o.r, o.q.queue[0], now);
        FinishKeepsStarted(o.(q := TakeNext(o.q)), b, if b.steps == [] then Some(false) else None);
        ConcludeNotes(o.(q := TakeNext(o.q)), b, if b.steps == [] then Some(false) else None);
        assert TakeNext(o.q).started != o.q.started;
      }
  }

  lemma {:induction false} FoundIsHeard(cfg: Config, h: Hub, events: seq<HubEvent>)
    requires OpTheorems.Initial(h)
    ensures FoundIs(HubRun(cfg, h, events).ops, LastHeard(cfg, h, events))
  {
    if events != [] {
      hide HubNext, FoundIs, HubInv, Begins;
      var n := |events| - 1;
      FoundIsHeard(cfg, h, events[..n]);
      HubRunKeepsInv(cfg, h, events[..n]);
      NextFound(cfg, HubRun(cfg, h, events[..n]), events[n], LastHeard(cfg, h, events[..n]));
    } else {
      NothingFound(cfg, h);
    }
  }

  lemma NothingFound(cfg: Config, h: Hub)
    requires OpTheorems.Initial(h)
    ensures FoundIs(HubRun(cfg, h, []).ops, LastHeard(cfg, h, []))
  {
  }

  predicate IsQueued(queue: seq<Op>, kind: OpKind, inv: nat) {
    exists k :: 0 <= k < |queue| && Same(queue[k], kind, inv)
  }

  /** Over every run: a pairing that ends gives its inverter the address heard last, if there was one, and then asks for
      normal operation and a poll of that inverter, as far as there is room; otherwise it changes nothing. */
  lemma PairingLearns(cfg: Config, h: Hub, events: seq<HubEvent>, now: u32, ready: bool)
    requires OpTheorems.Initial(h)
    requires var o := HubRun(cfg, h, events).ops;
             o.r.active && o.r.cur.kind == PAIR && o.r.cur.inv < |o.inverters| &&
             !HubNext(cfg, HubRun(cfg, h, events), Operate(now, ready)).ops.r.active
    ensures var o := HubRun(cfg, h, events).ops;
            var u := HubNext(cfg, HubRun(cfg, h, events), Operate(now, ready)).ops;
            var inv, short := o.r.cur.inv, LastHeard(cfg, h, events);
            if short == 0 then u.inverters == o.inverters && u.q == o.q
            else
              && u.inverters == o.inverters[inv := o.inverters[inv].(short := short)]
              && (|o.q.queue| <= 23 ==> IsQueued(u.q.queue, NORMAL_OPS, 0) && IsQueued(u.q.queue, POLL, inv))
  {
    hide HubRun, HubInv, LastHeard;
    FoundIsHeard(cfg, h, events);
    var t := HubRun(cfg, h, events);
    var (r, verdict) := Advance(cfg, t.ops.inverters, t.ops.r, t.tx, now);
    AdvanceKeepsOp(cfg, t.ops.inverters, t.ops.r, t.tx, now);
    EndKeepsFound(cfg, t.ops.inverters, t.ops.r, t.tx, now);
    Learned(t.ops.(r := r), verdict == Some(true));
  }

  lemma EndKeepsFound(cfg: Config, inverters: seq<Inverter>, r: Running, tx: Tx, now: u32)
    ensures var (next, verdict) := Advance(cfg, inverters, r, tx, now);
            verdict.Some? ==> next.pairAddr == r.pairAddr
  {
  }

  lemma Learned(o: Ops, ok: bool)
    requires o.r.cur.kind == PAIR && o.r.cur.inv < |o.inverters|
    ensures var u, inv, short := Finish(o, ok), o.r.cur.inv, o.r.pairAddr;
            if short == 0 then u.inverters == o.inverters && u.q == o.q
            else
              && u.inverters == o.inverters[inv := o.inverters[inv].(short := short)]
              && (|o.q.queue| <= 23 ==> IsQueued(u.q.queue, NORMAL_OPS, 0) && IsQueued(u.q.queue, POLL, inv))
  {
    hide Enqueue;
    var inv := o.r.cur.inv;
    if o.r.pairAddr != 0 {
      var known := o.(inverters := o.inverters[inv := o.inverters[inv].(short := o.r.pairAddr)]);
      var first := Enqueue(known, NORMAL_OPS, 0, 0);
      EnqueuedIs(known, NORMAL_OPS, 0);
      EnqueuedIs(first, POLL, inv);
    }
  }

  /** A request that is neither unknown nor for what runs is queued afterwards if there is room, and so is what was
      queued before. */
  lemma EnqueuedIs(o: Ops, kind: OpKind, inv: nat)
    requires kind != THROTTLE && (inv < |o.inverters| || kind == NORMAL_OPS)
    requires !(o.r.active && Same(o.r.cur, kind, inv))
    ensures var u := Enqueue(o, kind, inv, 0);
            && u.inverters == o.inverters && u.r == o.r && |u.q.queue| <= |o.q.queue| + 1
            && (|o.q.queue| <= 24 ==> IsQueued(u.q.queue, kind, inv))
            && o.q.queue <= u.q.queue
            && (forall k: OpKind, i: nat :: IsQueued(o.q.queue, k, i) ==> IsQueued(u.q.queue, k, i))
  {
    var u, k := Enqueue(o, kind, inv, 0), Find(o.q.queue, kind, inv);
    if k < |o.q.queue| {
      assert Same(u.q.queue[k], kind, inv);
    } else if |o.q.queue| <= 24 {
      assert Same(u.q.queue[|o.q.queue|], kind, inv);
    }
    forall c: OpKind, i: nat | IsQueued(o.q.queue, c, i) ensures IsQueued(u.q.queue, c, i) {
      var j :| 0 <= j < |o.q.queue| && Same(o.q.queue[j], c, i);
      assert Same(u.q.queue[j], c, i);
    }
  }

  // ------------------------------------------------------------------------------------------------------------------
  // How operations end
  // ------------------------------------------------------------------------------------------------------------------

  /** Past its wait, an operation has had its answer. */
  predicate PastMeansAnswered(r: Running) {
    r.active && Answering(r.cur.kind) && r.steps != [] && r.stepIdx == |r.steps| ==> r.gotResponse
  }

  lemma LastIsReply(cfg: Config, inverters: seq<Inverter>, op: Op)
    ensures var a := Asked(cfg, inverters, op);
            a != [] ==> (a[|a| - 1].next.Reply? <==> Answering(op.kind)) &&
                        (forall k | 0 <= k < |a| - 1 :: a[k].next.Pause?) &&
                        (Answering(op.kind) ==> a[|a| - 1].next.ms == cfg.responseTimeout)
  {
  }

  lemma NextPast(cfg: Config, t: Hub, e: HubEvent)
    requires HubInv(cfg, t) && PastMeansAnswered(t.ops.r)
    ensures PastMeansAnswered(HubNext(cfg, t, e).ops.r)
  {
    hide QueueTx, ProcessTx, TxInv, QueueInv, Asked, Steps, StepList, SendsIn, Learn, Accept;
    var r := t.ops.r;
    if e.Operate? && r.active {
      var a := Asked(cfg, t.ops.inverters, r.cur);
      StepListAsks(cfg, t.ops.inverters, r.cur);
      StepsLength(a);
      LastIsReply(cfg, t.ops.inverters, r.cur);
      AdvanceKeepsOp(cfg, t.ops.inverters, r, t.tx, e.now);
      if a != [] {
        StepAt(a, |a| - 1);
      }
    }
  }

  lemma {:induction false} PastOverRun(cfg: Config, h: Hub, events: seq<HubEvent>)
    requires OpTheorems.Initial(h)
    ensures PastMeansAnswered(HubRun(cfg, h, events).ops.r)
  {
    if events != [] {
      hide HubNext, HubInv, PastMeansAnswered;
      var n := |events| - 1;
      PastOverRun(cfg, h, events[..n]);
      HubRunKeepsInv(cfg, h, events[..n]);
      NextPast(cfg, HubRun(cfg, h, events[..n]), events[n]);
    } else {
      NotPast(cfg, h);
    }
  }

  lemma NotPast(cfg: Config, h: Hub)
    requires OpTheorems.Initial(h)
    ensures PastMeansAnswered(HubRun(cfg, h, []).ops.r)
  {
  }

  /** All requests of the pass have been made, their pauses are over and the answer, if one is needed, is in. */
  predicate IsThrough(r: Running, asked: seq<Ask>) {
    r.stepIdx == 2 * |asked|
  }

  /** The frame queued last in this pass, which asks for an acknowledgement, is over without one. */
  ghost predicate Unacknowledged(r: Running, tx: Tx, frames: seq<Outgoing>) {
    r.sendIssued && tx.doneId >= r.sendJobId && !tx.lastOk && frames != [] && frames[|frames| - 1].ackRequest
  }

  /** The last request of the pass has waited for its answer in vain. */
  predicate InVain(r: Running, asked: seq<Ask>, now: u32) {
    asked != [] && asked[|asked| - 1].next.Reply? && r.stepIdx == 2 * |asked| - 1 && !r.gotResponse &&
    Sub32(now, r.stepStarted) >= asked[|asked| - 1].next.ms
  }

  /** What a call makes of a running operation, in terms of its requests. */
  lemma AdvanceMeans(cfg: Config, inverters: seq<Inverter>, r: Running, tx: Tx, now: u32, frames: seq<Outgoing>)
    requires r.active && RunInv(cfg, inverters, r) && PastMeansAnswered(r)
    requires var a, n := Asked(cfg, inverters, r.cur), QueuedSoFar(r);
             a != [] && n <= |a| && frames == FramesOf(a)[..n] && r.stepIdx <= 2 * |a| &&
             (r.sendIssued ==> r.stepIdx % 2 == 0)
    ensures var (next, verdict) := Advance(cfg, inverters, r, tx, now);
            var a := Asked(cfg, inverters, r.cur);
            && (verdict == Some(true) <==> IsThrough(r, a))
            && (verdict == Some(false) <==> Unacknowledged(r, tx, frames) || (InVain(r, a, now) && r.attempt == 2))
            && (next.attempt != r.attempt <==> InVain(r, a, now) && r.attempt < 2)
            && (next.attempt != r.attempt ==> next.attempt == r.attempt + 1)
  {
    hide Asked, Steps, StepList, SendsIn;
    var a := Asked(cfg, inverters, r.cur);
    StepListAsks(cfg, inverters, r.cur);
    StepsLength(a);
    LastIsReply(cfg, inverters, r.cur);
    var k := r.stepIdx / 2;
    assert r.stepIdx == 2 * k + r.stepIdx % 2;
    if r.stepIdx < 2 * |a| {
      StepAt(a, k);
      assert r.sendIssued ==> frames[|frames| - 1] == a[k].frame;
    }
  }

  /** Over every run: an operation that has anything to do ends exactly in three ways. It is through, and succeeds; its
      latest frame asked for an acknowledgement and got none, and it fails; or its third pass waited for the answer in
      vain, and it fails. The first two passes that wait in vain are followed by another one. */
  lemma HowOperationsEnd(cfg: Config, h: Hub, events: seq<HubEvent>, now: u32, ready: bool)
    requires OpTheorems.Initial(h) && HubRun(cfg, h, events).ops.r.active
    requires Asked(cfg, HubRun(cfg, h, events).ops.inverters, HubRun(cfg, h, events).ops.r.cur) != []
    ensures var t, frames := HubRun(cfg, h, events), PassFrames(cfg, h, events);
            var u, r, asked := HubNext(cfg, t, Operate(now, ready)), t.ops.r, Asked(cfg, t.ops.inverters, t.ops.r.cur);
            var fails := Unacknowledged(r, t.tx, frames) || (InVain(r, asked, now) && r.attempt == 2);
            && (u.ops.r.active <==> !IsThrough(r, asked) && !fails)
            && (IsThrough(r, asked) ==> u.ops.outcomes == t.ops.outcomes + [(r.cur, true)])
            && (fails ==> u.ops.outcomes == t.ops.outcomes + [(r.cur, false)])
            && (u.ops.r.active ==> u.ops.r.attempt == r.attempt + if InVain(r, asked, now) then 1 else 0)
  {
    hide Asked, Steps, StepList, TxInv, QueueInv, RunInv, QueueTx, Advance, Begin, HubRun, PassFrames,
      Unacknowledged, InVain, PastMeansAnswered, FramesOf;
    var t, frames := HubRun(cfg, h, events), PassFrames(cfg, h, events);
    PassesAskInOrder(cfg, h, events);
    PastOverRun(cfg, h, events);
    HubRunKeepsInv(cfg, h, events);
    var (next, verdict) := Advance(cfg, t.ops.inverters, t.ops.r, t.tx, now);
    AdvanceMeans(cfg, t.ops.inverters, t.ops.r, t.tx, now, frames);
    AdvanceKeepsOp(cfg, t.ops.inverters, t.ops.r, t.tx, now);
    ConcludeNotes(t.ops, next, verdict);
    FinishKeepsStarted(t.ops, next, verdict);
    AttemptsBelow(cfg, t.ops.inverters, t.ops.r);
  }

  lemma AttemptsBelow(cfg: Config, inverters: seq<Inverter>, r: Running)
    requires r.active && RunInv(cfg, inverters, r)
    ensures r.attempt <= 2
  {
  }

  /** Over every run: once all frames of a pass are queued, and until the operation is through, an answer from the
      inverter of a poll, a query or a power limit is taken, and the operation does not wait in vain any more. */
  lemma AnswerIsTaken(cfg: Config, h: Hub, events: seq<HubEvent>, a: Answer)
    requires OpTheorems.Initial(h)
    requires var o := HubRun(cfg, h, events).ops;
             && o.r.active && o.r.cur.kind in {POLL, QUERY, THROTTLE} && IsAnswerFrom(o.r.cur, a)
             && Asked(cfg, o.inverters, o.r.cur) != []
             && PassFrames(cfg, h, events) == FramesOf(Asked(cfg, o.inverters, o.r.cur))
             && !IsThrough(o.r, Asked(cfg, o.inverters, o.r.cur))
    ensures var u := HubNext(cfg, HubRun(cfg, h, events), Received(a)).ops;
            u.r.gotResponse && u.r.active && forall now: u32 :: !InVain(u.r, Asked(cfg, u.inverters, u.r.cur), now)
  {
    hide Asked, Steps, StepList, TxInv, QueueInv, SendsIn, HubRun, PassFrames;
    var o := HubRun(cfg, h, events).ops;
    PassesAskInOrder(cfg, h, events);
    HubRunKeepsInv(cfg, h, events);
    var asked := Asked(cfg, o.inverters, o.r.cur);
    StepListAsks(cfg, o.inverters, o.r.cur);
    StepsLength(asked);
    LastIsReply(cfg, o.inverters, o.r.cur);
    var k := o.r.stepIdx / 2;
    assert o.r.stepIdx == 2 * k + o.r.stepIdx % 2;
    assert |FramesOf(asked)[..QueuedSoFar(o.r)]| == QueuedSoFar(o.r) == |asked|;
    StepAt(asked, |asked| - 1);
  }
}
