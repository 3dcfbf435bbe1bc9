/** The operation engine of `APSZBComponent`: a queue of coalesced requests and the steps, waits and retries of the one
    that runs. */
module OpEngine {
  import opened Words
  import opened TxEngine
  import ApsFrames

  const RESPONSE_RETRIES := 2
  const MAX_OPS := 25
  const CLUSTER_ECU_TO_INV: u16 := 0x0006
  const PAIR_STEP_MS: u32 := 1500

  datatype OpKind = POLL | QUERY | THROTTLE | REBOOT | NORMAL_OPS | PAIR

  datatype Op = Op(kind: OpKind, inv: nat, arg: int)

  datatype OpStep = Send(frame: Outgoing) | Delay(ms: u32) | Await(ms: u32)

  datatype Inverter = Inverter(short: u16, calibration: int)

  datatype Config = Config(panId: u16, macAck: bool, responseTimeout: u32)

  /** The waiting operations; `accepted` and `started` list those ever taken into the queue and ever taken from it. */
  datatype OpQueue = OpQueue(queue: seq<Op>, accepted: seq<Op>, started: seq<Op>)

  /** The running operation; `sends` counts the frames queued for it so far, and `sendNumber` is the number of the job
      `sendJobId` stands for. */
  datatype Running = Running(cur: Op, active: bool, ok: bool, steps: seq<OpStep>, stepIdx: nat, stepStarted: u32,
                             sendIssued: bool, sendJobId: u32, gotResponse: bool, attempt: nat, pairAddr: u16,
                             sends: nat, ghost sendNumber: nat)

  /** `outcomes` lists the finished operations. */
  datatype Ops = Ops(inverters: seq<Inverter>, q: OpQueue, r: Running, outcomes: seq<(Op, bool)>)

  predicate Paired(i: Inverter) {
    i.short != 0 && i.short < 0xFFF8
  }

  /** The operations that only succeed with an answer. */
  predicate Answering(k: OpKind) {
    k == POLL || k == QUERY || k == THROTTLE
  }

  // ------------------------------------------------------------------------------------------------------------------
  // Queueing
  // ------------------------------------------------------------------------------------------------------------------

  predicate Same(o: Op, kind: OpKind, inv: nat) {
    o.kind == kind && o.inv == inv
  }

  /** Position of the queued operation of this kind for this inverter, or the length of the queue. */
  function Find(queue: seq<Op>, kind: OpKind, inv: nat): (k: nat)
    ensures k <= |queue|
    ensures k < |queue| ==> Same(queue[k], kind, inv)
    ensures forall j | 0 <= j < k :: !Same(queue[j], kind, inv)
  {
    if queue == [] || Same(queue[0], kind, inv) then 0 else 1 + Find(queue[1..], kind, inv)
  }

  /** op_queued_ */
  predicate Queued(o: Ops, kind: OpKind, inv: nat) {
    (o.r.active && Same(o.r.cur, kind, inv)) || Find(o.q.queue, kind, inv) < |o.q.queue|
  }

  /** enqueue_op, once the request is found to be neither for an unknown inverter nor a repetition: a waiting power
      limit is replaced, anything else goes to the end unless the queue is full. */
  function Accept(q: OpQueue, op: Op): OpQueue {
    var k := Find(q.queue, op.kind, op.inv);
    if op.kind == THROTTLE && k < |q.queue| then q.(queue := q.queue[k := op], accepted := q.accepted + [op])
    else if |q.queue| >= MAX_OPS then q
    else q.(queue := q.queue + [op], accepted := q.accepted + [op])
  }

  predicate Refused(o: Ops, kind: OpKind, inv: nat) {
    (inv >= |o.inverters| && kind != NORMAL_OPS) || (kind != THROTTLE && Queued(o, kind, inv))
  }

  function Enqueue(o: Ops, kind: OpKind, inv: nat, arg: int): Ops {
    if Refused(o, kind, inv) then o else o.(q := Accept(o.q, Op(kind, inv, arg)))
  }

  // ------------------------------------------------------------------------------------------------------------------
  // Steps of an operation
  // ------------------------------------------------------------------------------------------------------------------

  function Unicast(cfg: Config, dst: u16, p: Payload): OpStep {
    Send(Outgoing(false, dst, cfg.panId, CLUSTER_ECU_TO_INV, cfg.macAck, p))
  }

  function PairCluster(step: nat): u16 {
    if step == 0 then 0x020D else if step == 1 then 0x020C else if step == 2 then 0x010F else 0x0101
  }

  function PairFrame(step: nat): Outgoing {
    Outgoing(true, ApsFrames.ADDR_BROADCAST, ApsFrames.ADDR_BROADCAST, PairCluster(step), false, Pairing(step))
  }

  function PairStep(step: nat): seq<OpStep> {
    [Send(PairFrame(step)), Delay(PAIR_STEP_MS)]
  }

  /** The step list build_steps_ makes for an operation; it is empty when the inverter is not paired or not there. */
  function StepList(cfg: Config, inverters: seq<Inverter>, op: Op): seq<OpStep> {
    if op.kind == NORMAL_OPS then
      var hello := Send(Outgoing(true, ApsFrames.ADDR_BROADCAST, cfg.panId, CLUSTER_ECU_TO_INV, false, NormalOps));
      [hello, Delay(250), hello, Delay(500)]
    else if op.inv >= |inverters| then []
    else if op.kind == PAIR then PairStep(0) + PairStep(1) + PairStep(2) + PairStep(3)
    else
      var i := inverters[op.inv];
      if !Paired(i) then []
      else if op.kind == POLL then [Unicast(cfg, i.short, Poll), Await(cfg.responseTimeout)]
      else if op.kind == QUERY then [Unicast(cfg, i.short, Query), Await(cfg.responseTimeout)]
      else if op.kind == REBOOT then [Unicast(cfg, i.short, Reboot), Delay(1000)]
      else
        [Unicast(cfg, i.short, Throttle(op.arg + i.calibration)), Delay(800),
         Unicast(cfg, i.short, QueryFlush), Delay(800),
         Unicast(cfg, i.short, Query), Await(cfg.responseTimeout)]
  }

  /** build_steps_ */
  function BuildSteps(cfg: Config, inverters: seq<Inverter>, r: Running): Running {
    r.(steps := StepList(cfg, inverters, r.cur), stepIdx := 0, sendIssued := false, gotResponse := false,
       pairAddr := if r.cur.kind == PAIR && r.cur.inv < |inverters| then 0 else r.pairAddr)
  }

  /** What finish_op_ does with the address a pairing has found. */
  function Learn(o: Ops): Ops {
    var inv := o.r.cur.inv;
    if !(o.r.cur.kind == PAIR && inv < |o.inverters| && o.r.pairAddr != 0) then o else
    var known := o.(inverters := o.inverters[inv := o.inverters[inv].(short := o.r.pairAddr)]);
    Enqueue(Enqueue(known, NORMAL_OPS, 0, 0), POLL, inv, 0)
  }

  /** finish_op_ */
  function Finish(o: Ops, ok: bool): Ops {
    var l := Learn(o);
    l.(r := l.r.(active := false, steps := []), outcomes := l.outcomes + [(l.r.cur, ok)])
  }

  /** start_op_, up to the check that there is anything to do. */
  function Begin(cfg: Config, inverters: seq<Inverter>, r: Running, op: Op, now: u32): Running {
    BuildSteps(cfg, inverters, r.(cur := op, active := true, attempt := 0, ok := !Answering(op.kind), sends := 0))
      .(stepStarted := now)
  }

  function NextStep(r: Running, now: u32): Running {
    r.(stepIdx := r.stepIdx + 1, stepStarted := now)
  }

  /** What one call of run_op_ asks the transmit engine to queue. */
  function ToSend(r: Running): Option<Outgoing> {
    if r.active && r.stepIdx < |r.steps| && r.steps[r.stepIdx].Send? && !r.sendIssued
    then Some(r.steps[r.stepIdx].frame) else None
  }

  /** run_op_ with an operation active: its new state, and its verdict when finish_op_ is called. */
  function Advance(cfg: Config, inverters: seq<Inverter>, r: Running, tx: Tx, now: u32): (Running, Option<bool>) {
    if r.stepIdx >= |r.steps| then (r, Some(r.ok)) else
    match r.steps[r.stepIdx]
    case Send(frame) =>
      if !r.sendIssued then
        (r.(sendJobId := NewId(tx), sendIssued := true, sends := r.sends + 1, sendNumber := tx.issued + 1), None)
      else if !Released(tx, r.sendJobId) then (r, None)
      else if !tx.lastOk && frame.ackRequest then (r.(sendIssued := false), Some(false))
      else (NextStep(r.(sendIssued := false), now), None)
    case Delay(ms) => (if Sub32(now, r.stepStarted) >= ms then NextStep(r, now) else r, None)
    case Await(ms) =>
      if r.gotResponse then (NextStep(r, now), None)
      else if Sub32(now, r.stepStarted) < ms then (r, None)
      else if r.attempt < RESPONSE_RETRIES then
        (BuildSteps(cfg, inverters, r.(attempt := r.attempt + 1)).(stepStarted := now), None)
      else (r, Some(false))
  }

  function Conclude(o: Ops, r: Running, verdict: Option<bool>): Ops {
    if verdict.None? then o.(r := r) else Finish(o.(r := r), verdict.value)
  }

  /** The next operation leaves the queue. */
  function TakeNext(q: OpQueue): OpQueue
    requires q.queue != []
  {
    q.(queue := q.queue[1..], started := q.started + [q.queue[0]])
  }

  function StartNext(cfg: Config, o: Ops, now: u32): Ops
    requires o.q.queue != []
  {
    var r := Begin(cfg, o.inverters, o.r, o.q.queue[0], now);
    Conclude(o.(q := TakeNext(o.q)), r, if r.steps == [] then Some(false) else None)
  }

  function RunActive(cfg: Config, o: Ops, tx: Tx, now: u32): Ops {
    var (r, verdict) := Advance(cfg, o.inverters, o.r, tx, now);
    Conclude(o, r, verdict)
  }

  /** run_op_ */
  function RunOp(cfg: Config, o: Ops, tx: Tx, now: u32, ready: bool): Ops {
    if o.r.active then RunActive(cfg, o, tx, now)
    else if o.q.queue == [] || !ready then o
    else StartNext(cfg, o, now)
  }

  // ------------------------------------------------------------------------------------------------------------------
  // Answers
  // ------------------------------------------------------------------------------------------------------------------

  /** A payload received: the inverter whose serial number it carries, the node it came from, and what the decoder for
      the operation that runs makes of it. */
  datatype Answer = Answer(found: Option<nat>, src: u16, decoded: bool, plausible: bool)

  /** The answer window: the request that precedes the wait is under way, or the wait itself. */
  predicate Window(r: Running) {
    r.stepIdx < |r.steps| &&
    (r.steps[r.stepIdx].Await? ||
     (r.steps[r.stepIdx].Send? && r.stepIdx + 1 < |r.steps| && r.steps[r.stepIdx + 1].Await?))
  }

  /** The answer the running operation waits for. */
  predicate Expected(r: Running, a: Answer) {
    r.active && Answering(r.cur.kind) && a.found == Some(r.cur.inv) && Window(r) && a.decoded &&
    (r.cur.kind == POLL ==> a.plausible)
  }

  /** handle_asdu_ */
  function OnAnswer(r: Running, a: Answer): Running {
    if a.found.None? then r
    else if r.active && r.cur.kind == PAIR then
      (if a.found.value == r.cur.inv && a.src != 0 && a.src < 0xFFF8 then r.(pairAddr := a.src) else r)
    else if Expected(r, a) then r.(gotResponse := true, ok := true)
    else r
  }

  // ------------------------------------------------------------------------------------------------------------------
  // Both engines together
  // ------------------------------------------------------------------------------------------------------------------

  datatype Hub = Hub(tx: Tx, ops: Ops)

  datatype HubEvent =
    | Request(kind: OpKind, inv: nat, arg: int)
    | Received(a: Answer)
    | SendFrame(f: Outgoing)
    | Transmit(now: u32, r: Radio)
    | Operate(now: u32, ready: bool)

  function HubNext(cfg: Config, h: Hub, e: HubEvent): Hub {
    match e
    case Request(kind, inv, arg) => h.(ops := Enqueue(h.ops, kind, inv, arg))
    case Received(a) => h.(ops := h.ops.(r := OnAnswer(h.ops.r, a)))
    case SendFrame(f) => h.(tx := QueueTx(h.tx, f))
    case Transmit(now, r) => h.(tx := ProcessTx(h.tx, now, r))
    case Operate(now, ready) =>
      Hub(if ToSend(h.ops.r).Some? then QueueTx(h.tx, ToSend(h.ops.r).value) else h.tx,
          RunOp(cfg, h.ops, h.tx, now, ready))
  }

  function HubRun(cfg: Config, h: Hub, events: seq<HubEvent>): Hub {
    if events == [] then h else HubNext(cfg, HubRun(cfg, h, events[..|events| - 1]), events[|events| - 1])
  }
}
