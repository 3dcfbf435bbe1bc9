/** What the operation engine guarantees over every run. */
module OpTheorems {
  import opened Words
  import opened TxEngine
  import opened OpEngine

  // ------------------------------------------------------------------------------------------------------------------
  // The queue: no duplicates, bounded, nothing that is running already
  // ------------------------------------------------------------------------------------------------------------------

  predicate Distinct(queue: seq<Op>) {
    forall i, j | 0 <= i < j < |queue| :: !Same(queue[i], queue[j].kind, queue[j].inv)
  }

  predicate Without(queue: seq<Op>, kind: OpKind, inv: nat) {
    forall k | 0 <= k < |queue| :: !Same(queue[k], kind, inv)
  }

  predicate QueueInv(o: Ops) {
    |o.q.queue| <= MAX_OPS && Distinct(o.q.queue) &&
    (o.r.active && o.r.cur.kind != THROTTLE ==> Without(o.q.queue, o.r.cur.kind, o.r.cur.inv))
  }

  lemma EnqueueKeepsQueue(o: Ops, kind: OpKind, inv: nat, arg: int)
    requires QueueInv(o)
    ensures QueueInv(Enqueue(o, kind, inv, arg))
    ensures Enqueue(o, kind, inv, arg).r == o.r && |Enqueue(o, kind, inv, arg).inverters| == |o.inverters|
  {
  }

  lemma FinishKeepsQueue(o: Ops, ok: bool)
    requires QueueInv(o)
    ensures QueueInv(Finish(o, ok))
  {
    var inv := o.r.cur.inv;
    if o.r.cur.kind == PAIR && inv < |o.inverters| && o.r.pairAddr != 0 {
      var known := o.(inverters := o.inverters[inv := o.inverters[inv].(short := o.r.pairAddr)]);
      EnqueueKeepsQueue(known, NORMAL_OPS, 0, 0);
      EnqueueKeepsQueue(Enqueue(known, NORMAL_OPS, 0, 0), POLL, inv, 0);
    }
  }

  lemma ConcludeKeepsQueue(o: Ops, r: Running, verdict: Option<bool>)
    requires QueueInv(o.(r := r))
    ensures QueueInv(Conclude(o, r, verdict))
  {
    if verdict.Some? {
      FinishKeepsQueue(o.(r := r), verdict.value);
    }
  }

  lemma AdvanceKeepsOp(cfg: Config, inverters: seq<Inverter>, r: Running, tx: Tx, now: u32)
    ensures var r' := Advance(cfg, inverters, r, tx, now).0; r'.cur == r.cur && r'.active == r.active
  {
  }

  lemma RunOpKeepsQueue(cfg: Config, o: Ops, tx: Tx, now: u32, ready: bool)
    requires QueueInv(o)
    ensures QueueInv(RunOp(cfg, o, tx, now, ready))
  {
    if o.r.active {
      var (r, verdict) := Advance(cfg, o.inverters, o.r, tx, now);
      AdvanceKeepsOp(cfg, o.inverters, o.r, tx, now);
      ConcludeKeepsQueue(o, r, verdict);
    } else if o.q.queue != [] && ready {
      var r := Begin(cfg, o.inverters, o.r, o.q.queue[0], now);
      ConcludeKeepsQueue(o.(q := TakeNext(o.q)), r, if r.steps == [] then Some(false) else None);
    }
  }

  // ------------------------------------------------------------------------------------------------------------------
  // Power limits: what is started is a subsequence of what was requested, and ends with its end
  // ------------------------------------------------------------------------------------------------------------------

  /** The power limits for inverter `inv` in a list of operations. */
  function Limits(ops: seq<Op>, inv: nat): seq<int> {
    if ops == [] then []
    else Limits(ops[..|ops| - 1], inv) +
         if Same(ops[|ops| - 1], THROTTLE, inv) then [ops[|ops| - 1].arg] else []
  }

  /** `a` comes from `b` by leaving elements out. */
  predicate Subsequence(a: seq<int>, b: seq<int>) {
    a == [] ||
    (b != [] && ((a[|a| - 1] == b[|b| - 1] && Subsequence(a[..|a| - 1], b[..|b| - 1])) ||
                 Subsequence(a, b[..|b| - 1])))
  }

  lemma LimitsAppend(ops: seq<Op>, op: Op, inv: nat)
    ensures Limits(ops + [op], inv) == Limits(ops, inv) + if Same(op, THROTTLE, inv) then [op.arg] else []
  {
    assert (ops + [op])[..|ops|] == ops;
  }

  lemma {:induction false} LimitsConcat(a: seq<Op>, b: seq<Op>, inv: nat)
    ensures Limits(a + b, inv) == Limits(a, inv) + Limits(b, inv)
  {
    if b == [] {
      assert a + b == a;
    } else {
      var n := |b| - 1;
      assert a + b == (a + b[..n]) + [b[n]] && b == b[..n] + [b[n]];
      LimitsAppend(a + b[..n], b[n], inv);
      LimitsAppend(b[..n], b[n], inv);
      LimitsConcat(a, b[..n], inv);
    }
  }

  lemma {:induction false} NoLimits(ops: seq<Op>, inv: nat)
    requires Without(ops, THROTTLE, inv)
    ensures Limits(ops, inv) == []
  {
    if ops != [] {
      NoLimits(ops[..|ops| - 1], inv);
    }
  }

  lemma OthersWithout(queue: seq<Op>, k: nat)
    requires Distinct(queue) && k < |queue|
    ensures Without(queue[..k], queue[k].kind, queue[k].inv) && Without(queue[k + 1..], queue[k].kind, queue[k].inv)
    ensures queue == (queue[..k] + [queue[k]]) + queue[k + 1..]
  {
  }

  /** The one waiting limit of an inverter. */
  lemma OneLimit(queue: seq<Op>, k: nat)
    requires Distinct(queue) && k < |queue| && queue[k].kind == THROTTLE
    ensures Limits(queue, queue[k].inv) == [queue[k].arg]
  {
    hide Limits, Without, Distinct;
    var inv := queue[k].inv;
    OthersWithout(queue, k);
    NoLimits(queue[..k], inv);
    LimitsAppend(queue[..k], queue[k], inv);
    NoLimits(queue[k + 1..], inv);
    LimitsConcat(queue[..k] + [queue[k]], queue[k + 1..], inv);
  }

  /** Replacing a waiting operation by one of the same kind for the same inverter leaves the other inverters alone. */
  lemma OtherLimits(queue: seq<Op>, k: nat, op: Op, inv: nat)
    requires k < |queue| && Same(queue[k], op.kind, op.inv) && !Same(op, THROTTLE, inv)
    ensures Limits(queue[k := op], inv) == Limits(queue, inv)
  {
    assert queue == (queue[..k] + [queue[k]]) + queue[k + 1..];
    assert queue[k := op] == (queue[..k] + [op]) + queue[k + 1..];
    LimitsConcat(queue[..k] + [queue[k]], queue[k + 1..], inv);
    LimitsConcat(queue[..k] + [op], queue[k + 1..], inv);
    LimitsAppend(queue[..k], queue[k], inv);
    LimitsAppend(queue[..k], op, inv);
  }

  lemma SubsequenceAppend(a: seq<int>, b: seq<int>, x: int)
    requires Subsequence(a, b)
    ensures Subsequence(a + [x], b + [x])
  {
    assert (a + [x])[..|a|] == a && (b + [x])[..|b|] == b;
  }

  lemma {:induction false} SubsequencePrefix(a: seq<int>, b: seq<int>)
    requires a != [] && Subsequence(a, b)
    ensures Subsequence(a[..|a| - 1], b)
    decreases |b|
  {
    if a[|a| - 1] == b[|b| - 1] && Subsequence(a[..|a| - 1], b[..|b| - 1]) {
      Weaken(a[..|a| - 1], b);
    } else {
      SubsequencePrefix(a, b[..|b| - 1]);
      Weaken(a[..|a| - 1], b);
    }
  }

  lemma Weaken(a: seq<int>, b: seq<int>)
    requires b != [] && Subsequence(a, b[..|b| - 1])
    ensures Subsequence(a, b)
  {
  }

  /** `done` leaves out some of `all`, but not the last. */
  predicate Faithful(done: seq<int>, all: seq<int>) {
    Subsequence(done, all) && (all != [] ==> done != [] && done[|done| - 1] == all[|all| - 1])
  }

  lemma FaithfulAppend(done: seq<int>, all: seq<int>, x: int)
    requires Faithful(done, all)
    ensures Faithful(done + [x], all + [x])
  {
    SubsequenceAppend(done, all, x);
  }

  /** The last one is replaced by a newer one. */
  lemma FaithfulReplace(done: seq<int>, all: seq<int>, x: int)
    requires done != [] && Faithful(done, all)
    ensures Faithful(done[..|done| - 1] + [x], all + [x])
  {
    SubsequencePrefix(done, all);
    SubsequenceAppend(done[..|done| - 1], all, x);
  }

  /** The limits started, then the one waiting. */
  function Owed(q: OpQueue, inv: nat): seq<int> {
    Limits(q.started, inv) + Limits(q.queue, inv)
  }

  predicate LimitsKept(q: OpQueue, inv: nat) {
    Faithful(Owed(q, inv), Limits(q.accepted, inv))
  }

  lemma ReplaceKeepsLimits(q: OpQueue, op: Op)
    requires Distinct(q.queue) && LimitsKept(q, op.inv)
    requires op.kind == THROTTLE && Find(q.queue, THROTTLE, op.inv) < |q.queue|
    ensures LimitsKept(Accept(q, op), op.inv)
  {
    var k := Find(q.queue, THROTTLE, op.inv);
    OneLimit(q.queue, k);
    OneLimit(q.queue[k := op], k);
    LimitsAppend(q.accepted, op, op.inv);
    FaithfulReplace(Owed(q, op.inv), Limits(q.accepted, op.inv), op.arg);
    assert Owed(Accept(q, op), op.inv) == Owed(q, op.inv)[..|Owed(q, op.inv)| - 1] + [op.arg];
  }

  lemma AppendKeepsLimits(q: OpQueue, op: Op, inv: nat)
    requires LimitsKept(q, inv)
    ensures LimitsKept(q.(queue := q.queue + [op], accepted := q.accepted + [op]), inv)
  {
    var t := q.(queue := q.queue + [op], accepted := q.accepted + [op]);
    LimitsAppend(q.accepted, op, inv);
    LimitsAppend(q.queue, op, inv);
    if Same(op, THROTTLE, inv) {
      FaithfulAppend(Owed(q, inv), Limits(q.accepted, inv), op.arg);
      assert Owed(t, inv) == Owed(q, inv) + [op.arg];
    } else {
      assert Owed(t, inv) == Owed(q, inv);
      assert Limits(t.accepted, inv) == Limits(q.accepted, inv);
    }
  }

  lemma AcceptKeepsLimits(q: OpQueue, op: Op, inv: nat)
    requires Distinct(q.queue) && LimitsKept(q, inv)
    ensures LimitsKept(Accept(q, op), inv)
  {
    var k := Find(q.queue, op.kind, op.inv);
    if op.kind == THROTTLE && k < |q.queue| {
      if op.inv == inv {
        ReplaceKeepsLimits(q, op);
      } else {
        OtherLimits(q.queue, k, op, inv);
        LimitsAppend(q.accepted, op, inv);
        assert Limits(q.accepted, inv) + [] == Limits(q.accepted, inv);
      }
    } else if |q.queue| < MAX_OPS {
      AppendKeepsLimits(q, op, inv);
    }
  }

  lemma TakeNextKeepsLimits(q: OpQueue, inv: nat)
    requires q.queue != [] && LimitsKept(q, inv)
    ensures LimitsKept(TakeNext(q), inv)
  {
    hide Same, Faithful;
    var op, rest := q.queue[0], q.queue[1..];
    assert q.queue == [op] + rest;
    LimitsConcat([op], rest, inv);
    LimitsAppend([], op, inv);
    assert [] + [op] == [op] && Limits([], inv) == [];
    LimitsAppend(q.started, op, inv);
    assert Owed(TakeNext(q), inv) == Owed(q, inv);
  }

  lemma EnqueueKeepsLimits(o: Ops, kind: OpKind, i: nat, arg: int, inv: nat)
    requires QueueInv(o) && LimitsKept(o.q, inv)
    ensures LimitsKept(Enqueue(o, kind, i, arg).q, inv)
  {
    AcceptKeepsLimits(o.q, Op(kind, i, arg), inv);
  }

  lemma ConcludeKeepsLimits(o: Ops, r: Running, verdict: Option<bool>, inv: nat)
    requires QueueInv(o.(r := r)) && LimitsKept(o.q, inv)
    ensures LimitsKept(Conclude(o, r, verdict).q, inv)
  {
    var i := r.cur.inv;
    if verdict.Some? && r.cur.kind == PAIR && i < |o.inverters| && r.pairAddr != 0 {
      var known := o.(r := r).(inverters := o.inverters[i := o.inverters[i].(short := r.pairAddr)]);
      EnqueueKeepsQueue(known, NORMAL_OPS, 0, 0);
      EnqueueKeepsLimits(known, NORMAL_OPS, 0, 0, inv);
      EnqueueKeepsLimits(Enqueue(known, NORMAL_OPS, 0, 0), POLL, i, 0, inv);
    }
  }

  lemma RunOpKeepsLimits(cfg: Config, o: Ops, tx: Tx, now: u32, ready: bool, inv: nat)
    requires QueueInv(o) && LimitsKept(o.q, inv)
    ensures LimitsKept(RunOp(cfg, o, tx, now, ready).q, inv)
  {
    if o.r.active {
      var (r, verdict) := Advance(cfg, o.inverters, o.r, tx, now);
      AdvanceKeepsOp(cfg, o.inverters, o.r, tx, now);
      ConcludeKeepsLimits(o, r, verdict, inv);
    } else if o.q.queue != [] && ready {
      var r := Begin(cfg, o.inverters, o.r, o.q.queue[0], now);
      TakeNextKeepsLimits(o.q, inv);
      ConcludeKeepsLimits(o.(q := TakeNext(o.q)), r, if r.steps == [] then Some(false) else None, inv);
    }
  }

  ghost predicate Initial(h: Hub) {
    TxEngine.Initial(h.tx) && h.ops.q == OpQueue([], [], []) && !h.ops.r.active && h.ops.outcomes == []
  }

  /** Over every run: the queue never holds two operations of one kind for one inverter, never more than 25, and never a
      running one again (unless it is a power limit). */
  lemma QueueCoalesces(cfg: Config, h: Hub, events: seq<HubEvent>)
    requires Initial(h)
    ensures QueueInv(HubRun(cfg, h, events).ops)
  {
    HubRunKeepsInv(cfg, h, events);
  }

  /** Over every run: the limits started for an inverter, and then the one that waits, are a subsequence of those
      accepted from the caller, and end with the last of them. So once none waits, the last limit started is the
      last accepted. */
  lemma {:induction false} LimitsAreFaithful(cfg: Config, h: Hub, events: seq<HubEvent>, inv: nat)
    requires Initial(h)
    ensures LimitsKept(HubRun(cfg, h, events).ops.q, inv)
  {
    if events != [] {
      var n := |events| - 1;
      LimitsAreFaithful(cfg, h, events[..n], inv);
      QueueCoalesces(cfg, h, events[..n]);
      var t := HubRun(cfg, h, events[..n]);
      match events[n]
      case Request(kind, i, arg) => EnqueueKeepsLimits(t.ops, kind, i, arg, inv);
      case Received(a) =>
      case SendFrame(f) =>
      case Transmit(now, r) =>
      case Operate(now, ready) => RunOpKeepsLimits(cfg, t.ops, t.tx, now, ready, inv);
    }
  }

  /** A power limit for a known inverter is accepted, unless none waits for that inverter and the queue is full. */
  lemma LimitAccepted(o: Ops, inv: nat, arg: int)
    requires QueueInv(o) && inv < |o.inverters|
    ensures var t := Enqueue(o, THROTTLE, inv, arg);
            if Without(o.q.queue, THROTTLE, inv) && |o.q.queue| == MAX_OPS then t == o
            else t.q.accepted == o.q.accepted + [Op(THROTTLE, inv, arg)] && Limits(t.q.queue, inv) == [arg]
  {
    var k := Find(o.q.queue, THROTTLE, inv);
    if k < |o.q.queue| {
      OneLimit(o.q.queue[k := Op(THROTTLE, inv, arg)], k);
    } else {
      NoLimits(o.q.queue, inv);
      LimitsAppend(o.q.queue, Op(THROTTLE, inv, arg), inv);
    }
  }

  // ------------------------------------------------------------------------------------------------------------------
  // Progress: the running operation only moves forward, and not for ever
  // ------------------------------------------------------------------------------------------------------------------

  /** Retries left, then steps left, then the frame of the step not yet queued. */
  predicate Closer(r: Running, r0: Running) {
    r.attempt > r0.attempt ||
    (r.attempt == r0.attempt &&
     (|r.steps| - r.stepIdx < |r0.steps| - r0.stepIdx ||
      (|r.steps| - r.stepIdx == |r0.steps| - r0.stepIdx && r.sendIssued && !r0.sendIssued)))
  }

  function SendsIn(steps: seq<OpStep>): nat {
    if steps == [] then 0 else SendsIn(steps[..|steps| - 1]) + if steps[|steps| - 1].Send? then 1 else 0
  }

  /** How many frames one pass over the steps of an operation queues at most. */
  function PerPass(k: OpKind): nat {
    match k
    case THROTTLE => 3
    case NORMAL_OPS => 2
    case PAIR => 4
    case _ => 1
  }

  /** What every state of a running operation satisfies. */
  predicate RunInv(cfg: Config, inverters: seq<Inverter>, r: Running) {
    r.active ==>
      && r.steps == StepList(cfg, inverters, r.cur) && r.stepIdx <= |r.steps| && r.attempt <= RESPONSE_RETRIES
      && (!Answering(r.cur.kind) ==> r.attempt == 0 && r.ok)
      && (Answering(r.cur.kind) ==> r.ok == r.gotResponse)
      && (r.sendIssued ==> r.stepIdx < |r.steps| && r.steps[r.stepIdx].Send?)
      && r.sends <= r.attempt * PerPass(r.cur.kind) + SendsIn(r.steps[..r.stepIdx]) + (if r.sendIssued then 1 else 0)
  }

  lemma SendsStep(steps: seq<OpStep>, k: nat)
    requires k < |steps|
    ensures SendsIn(steps[..k + 1]) == SendsIn(steps[..k]) + if steps[k].Send? then 1 else 0
  {
    assert steps[..k + 1][..k] == steps[..k];
  }

  lemma {:induction false} SendsGrow(steps: seq<OpStep>, k: nat, n: nat)
    requires k <= n <= |steps|
    ensures SendsIn(steps[..k]) <= SendsIn(steps[..n])
  {
    if k < n {
      SendsGrow(steps, k, n - 1);
      SendsStep(steps, n - 1);
    }
  }

  lemma SendsOfNone()
    ensures SendsIn([]) == 0
  {
  }

  lemma SendsOfTwo(a: OpStep, b: OpStep)
    ensures SendsIn([a, b]) == (if a.Send? then 1 else 0) + (if b.Send? then 1 else 0)
  {
    assert [a, b][..1] == [a] && [a][..0] == [];
    assert SendsIn([a]) == if a.Send? then 1 else 0;
  }

  lemma {:induction false} SendsConcat(a: seq<OpStep>, b: seq<OpStep>)
    ensures SendsIn(a + b) == SendsIn(a) + SendsIn(b)
  {
    if b == [] {
      assert a + b == a;
    } else {
      var n := |b| - 1;
      assert (a + b)[..|a + b| - 1] == a + b[..n];
      SendsConcat(a, b[..n]);
    }
  }

  /** One pass queues no more frames than said, and only operations that wait for an answer have a wait in their
      list. */
  lemma PassBound(cfg: Config, inverters: seq<Inverter>, op: Op)
    ensures SendsIn(StepList(cfg, inverters, op)) <= PerPass(op.kind)
    ensures forall k | 0 <= k < |StepList(cfg, inverters, op)| ::
              StepList(cfg, inverters, op)[k].Await? ==> Answering(op.kind)
  {
    hide SendsIn;
    SendsOfNone();
    var s := StepList(cfg, inverters, op);
    if op.kind == PAIR && s != [] {
      SendsOfTwo(PairStep(0)[0], PairStep(0)[1]);
      SendsOfTwo(PairStep(1)[0], PairStep(1)[1]);
      SendsOfTwo(PairStep(2)[0], PairStep(2)[1]);
      SendsOfTwo(PairStep(3)[0], PairStep(3)[1]);
      SendsConcat(PairStep(0), PairStep(1));
      SendsConcat(PairStep(0) + PairStep(1), PairStep(2));
      SendsConcat(PairStep(0) + PairStep(1) + PairStep(2), PairStep(3));
    } else if |s| == 4 {
      SendsOfTwo(s[0], s[1]);
      SendsOfTwo(s[2], s[3]);
      assert s == [s[0], s[1]] + [s[2], s[3]];
      SendsConcat([s[0], s[1]], [s[2], s[3]]);
    } else if |s| == 6 {
      SendsOfTwo(s[0], s[1]);
      SendsOfTwo(s[2], s[3]);
      SendsOfTwo(s[4], s[5]);
      assert s == [s[0], s[1]] + [s[2], s[3]] + [s[4], s[5]];
      SendsConcat([s[0], s[1]], [s[2], s[3]]);
      SendsConcat([s[0], s[1]] + [s[2], s[3]], [s[4], s[5]]);
    } else if |s| == 2 {
      SendsOfTwo(s[0], s[1]);
      assert s == [s[0], s[1]];
    }
  }

  ghost predicate Advanced(cfg: Config, inverters: seq<Inverter>, r: Running, next: (Running, Option<bool>)) {
    (next.1.None? ==> RunInv(cfg, inverters, next.0) && (next.0 == r || Closer(next.0, r))) &&
    (next.1 == Some(true) && Answering(r.cur.kind) ==> r.gotResponse)
  }

  lemma SendKeepsRun(cfg: Config, inverters: seq<Inverter>, r: Running, tx: Tx, now: u32)
    requires r.active && RunInv(cfg, inverters, r) && r.stepIdx < |r.steps| && r.steps[r.stepIdx].Send?
    ensures Advanced(cfg, inverters, r, Advance(cfg, inverters, r, tx, now))
  {
    SendsStep(r.steps, r.stepIdx);
  }

  lemma AwaitKeepsRun(cfg: Config, inverters: seq<Inverter>, r: Running, tx: Tx, now: u32)
    requires r.active && RunInv(cfg, inverters, r) && r.stepIdx < |r.steps| && r.steps[r.stepIdx].Await?
    ensures Advanced(cfg, inverters, r, Advance(cfg, inverters, r, tx, now))
  {
    PassBound(cfg, inverters, r.cur);
    SendsStep(r.steps, r.stepIdx);
    SendsGrow(r.steps, r.stepIdx, |r.steps|);
    assert r.steps[..|r.steps|] == r.steps;
    assert r.steps[..0] == [];
    assert (r.attempt + 1) * PerPass(r.cur.kind) == r.attempt * PerPass(r.cur.kind) + PerPass(r.cur.kind);
  }

  lemma AdvanceKeepsRun(cfg: Config, inverters: seq<Inverter>, r: Running, tx: Tx, now: u32)
    requires r.active && RunInv(cfg, inverters, r)
    ensures Advanced(cfg, inverters, r, Advance(cfg, inverters, r, tx, now))
  {
    if r.stepIdx < |r.steps| {
      match r.steps[r.stepIdx]
      case Send(_) => SendKeepsRun(cfg, inverters, r, tx, now);
      case Delay(_) => SendsStep(r.steps, r.stepIdx);
      case Await(_) => AwaitKeepsRun(cfg, inverters, r, tx, now);
    }
  }

  lemma BeginKeepsRun(cfg: Config, inverters: seq<Inverter>, r: Running, op: Op, now: u32)
    ensures RunInv(cfg, inverters, Begin(cfg, inverters, r, op, now))
  {
    var b := Begin(cfg, inverters, r, op, now);
    assert b.steps[..0] == [];
  }

  lemma AnswerKeepsRun(cfg: Config, inverters: seq<Inverter>, r: Running, a: Answer)
    requires RunInv(cfg, inverters, r)
    ensures RunInv(cfg, inverters, OnAnswer(r, a))
  {
  }

  lemma OperateKeepsRun(cfg: Config, h: Hub, now: u32, ready: bool)
    requires RunInv(cfg, h.ops.inverters, h.ops.r)
    ensures var t := HubNext(cfg, h, Operate(now, ready)); RunInv(cfg, t.ops.inverters, t.ops.r)
  {
    var o := h.ops;
    if o.r.active {
      AdvanceKeepsRun(cfg, o.inverters, o.r, h.tx, now);
    } else if o.q.queue != [] && ready {
      BeginKeepsRun(cfg, o.inverters, o.r, o.q.queue[0], now);
    }
  }

  /** Over every run: the running operation is in the state described by RunInv. */
  lemma RunKept(cfg: Config, h: Hub, events: seq<HubEvent>)
    requires Initial(h)
    ensures RunInv(cfg, HubRun(cfg, h, events).ops.inverters, HubRun(cfg, h, events).ops.r)
  {
    HubRunKeepsInv(cfg, h, events);
  }

  /** Over every run: each call of run_op_ that leaves an operation running and changes it brings it closer to its end;
      no operation makes more than three passes over its steps, or queues more frames than three passes hold. */
  lemma OperationsEnd(cfg: Config, h: Hub, events: seq<HubEvent>, now: u32, ready: bool)
    requires Initial(h) && HubRun(cfg, h, events).ops.r.active
    ensures var r := HubRun(cfg, h, events).ops.r;
            var r' := HubNext(cfg, HubRun(cfg, h, events), Operate(now, ready)).ops.r;
            r.attempt <= RESPONSE_RETRIES &&
            r.sends <= (if Answering(r.cur.kind) then 3 else 1) * PerPass(r.cur.kind) &&
            (r'.active ==> r' == r || Closer(r', r))
  {
    RunKept(cfg, h, events);
    var t := HubRun(cfg, h, events);
    var r := t.ops.r;
    AdvanceKeepsRun(cfg, t.ops.inverters, r, t.tx, now);
    SendsBound(cfg, t.ops.inverters, r);
  }

  lemma SendsBound(cfg: Config, inverters: seq<Inverter>, r: Running)
    requires r.active && RunInv(cfg, inverters, r)
    ensures r.sends <= (if Answering(r.cur.kind) then 3 else 1) * PerPass(r.cur.kind)
  {
    hide StepList, PerPass;
    PassBound(cfg, inverters, r.cur);
    SendsGrow(r.steps, r.stepIdx, |r.steps|);
    assert r.steps[..|r.steps|] == r.steps;
    if r.sendIssued {
      SendsStep(r.steps, r.stepIdx);
      SendsGrow(r.steps, r.stepIdx + 1, |r.steps|);
    }
    AttemptsTimes(r.attempt, PerPass(r.cur.kind));
  }

  lemma AttemptsTimes(attempt: nat, perPass: nat)
    requires attempt <= 2
    ensures attempt * perPass <= 2 * perPass
    ensures attempt == 0 ==> attempt * perPass == 0
  {
  }

  // ------------------------------------------------------------------------------------------------------------------
  // Success only with an answer
  // ------------------------------------------------------------------------------------------------------------------

  /** The same pass of the same operation. */
  predicate SamePass(a: Ops, b: Ops) {
    a.r.active && b.r.active && a.r.cur == b.r.cur && a.r.attempt == b.r.attempt && a.q.started == b.q.started
  }

  /** Event `j` of a run was the answer the operation waited for, and the run has stayed in the same pass since. */
  predicate AnsweredBy(cfg: Config, h: Hub, events: seq<HubEvent>, j: nat) {
    j < |events| && events[j].Received? && Expected(HubRun(cfg, h, events[..j]).ops.r, events[j].a) &&
    forall k | j <= k <= |events| :: SamePass(HubRun(cfg, h, events[..k]).ops, HubRun(cfg, h, events).ops)
  }

  lemma StepKeepsPass(cfg: Config, h: Hub, e: HubEvent)
    requires HubNext(cfg, h, e).ops.r.active && HubNext(cfg, h, e).ops.r.gotResponse
    requires !(e.Received? && Expected(h.ops.r, e.a))
    ensures h.ops.r.gotResponse && SamePass(h.ops, HubNext(cfg, h, e).ops)
  {
    match e
    case Request(kind, inv, arg) =>
    case Received(a) =>
    case SendFrame(f) =>
    case Transmit(now, r) =>
    case Operate(now, ready) =>
      if h.ops.r.active {
        AdvanceKeepsOp(cfg, h.ops.inverters, h.ops.r, h.tx, now);
      }
  }

  lemma AnsweredStays(cfg: Config, h: Hub, events: seq<HubEvent>, e: HubEvent, j: nat)
    requires AnsweredBy(cfg, h, events, j)
    requires SamePass(HubRun(cfg, h, events).ops, HubRun(cfg, h, events + [e]).ops)
    ensures AnsweredBy(cfg, h, events + [e], j)
  {
    var all := events + [e];
    forall k | j <= k <= |all| ensures SamePass(HubRun(cfg, h, all[..k]).ops, HubRun(cfg, h, all).ops) {
      if k <= |events| {
        assert all[..k] == events[..k];
      } else {
        assert all[..k] == all;
      }
    }
    assert all[..j] == events[..j];
  }

  lemma RunSteps(cfg: Config, h: Hub, events: seq<HubEvent>, e: HubEvent)
    ensures HubRun(cfg, h, events + [e]) == HubNext(cfg, HubRun(cfg, h, events), e)
  {
    assert (events + [e])[..|events|] == events;
  }

  lemma AnswerKeepsPass(cfg: Config, h: Hub, e: HubEvent)
    requires e.Received? && Expected(h.ops.r, e.a)
    ensures SamePass(h.ops, HubNext(cfg, h, e).ops) && SamePass(HubNext(cfg, h, e).ops, HubNext(cfg, h, e).ops)
  {
  }

  lemma AnsweredNow(cfg: Config, h: Hub, events: seq<HubEvent>, e: HubEvent)
    requires e.Received? && Expected(HubRun(cfg, h, events).ops.r, e.a)
    ensures AnsweredBy(cfg, h, events + [e], |events|)
  {
    var all, n := events + [e], |events|;
    RunSteps(cfg, h, events, e);
    AnswerKeepsPass(cfg, HubRun(cfg, h, events), e);
    assert all[..n] == events;
    forall k | n <= k <= |all| ensures SamePass(HubRun(cfg, h, all[..k]).ops, HubRun(cfg, h, all).ops) {
      if k == n {
        assert all[..k] == events;
      } else {
        assert all[..k] == all;
      }
    }
  }

  /** Over every run: a running operation that has its answer got it from its own inverter inside the answer window. */
  lemma {:induction false} AnswerFor(cfg: Config, h: Hub, events: seq<HubEvent>) returns (j: nat)
    requires Initial(h)
    requires HubRun(cfg, h, events).ops.r.active && HubRun(cfg, h, events).ops.r.gotResponse
    ensures AnsweredBy(cfg, h, events, j)
  {
    var n := |events| - 1;
    var t, e := HubRun(cfg, h, events[..n]), events[n];
    assert events == events[..n] + [e];
    if e.Received? && Expected(t.ops.r, e.a) {
      j := n;
      AnsweredNow(cfg, h, events[..n], e);
    } else {
      StepKeepsPass(cfg, t, e);
      j := AnswerFor(cfg, h, events[..n]);
      AnsweredStays(cfg, h, events[..n], e, j);
    }
  }

  /** Over every run: a poll, a query or a power limit is reported as successful only if, in the pass that ends, a
      decoded answer from its own inverter (plausible, for a poll) arrived inside the answer window. */
  lemma SuccessMeansAnswered(cfg: Config, h: Hub, events: seq<HubEvent>, now: u32, ready: bool) returns (j: nat)
    requires Initial(h)
    requires var o := HubRun(cfg, h, events).ops;
             var o' := HubNext(cfg, HubRun(cfg, h, events), Operate(now, ready)).ops;
             |o'.outcomes| > |o.outcomes| && o'.outcomes[|o.outcomes|].1 && Answering(o'.outcomes[|o.outcomes|].0.kind)
    ensures var o := HubRun(cfg, h, events).ops;
            var o' := HubNext(cfg, HubRun(cfg, h, events), Operate(now, ready)).ops;
            o'.outcomes[|o.outcomes|].0 == o.r.cur && AnsweredBy(cfg, h, events, j)
  {
    var t := HubRun(cfg, h, events);
    RunKept(cfg, h, events);
    if t.ops.r.active {
      AdvanceKeepsRun(cfg, t.ops.inverters, t.ops.r, t.tx, now);
      AdvanceKeepsOp(cfg, t.ops.inverters, t.ops.r, t.tx, now);
    }
    j := AnswerFor(cfg, h, events);
  }

  // ------------------------------------------------------------------------------------------------------------------
  // The two engines together
  // ------------------------------------------------------------------------------------------------------------------

  /** The job an operation waits for has been issued. */
  ghost predicate Linked(h: Hub) {
    TxInv(h.tx) &&
    (h.ops.r.active && h.ops.r.sendIssued ==>
       h.ops.r.sendNumber <= h.tx.issued && h.ops.r.sendJobId == Id(h.ops.r.sendNumber))
  }

  lemma OperateKeepsLink(cfg: Config, h: Hub, now: u32, ready: bool)
    requires Linked(h)
    ensures Linked(HubNext(cfg, h, Operate(now, ready)))
  {
    if ToSend(h.ops.r).Some? {
      QueueKeepsInv(h.tx, ToSend(h.ops.r).value);
    }
  }

  /** What holds of both engines between any two events. */
  ghost predicate HubInv(cfg: Config, h: Hub) {
    Linked(h) && QueueInv(h.ops) && RunInv(cfg, h.ops.inverters, h.ops.r)
  }

  lemma HubNextKeepsInv(cfg: Config, h: Hub, e: HubEvent)
    requires HubInv(cfg, h)
    ensures HubInv(cfg, HubNext(cfg, h, e))
  {
    match e
    case Request(kind, inv, arg) => RequestKeepsInv(cfg, h, kind, inv, arg);
    case Received(a) => ReceivedKeepsInv(cfg, h, a);
    case SendFrame(f) => FrameKeepsInv(cfg, h, f);
    case Transmit(now, r) => TransmitKeepsInv(cfg, h, now, r);
    case Operate(now, ready) => OperateKeepsInv(cfg, h, now, ready);
  }

  lemma RequestKeepsInv(cfg: Config, h: Hub, kind: OpKind, inv: nat, arg: int)
    requires HubInv(cfg, h)
    ensures HubInv(cfg, h.(ops := Enqueue(h.ops, kind, inv, arg)))
  {
    hide TxInv, QueueInv, RunInv;
    EnqueueKeepsQueue(h.ops, kind, inv, arg);
  }

  lemma ReceivedKeepsInv(cfg: Config, h: Hub, a: Answer)
    requires HubInv(cfg, h)
    ensures HubInv(cfg, h.(ops := h.ops.(r := OnAnswer(h.ops.r, a))))
  {
    hide TxInv, RunInv;
    AnswerKeepsRun(cfg, h.ops.inverters, h.ops.r, a);
  }

  lemma FrameKeepsInv(cfg: Config, h: Hub, f: Outgoing)
    requires HubInv(cfg, h)
    ensures HubInv(cfg, h.(tx := QueueTx(h.tx, f)))
  {
    hide TxInv, RunInv, QueueInv;
    QueueKeepsInv(h.tx, f);
  }

  lemma TransmitKeepsInv(cfg: Config, h: Hub, now: u32, r: Radio)
    requires HubInv(cfg, h)
    ensures HubInv(cfg, h.(tx := ProcessTx(h.tx, now, r)))
  {
    hide TxInv, RunInv, QueueInv;
    NextKeepsInv(h.tx, Process(now, r));
    assert ProcessTx(h.tx, now, r).issued == h.tx.issued;
  }

  lemma OperateKeepsInv(cfg: Config, h: Hub, now: u32, ready: bool)
    requires HubInv(cfg, h)
    ensures HubInv(cfg, HubNext(cfg, h, Operate(now, ready)))
  {
    hide TxInv, RunInv, QueueInv, Linked;
    OperateKeepsLink(cfg, h, now, ready);
    RunOpKeepsQueue(cfg, h.ops, h.tx, now, ready);
    OperateKeepsRun(cfg, h, now, ready);
  }

  lemma InitialInv(cfg: Config, h: Hub)
    requires Initial(h)
    ensures HubInv(cfg, h)
  {
    TxEngine.RunKeepsInv(h.tx, []);
  }

  lemma {:induction false} HubRunKeepsInv(cfg: Config, h: Hub, events: seq<HubEvent>)
    requires Initial(h)
    ensures HubInv(cfg, HubRun(cfg, h, events))
  {
    if events == [] {
      InitialInv(cfg, h);
    } else {
      var n := |events| - 1;
      HubRunKeepsInv(cfg, h, events[..n]);
      HubNextKeepsInv(cfg, HubRun(cfg, h, events[..n]), events[n]);
    }
  }

  lemma LinkKept(cfg: Config, h: Hub, events: seq<HubEvent>)
    requires Initial(h)
    ensures Linked(HubRun(cfg, h, events))
  {
    HubRunKeepsInv(cfg, h, events);
  }

  /** Over every run of both engines: for an operation that waits for its frame to be sent, that job or a newer one has
      ended or one is pending, so that the loss of its job to a full queue does not leave it waiting for nothing. With
      nothing pending the test of the source finds that out exactly when no round of the ids has ended since. */
  lemma OperationNotStranded(cfg: Config, h: Hub, events: seq<HubEvent>)
    requires Initial(h) && HubRun(cfg, h, events).ops.r.active && HubRun(cfg, h, events).ops.r.sendIssued
    ensures var t := HubRun(cfg, h, events); var p, n := Pending(t.tx), t.ops.r.sendNumber;
            && t.ops.r.sendJobId == Id(n)
            && (Ended(t.tx, n) || (p != [] && p[|p| - 1].number >= n))
            && (p == [] && t.tx.issued - n < TWO32 ==>
                  (Released(t.tx, t.ops.r.sendJobId) <==> Round(t.tx.issued) == Round(n)))
  {
    hide Id, Round;
    LinkKept(cfg, h, events);
    TestIsRight(HubRun(cfg, h, events).tx.done, HubRun(cfg, h, events).ops.r.sendNumber);
  }

  // ------------------------------------------------------------------------------------------------------------------
  // How long an operation runs
  // ------------------------------------------------------------------------------------------------------------------

  /** More than the steps of one pass can take. */
  const PASS_WORK := 18

  /** What is left to do for a running operation: passes, steps, and whether the frame of the step is queued. */
  function Work(r: Running): int {
    (RESPONSE_RETRIES - r.attempt) * PASS_WORK + 2 * (|r.steps| - r.stepIdx) + if r.sendIssued then 0 else 1
  }

  /** A call of run_op_ at this time goes on. */
  predicate CanMove(r: Running, tx: Tx, now: u32) {
    r.active &&
    (r.stepIdx >= |r.steps| ||
     match r.steps[r.stepIdx]
     case Send(_) => !r.sendIssued || Released(tx, r.sendJobId)
     case Delay(ms) => Sub32(now, r.stepStarted) >= ms
     case Await(ms) => r.gotResponse || Sub32(now, r.stepStarted) >= ms)
  }

  lemma FewSteps(cfg: Config, inverters: seq<Inverter>, op: Op)
    ensures |StepList(cfg, inverters, op)| <= 8
  {
  }

  lemma WorkBound(cfg: Config, inverters: seq<Inverter>, r: Running)
    requires r.active && RunInv(cfg, inverters, r)
    ensures 0 <= Work(r) < 3 * PASS_WORK
  {
    hide StepList, SendsIn;
    FewSteps(cfg, inverters, r.cur);
  }

  lemma MovesDown(cfg: Config, inverters: seq<Inverter>, r: Running, tx: Tx, now: u32)
    requires r.active && RunInv(cfg, inverters, r)
    ensures var (next, verdict) := Advance(cfg, inverters, r, tx, now);
            if CanMove(r, tx, now) then verdict.None? ==> Work(next) < Work(r) else verdict.None? && next == r
  {
    hide StepList, SendsIn;
    FewSteps(cfg, inverters, r.cur);
  }

  /** Everything left to do, the frames queued included. */
  function Potential(h: Hub): int {
    (1 + 2 * MAX_TX_ATTEMPTS) * Work(h.ops.r) + Effort(h.tx)
  }

  /** A call that brings the running operation, or the frames it may be waiting for, closer to their end. */
  ghost predicate Effective(h: Hub, e: HubEvent) {
    match e
    case Transmit(now, r) => Productive(h.tx, Process(now, r)) && Pending(h.tx) != []
    case Operate(now, _) => CanMove(h.ops.r, h.tx, now)
    case _ => false
  }

  ghost function One(b: bool): nat {
    if b then 1 else 0
  }

  /** The operation running in `h` still runs in `t`, `gain` closer to its end. */
  ghost predicate StillRuns(h: Hub, t: Hub, gain: int) {
    t.ops.outcomes == h.ops.outcomes && t.ops.r.active && t.ops.r.cur == h.ops.r.cur &&
    Potential(t) + gain <= Potential(h)
  }

  /** It has ended, and what came of it is noted. */
  ghost predicate HasEnded(h: Hub, t: Hub) {
    var n := |h.ops.outcomes|;
    n < |t.ops.outcomes| && t.ops.outcomes[..n] == h.ops.outcomes && t.ops.outcomes[n].0 == h.ops.r.cur
  }

  lemma FinishNotes(o: Ops, ok: bool)
    ensures var t := Finish(o, ok); t.outcomes == o.outcomes + [(o.r.cur, ok)] && !t.r.active
  {
    hide Accept, Refused;
  }

  lemma ConcludeNotes(o: Ops, r: Running, verdict: Option<bool>)
    ensures var t := Conclude(o, r, verdict);
            if verdict.None? then t == o.(r := r) else t.outcomes == o.outcomes + [(r.cur, verdict.value)]
  {
    hide Finish;
    if verdict.Some? {
      FinishNotes(o.(r := r), verdict.value);
    }
  }

  lemma OperateGains(cfg: Config, h: Hub, now: u32, ready: bool)
    requires HubInv(cfg, h) && h.ops.r.active
    ensures var t, e := HubNext(cfg, h, Operate(now, ready)), Operate(now, ready);
            HasEnded(h, t) || StillRuns(h, t, One(Effective(h, e)))
  {
    hide TxInv, RunInv, QueueInv, Work, Effort, CanMove, QueueTx, Advance, Conclude;
    var r := h.ops.r;
    var (next, verdict) := Advance(cfg, h.ops.inverters, r, h.tx, now);
    MovesDown(cfg, h.ops.inverters, r, h.tx, now);
    AdvanceKeepsOp(cfg, h.ops.inverters, r, h.tx, now);
    ConcludeNotes(h.ops, next, verdict);
    if ToSend(r).Some? {
      QueueEffort(h.tx, ToSend(r).value);
      SendMoves(r, h.tx, now);
    }
  }

  lemma SendMoves(r: Running, tx: Tx, now: u32)
    requires ToSend(r).Some?
    ensures CanMove(r, tx, now)
  {
  }

  lemma TransmitGains(cfg: Config, h: Hub, now: u32, r: Radio)
    requires HubInv(cfg, h) && h.ops.r.active
    ensures var t, e := HubNext(cfg, h, Transmit(now, r)), Transmit(now, r);
            StillRuns(h, t, One(Effective(h, e)))
  {
    hide RunInv, QueueInv, Work, Effort, Productive, ProcessTx, Pending, Bounds, Ordered;
    NextEffort(h.tx, Process(now, r));
  }

  lemma OthersGain(cfg: Config, h: Hub, e: HubEvent)
    requires HubInv(cfg, h) && h.ops.r.active && !e.Operate? && !e.Transmit?
    ensures StillRuns(h, HubNext(cfg, h, e), -2 * MAX_TX_ATTEMPTS * One(e.SendFrame?))
  {
    hide TxInv, RunInv, QueueInv, Effort, QueueTx, Accept;
    match e
    case Request(_, _, _) =>
    case Received(_) =>
    case SendFrame(f) => QueueEffort(h.tx, f);
  }

  lemma NextGains(cfg: Config, h: Hub, e: HubEvent)
    requires HubInv(cfg, h) && h.ops.r.active
    ensures var t := HubNext(cfg, h, e);
            HasEnded(h, t) || StillRuns(h, t, One(Effective(h, e)) - 2 * MAX_TX_ATTEMPTS * One(e.SendFrame?))
  {
    hide HubInv, HubNext, StillRuns, HasEnded, Effective;
    match e
    case Operate(now, ready) => OperateGains(cfg, h, now, ready);
    case Transmit(now, r) => TransmitGains(cfg, h, now, r);
    case Request(_, _, _) =>
      NotEffective(h, e);
      OthersGain(cfg, h, e);
    case Received(_) =>
      NotEffective(h, e);
      OthersGain(cfg, h, e);
    case SendFrame(_) =>
      NotEffective(h, e);
      OthersGain(cfg, h, e);
  }

  lemma NotEffective(h: Hub, e: HubEvent)
    requires !e.Operate? && !e.Transmit?
    ensures !Effective(h, e)
  {
  }

  lemma OutcomesGrow(cfg: Config, h: Hub, e: HubEvent)
    ensures h.ops.outcomes <= HubNext(cfg, h, e).ops.outcomes
  {
    hide QueueTx, ProcessTx, Advance, Accept, Refused, Begin, Conclude;
    match e
    case Request(_, _, _) =>
    case Received(_) =>
    case SendFrame(_) =>
    case Transmit(_, _) =>
    case Operate(now, ready) =>
      var o := h.ops;
      if o.r.active {
        var (r, verdict) := Advance(cfg, o.inverters, o.r, h.tx, now);
        ConcludeNotes(o, r, verdict);
      } else if o.q.queue != [] && ready {
        var r := Begin(cfg, o.inverters, o.r, o.q.queue[0], now);
        ConcludeNotes(o.(q := TakeNext(o.q)), r, if r.steps == [] then Some(false) else None);
      }
  }

  /** The effective calls of a run after its first `m` events, and the frames queued by others. */
  ghost function EffectiveSince(cfg: Config, h: Hub, events: seq<HubEvent>, m: nat): nat {
    if |events| <= m then 0
    else
      var l := |events| - 1;
      EffectiveSince(cfg, h, events[..l], m) + One(Effective(HubRun(cfg, h, events[..l]), events[l]))
  }

  ghost function FramesSince(events: seq<HubEvent>, m: nat): nat {
    if |events| <= m then 0
    else FramesSince(events[..|events| - 1], m) + One(events[|events| - 1].SendFrame?)
  }

  lemma {:induction false} EndedOrGains(cfg: Config, h: Hub, events: seq<HubEvent>, m: nat)
    requires Initial(h) && m <= |events| && HubRun(cfg, h, events[..m]).ops.r.active
    ensures var from, t := HubRun(cfg, h, events[..m]), HubRun(cfg, h, events);
            HasEnded(from, t) ||
            StillRuns(from, t, EffectiveSince(cfg, h, events, m) - 2 * MAX_TX_ATTEMPTS * FramesSince(events, m))
  {
    hide HubNext, Potential, Effective;
    if m == |events| {
      assert events[..m] == events;
    } else {
      var l := |events| - 1;
      var before := events[..l];
      assert before[..m] == events[..m];
      EndedOrGains(cfg, h, before, m);
      HubRunKeepsInv(cfg, h, before);
      OutcomesGrow(cfg, HubRun(cfg, h, before), events[l]);
      if !HasEnded(HubRun(cfg, h, events[..m]), HubRun(cfg, h, before)) {
        NextGains(cfg, HubRun(cfg, h, before), events[l]);
      }
    }
  }

  const OPERATION_BOUND := (1 + 2 * MAX_TX_ATTEMPTS) * (3 * PASS_WORK - 1) + 2 * MAX_TX_ATTEMPTS * MAX_PENDING

  lemma PotentialBound(cfg: Config, h: Hub)
    requires HubInv(cfg, h) && h.ops.r.active
    ensures 0 <= Potential(h) <= OPERATION_BOUND
  {
    hide RunInv, QueueInv, Work, Effort, Bounds, Ordered;
    WorkBound(cfg, h.ops.inverters, h.ops.r);
    EffortBound(h.tx);
  }

  /** Liveness over every run: whatever else happens, a running operation has ended, and its outcome is noted, after
      more effective calls than this bound (479) and six for each frame that others queue meanwhile. */
  lemma OperationEndsInTime(cfg: Config, h: Hub, events: seq<HubEvent>, m: nat)
    requires Initial(h) && m <= |events| && HubRun(cfg, h, events[..m]).ops.r.active
    requires EffectiveSince(cfg, h, events, m) > OPERATION_BOUND + 2 * MAX_TX_ATTEMPTS * FramesSince(events, m)
    ensures HasEnded(HubRun(cfg, h, events[..m]), HubRun(cfg, h, events))
  {
    hide HubRun, EffectiveSince, FramesSince, Potential, HubInv;
    EndedOrGains(cfg, h, events, m);
    HubRunKeepsInv(cfg, h, events);
    HubRunKeepsInv(cfg, h, events[..m]);
    PotentialBound(cfg, HubRun(cfg, h, events[..m]));
    if !HasEnded(HubRun(cfg, h, events[..m]), HubRun(cfg, h, events)) {
      PotentialBound(cfg, HubRun(cfg, h, events));
    }
  }

  /** The time of the step is up, if it waits for a time. */
  predicate TimeUp(r: Running, now: u32) {
    r.stepIdx < |r.steps| ==>
      match r.steps[r.stepIdx]
      case Send(_) => true
      case Delay(ms) => Sub32(now, r.stepStarted) >= ms
      case Await(ms) => Sub32(now, r.stepStarted) >= ms
  }

  /** Every productive call of process_tx_ is effective. */
  ghost predicate FramesGoOn(h: Hub) {
    forall now, r :: Productive(h.tx, Process(now, r)) ==> Effective(h, Transmit(now, r))
  }

  /** And such calls are always possible: over every run, unless a round of the ids ended while the operation waited, a
      call of run_op_ once the time of the step is up is effective, or a productive one of process_tx_ is. */
  lemma OperationCanGoOn(cfg: Config, h: Hub, events: seq<HubEvent>, now: u32, ready: bool)
    requires Initial(h)
    requires var t := HubRun(cfg, h, events);
             t.ops.r.active && TimeUp(t.ops.r, now) &&
             (t.ops.r.sendIssued ==> Round(t.tx.issued) == Round(t.ops.r.sendNumber))
    ensures var t := HubRun(cfg, h, events);
            Effective(t, Operate(now, ready)) || FramesGoOn(t)
  {
    hide Id, Round, Productive, StepList;
    var t := HubRun(cfg, h, events);
    if t.ops.r.sendIssued && Pending(t.tx) == [] {
      LinkKept(cfg, h, events);
      TestIsRight(t.tx.done, t.ops.r.sendNumber);
    }
  }
}
