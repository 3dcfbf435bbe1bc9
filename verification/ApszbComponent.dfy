/** The hub `APSZBComponent`: the fields of its two engines and the methods that update them, each proved to make the
    steps of `TxEngine` and `OpEngine`. */
module ApszbHub {
  import opened Words
  import opened TxEngine
  import opened OpEngine
  import opened OpTheorems
  import ApsFrames

  class ApszbComponent {
    const cfg: Config
    var inverters: seq<Inverter>

    // transmit engine
    var txq: seq<TxJob>
    var curTx: TxJob
    var txActive: bool
    var txStarted: u32
    var txNotBefore: u32
    var txIdCounter: u32
    var txDoneId: u32
    var lastTxOk: bool
    ghost var issued: nat
    ghost var done: nat
    ghost var tried: seq<nat>

    // operation engine
    var ops: seq<Op>
    var cur: Op
    var opActive: bool
    var opOk: bool
    var steps: seq<OpStep>
    var stepIdx: nat
    var stepStarted: u32
    var sendIssued: bool
    var sendJobId: u32
    var gotResponse: bool
    var attempt: nat
    var pairAddr: u16
    ghost var accepted: seq<Op>
    ghost var started: seq<Op>
    ghost var outcomes: seq<(Op, bool)>
    ghost var sends: nat
    ghost var sendNumber: nat

    /** Both engines are in a state their invariants describe; every handler keeps it that way. */
    ghost predicate Valid()
      reads this
    {
      HubInv(cfg, View())
    }

    ghost function View(): Hub
      reads this
    {
      Hub(TxView(), OpsView())
    }

    ghost function TxView(): Tx
      reads this
    {
      Tx(txq, curTx, txActive, txStarted, txNotBefore, txIdCounter, txDoneId, lastTxOk, issued, done, tried)
    }

    ghost function QView(): OpQueue
      reads this
    {
      OpQueue(ops, accepted, started)
    }

    ghost function RView(): Running
      reads this
    {
      Running(cur, opActive, opOk, steps, stepIdx, stepStarted, sendIssued, sendJobId, gotResponse, attempt, pairAddr,
              sends, sendNumber)
    }

    ghost function OpsView(): Ops
      reads this
    {
      Ops(inverters, QView(), RView(), outcomes)
    }

    constructor (cfg: Config, inverters: seq<Inverter>)
      ensures Valid() && this.cfg == cfg && this.inverters == inverters
      ensures OpTheorems.Initial(View())
    {
      this.cfg := cfg;
      this.inverters := inverters;
      txq, txActive, txStarted, txNotBefore, txIdCounter, txDoneId, lastTxOk := [], false, 0, 0, 0, 0, true;
      curTx := TxJob(Outgoing(false, 0, 0, 0, false, Other), 0, 0, 0);
      issued, done, tried := 0, 0, [];
      ops, cur, opActive, opOk, steps, stepIdx, stepStarted := [], Op(POLL, 0, 0), false, false, [], 0, 0;
      sendIssued, sendJobId, gotResponse, attempt, pairAddr := false, 0, false, 0, 0;
      accepted, started, outcomes, sends, sendNumber := [], [], [], 0, 0;
      new;
      InitialInv(cfg, View());
    }

    // ----------------------------------------------------------------------------------------------------------------
    // Transmit engine
    // ----------------------------------------------------------------------------------------------------------------

    /** queue_tx_ */
    method AppendJob(f: Outgoing) returns (id: u32)
      modifies this`txq, this`txIdCounter, this`issued
      ensures id == NewId(old(TxView())) && TxView() == QueueTx(old(TxView()), f) && issued == old(issued) + 1
    {
      if |txq| > MAX_QUEUED {
        txq := txq[1..];
      }
      txIdCounter := Add32(txIdCounter, 1);
      issued := issued + 1;
      var job := TxJob(f, txIdCounter, 0, issued);
      txq := txq + [job];
      return job.id;
    }

    method QueueFrame(f: Outgoing) returns (id: u32)
      modifies this`txq, this`txIdCounter, this`issued
      ensures id == NewId(old(TxView())) && TxView() == QueueTx(old(TxView()), f) && issued == old(issued) + 1
      ensures old(Valid()) ==> Valid()
    {
      hide HubInv, QueueTx, NewId;
      if Valid() {
        FrameKeepsInv(cfg, View(), f);
      }
      id := AppendJob(f);
    }

    method SettleTx(now: u32, r: Radio)
      modifies this`txActive, this`txDoneId, this`done, this`lastTxOk, this`txNotBefore, this`txq
      ensures TxView() == Settle(old(TxView()), now, r)
    {
      if txActive {
        var result := r.result;
        if result == -1 {
          if Sub32(now, txStarted) < TX_TIMEOUT_MS {
            return;
          }
          result := 98;
        }
        txActive := false;
        if result == 0 {
          txDoneId := curTx.id;
          done := curTx.number;
          lastTxOk := true;
        } else if curTx.attempts < MAX_TX_ATTEMPTS {
          txNotBefore := Add32(Add32(now, 4), r.jitter);
          txq := [curTx] + txq;
        } else {
          txDoneId := curTx.id;
          done := curTx.number;
          lastTxOk := false;
        }
      }
    }

    method LaunchTx(now: u32, r: Radio)
      modifies this`curTx, this`txq, this`txActive, this`txStarted, this`txDoneId, this`done, this`lastTxOk, this`tried
      ensures TxView() == Launch(old(TxView()), now, r)
    {
      if !txActive && txq != [] && Due(now, txNotBefore) && r.ready {
        curTx := txq[0];
        txq := txq[1..];
        curTx := curTx.(attempts := curTx.attempts + 1);
        tried := tried + [curTx.number];
        if r.accepts {
          txActive := true;
          txStarted := now;
        } else {
          txDoneId := curTx.id;
          done := curTx.number;
          lastTxOk := false;
        }
      }
    }

    /** process_tx_ */
    method SettleAndLaunch(now: u32, r: Radio)
      modifies this`curTx, this`txq, this`txActive, this`txStarted, this`txDoneId, this`done, this`lastTxOk,
               this`txNotBefore, this`tried
      ensures TxView() == ProcessTx(old(TxView()), now, r)
    {
      hide Settle, Launch;
      SettleTx(now, r);
      LaunchTx(now, r);
    }

    method ProcessTransmit(now: u32, r: Radio)
      requires Valid()
      modifies this`curTx, this`txq, this`txActive, this`txStarted, this`txDoneId, this`done, this`lastTxOk,
               this`txNotBefore, this`tried
      ensures Valid() && TxView() == ProcessTx(old(TxView()), now, r)
    {
      hide HubInv, ProcessTx;
      TransmitKeepsInv(cfg, View(), now, r);
      SettleAndLaunch(now, r);
    }

    // ----------------------------------------------------------------------------------------------------------------
    // Operation engine
    // ----------------------------------------------------------------------------------------------------------------

    /** Walks the queue for an operation of this kind for this inverter. */
    method FindOp(kind: OpKind, inv: nat) returns (k: nat)
      ensures k == Find(ops, kind, inv)
    {
      k := 0;
      while k < |ops| && !Same(ops[k], kind, inv)
        invariant k <= |ops|
        invariant Find(ops, kind, inv) == k + Find(ops[k..], kind, inv)
      {
        assert ops[k..][1..] == ops[k + 1..];
        k := k + 1;
      }
    }

    method OpQueued(kind: OpKind, inv: nat) returns (b: bool)
      ensures b == Queued(OpsView(), kind, inv)
    {
      if opActive && Same(cur, kind, inv) {
        return true;
      }
      var k := FindOp(kind, inv);
      return k < |ops|;
    }

    /** enqueue_op */
    method AddOp(kind: OpKind, inv: nat, arg: int)
      modifies this`ops, this`accepted
      ensures OpsView() == Enqueue(old(OpsView()), kind, inv, arg)
    {
      if inv >= |inverters| && kind != NORMAL_OPS {
        return;
      }
      if kind != THROTTLE {
        var queued := OpQueued(kind, inv);
        if queued {
          return;
        }
      }
      ghost var op := Op(kind, inv, arg);
      var k := FindOp(kind, inv);
      if kind == THROTTLE && k < |ops| {
        ops := ops[k := ops[k].(arg := arg)];
        accepted := accepted + [op];
        return;
      }
      if |ops| > 24 {
        return;
      }
      ops := ops + [Op(kind, inv, arg)];
      accepted := accepted + [op];
    }

    method EnqueueOp(kind: OpKind, inv: nat, arg: int)
      requires Valid()
      modifies this`ops, this`accepted
      ensures Valid() && OpsView() == Enqueue(old(OpsView()), kind, inv, arg)
    {
      hide HubInv, Enqueue;
      RequestKeepsInv(cfg, View(), kind, inv, arg);
      AddOp(kind, inv, arg);
    }

    method BuildStepList()
      modifies this`steps, this`stepIdx, this`sendIssued, this`gotResponse, this`pairAddr
      ensures RView() == BuildSteps(cfg, inverters, old(RView()))
    {
      steps := [];
      stepIdx := 0;
      sendIssued := false;
      gotResponse := false;
      FillSteps();
    }

    method FillSteps()
      requires steps == []
      modifies this`steps, this`pairAddr
      ensures steps == StepList(cfg, inverters, cur)
      ensures pairAddr == if cur.kind == PAIR && cur.inv < |inverters| then 0 else old(pairAddr)
    {
      if cur.inv >= |inverters| && cur.kind != NORMAL_OPS {
        return;
      }
      if cur.kind == NORMAL_OPS {
        AddSend(Outgoing(true, ApsFrames.ADDR_BROADCAST, cfg.panId, CLUSTER_ECU_TO_INV, false, NormalOps));
        AddDelay(250);
        AddSend(Outgoing(true, ApsFrames.ADDR_BROADCAST, cfg.panId, CLUSTER_ECU_TO_INV, false, NormalOps));
        AddDelay(500);
      } else if cur.kind == PAIR {
        pairAddr := 0;
        AddPairSteps();
      } else {
        var i := inverters[cur.inv];
        if !Paired(i) {
          return;
        }
        if cur.kind == POLL {
          AddUnicast(i, Payload.Poll);
          AddAwait(cfg.responseTimeout);
        } else if cur.kind == QUERY {
          AddUnicast(i, Payload.Query);
          AddAwait(cfg.responseTimeout);
        } else if cur.kind == REBOOT {
          AddUnicast(i, Payload.Reboot);
          AddDelay(1000);
        } else {
          AddUnicast(i, Payload.Throttle(cur.arg + i.calibration));
          AddDelay(800);
          AddUnicast(i, Payload.QueryFlush);
          AddDelay(800);
          AddUnicast(i, Payload.Query);
          AddAwait(cfg.responseTimeout);
        }
      }
    }

    method AddPairSteps()
      requires steps == []
      modifies this`steps
      ensures steps == PairStep(0) + PairStep(1) + PairStep(2) + PairStep(3)
    {
      for step := 0 to 4
        invariant step == 0 ==> steps == []
        invariant step == 1 ==> steps == PairStep(0)
        invariant step == 2 ==> steps == PairStep(0) + PairStep(1)
        invariant step == 3 ==> steps == PairStep(0) + PairStep(1) + PairStep(2)
        invariant step == 4 ==> steps == PairStep(0) + PairStep(1) + PairStep(2) + PairStep(3)
      {
        ghost var before := steps;
        AddSend(PairFrame(step));
        AddDelay(PAIR_STEP_MS);
        assert steps == before + PairStep(step);
      }
    }

    method AddSend(f: Outgoing)
      modifies this`steps
      ensures steps == old(steps) + [Send(f)]
    {
      steps := steps + [Send(f)];
    }

    method AddUnicast(i: Inverter, p: Payload)
      modifies this`steps
      ensures steps == old(steps) + [Unicast(cfg, i.short, p)]
    {
      AddSend(Outgoing(false, i.short, cfg.panId, CLUSTER_ECU_TO_INV, cfg.macAck, p));
    }

    method AddDelay(ms: u32)
      modifies this`steps
      ensures steps == old(steps) + [Delay(ms)]
    {
      steps := steps + [Delay(ms)];
    }

    method AddAwait(ms: u32)
      modifies this`steps
      ensures steps == old(steps) + [Await(ms)]
    {
      steps := steps + [Await(ms)];
    }

    /** A pairing that was answered: the new address, and what is queued because of it. */
    method LearnAddress()
      modifies this`inverters, this`ops, this`accepted
      ensures OpsView() == Learn(old(OpsView()))
    {
      hide Enqueue;
      if cur.kind == PAIR && cur.inv < |inverters| {
        if pairAddr != 0 {
          inverters := inverters[cur.inv := inverters[cur.inv].(short := pairAddr)];
          AddOp(NORMAL_OPS, 0, 0);
          AddOp(POLL, cur.inv, 0);
        }
      }
    }

    method FinishOp(ok: bool)
      modifies this`inverters, this`ops, this`accepted, this`opActive, this`steps, this`outcomes
      ensures OpsView() == Finish(old(OpsView()), ok)
    {
      hide Learn;
      LearnAddress();
      opActive := false;
      steps := [];
      outcomes := outcomes + [(cur, ok)];
    }

    method StartOp(op: Op, now: u32)
      modifies this`cur, this`opActive, this`attempt, this`sends, this`opOk, this`steps, this`stepIdx,
               this`sendIssued, this`gotResponse, this`pairAddr, this`stepStarted, this`inverters, this`ops,
               this`accepted, this`outcomes
      ensures var r := Begin(cfg, old(inverters), old(RView()), op, now);
              OpsView() == Conclude(old(OpsView()), r, if r.steps == [] then Some(false) else None)
    {
      BeginOp(op, now);
      if steps == [] {
        FinishOp(false);
      }
    }

    method BeginOp(op: Op, now: u32)
      modifies this`cur, this`opActive, this`attempt, this`sends, this`opOk, this`steps, this`stepIdx,
               this`sendIssued, this`gotResponse, this`pairAddr, this`stepStarted
      ensures RView() == Begin(cfg, inverters, old(RView()), op, now)
    {
      hide StepList;
      cur := op;
      opActive := true;
      attempt := 0;
      sends := 0;
      opOk := !(op.kind == POLL || op.kind == QUERY || op.kind == THROTTLE);
      BuildStepList();
      stepStarted := now;
    }

    method TakeOp() returns (op: Op)
      requires ops != []
      modifies this`ops, this`started
      ensures op == old(ops)[0] && QView() == TakeNext(old(QView()))
    {
      op := ops[0];
      ops := ops[1..];
      started := started + [op];
    }

    method Forward(now: u32)
      modifies this`stepIdx, this`stepStarted
      ensures RView() == NextStep(old(RView()), now)
    {
      stepIdx := stepIdx + 1;
      stepStarted := now;
    }

    /** The body of run_op_ for the step that is due; the verdict says whether finish_op_ follows. */
    method RunStep(now: u32) returns (verdict: Option<bool>)
      requires opActive
      modifies this`txq, this`txIdCounter, this`issued, this`sendJobId, this`sendNumber, this`sendIssued, this`sends,
               this`stepIdx, this`stepStarted, this`steps, this`gotResponse, this`pairAddr, this`attempt
      ensures (RView(), verdict) == Advance(cfg, inverters, old(RView()), old(TxView()), now)
      ensures TxView() == if ToSend(old(RView())).Some? then QueueTx(old(TxView()), ToSend(old(RView())).value)
                          else old(TxView())
    {
      hide StepList, BuildSteps, QueueTx;
      if stepIdx >= |steps| {
        return Some(opOk);
      }
      match steps[stepIdx] {
        case Send(frame) =>
          verdict := RunSend(frame, now);
          return;
        case Delay(ms) =>
          verdict := RunDelay(ms, now);
          return;
        case Await(ms) =>
          verdict := RunAwait(ms, now);
          return;
      }
    }

    method RunDelay(ms: u32, now: u32) returns (verdict: Option<bool>)
      requires opActive && stepIdx < |steps| && steps[stepIdx] == Delay(ms)
      modifies this`stepIdx, this`stepStarted
      ensures (RView(), verdict) == Advance(cfg, inverters, old(RView()), old(TxView()), now)
    {
      if Sub32(now, stepStarted) >= ms {
        Forward(now);
      }
      return None;
    }

    method RunSend(frame: Outgoing, now: u32) returns (verdict: Option<bool>)
      requires opActive && stepIdx < |steps| && steps[stepIdx] == Send(frame)
      modifies this`txq, this`txIdCounter, this`issued, this`sendJobId, this`sendNumber, this`sendIssued, this`sends,
               this`stepIdx, this`stepStarted
      ensures (RView(), verdict) == Advance(cfg, inverters, old(RView()), old(TxView()), now)
      ensures TxView() == if old(sendIssued) then old(TxView()) else QueueTx(old(TxView()), frame)
    {
      hide StepList, BuildSteps, HubInv, Valid, QueueTx;
      if !sendIssued {
        IssueFrame(frame);
      } else if txDoneId >= sendJobId {
        sendIssued := false;
        if !lastTxOk && frame.ackRequest {
          return Some(false);
        }
        Forward(now);
      }
      return None;
    }

    method IssueFrame(frame: Outgoing)
      modifies this`txq, this`txIdCounter, this`issued, this`sendJobId, this`sendNumber, this`sendIssued, this`sends
      ensures TxView() == QueueTx(old(TxView()), frame)
      ensures sendIssued && sendJobId == NewId(old(TxView())) && sendNumber == old(issued) + 1
      ensures sends == old(sends) + 1
    {
      hide QueueTx, NewId;
      sendJobId := AppendJob(frame);
      sendNumber := issued;
      sendIssued := true;
      sends := sends + 1;
    }

    method RunAwait(ms: u32, now: u32) returns (verdict: Option<bool>)
      requires opActive && stepIdx < |steps| && steps[stepIdx] == Await(ms)
      modifies this`steps, this`stepIdx, this`stepStarted, this`sendIssued, this`gotResponse, this`pairAddr,
               this`attempt
      ensures (RView(), verdict) == Advance(cfg, inverters, old(RView()), old(TxView()), now)
    {
      if gotResponse {
        Forward(now);
      } else if Sub32(now, stepStarted) >= ms {
        if attempt < RESPONSE_RETRIES {
          attempt := attempt + 1;
          BuildStepList();
          stepStarted := now;
        } else {
          return Some(false);
        }
      }
      return None;
    }

    method StartNextOp(now: u32)
      requires !opActive && ops != []
      modifies this`cur, this`opActive, this`attempt, this`sends, this`opOk, this`steps, this`stepIdx,
               this`sendIssued, this`gotResponse, this`pairAddr, this`stepStarted, this`inverters, this`ops,
               this`accepted, this`outcomes, this`started
      ensures OpsView() == StartNext(cfg, old(OpsView()), now)
    {
      var op := TakeOp();
      StartOp(op, now);
    }

    method RunActiveOp(now: u32)
      requires opActive
      modifies this
      ensures OpsView() == RunActive(cfg, old(OpsView()), old(TxView()), now)
      ensures TxView() == if ToSend(old(RView())).Some? then QueueTx(old(TxView()), ToSend(old(RView())).value)
                          else old(TxView())
    {
      hide StepList, QueueTx, Advance, Finish, ToSend;
      var verdict := RunStep(now);
      if verdict.Some? {
        FinishOp(verdict.value);
      }
    }

    /** run_op_ while no operation is active. */
    method RunIdle(now: u32, ready: bool)
      requires !opActive
      modifies this
      ensures TxView() == old(TxView())
      ensures OpsView() == RunOp(cfg, old(OpsView()), old(TxView()), now, ready)
    {
      hide Begin, Conclude, RunActive, StartNext;
      if ops == [] || !ready {
        return;
      }
      StartNextOp(now);
    }

    /** run_op_ */
    method RunOnce(now: u32, ready: bool)
      modifies this
      ensures OpsView() == RunOp(cfg, old(OpsView()), old(TxView()), now, ready)
      ensures TxView() == if ToSend(old(RView())).Some? then QueueTx(old(TxView()), ToSend(old(RView())).value)
                          else old(TxView())
    {
      if !opActive {
        RunIdle(now, ready);
      } else {
        RunActiveOp(now);
      }
    }

    method RunOperation(now: u32, ready: bool)
      requires Valid()
      modifies this
      ensures Valid()
      ensures OpsView() == RunOp(cfg, old(OpsView()), old(TxView()), now, ready)
      ensures TxView() == if ToSend(old(RView())).Some? then QueueTx(old(TxView()), ToSend(old(RView())).value)
                          else old(TxView())
    {
      hide HubInv, RunOp, ToSend, QueueTx;
      OperateKeepsInv(cfg, View(), now, ready);
      RunOnce(now, ready);
    }

    /** handle_asdu_ */
    method TakeAnswer(a: Answer)
      modifies this`pairAddr, this`gotResponse, this`opOk
      ensures RView() == OnAnswer(old(RView()), a)
    {
      var pairing := opActive && cur.kind == PAIR;
      if a.found.None? {
        return;
      }
      var idx := a.found.value;
      if pairing {
        if idx == cur.inv && a.src != 0 && a.src < 0xFFF8 {
          pairAddr := a.src;
        }
        return;
      }
      var awaiting := false;
      if opActive && idx == cur.inv && stepIdx < |steps| {
        awaiting := steps[stepIdx].Await? ||
                    (steps[stepIdx].Send? && stepIdx + 1 < |steps| && steps[stepIdx + 1].Await?);
      }
      if !awaiting {
        return;
      }
      if cur.kind == POLL {
        if !a.decoded {
          return;
        }
        if !a.plausible {
          return;
        }
        gotResponse := true;
        opOk := true;
      } else if cur.kind == QUERY || cur.kind == THROTTLE {
        if !a.decoded {
          return;
        }
        gotResponse := true;
        opOk := true;
      }
    }

    method HandleAsdu(a: Answer)
      requires Valid()
      modifies this`pairAddr, this`gotResponse, this`opOk
      ensures Valid() && RView() == OnAnswer(old(RView()), a)
    {
      hide HubInv, OnAnswer;
      ReceivedKeepsInv(cfg, View(), a);
      TakeAnswer(a);
    }
  }
}
