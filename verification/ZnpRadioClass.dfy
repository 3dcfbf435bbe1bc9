/** The class `ZnpRadio` itself: the fields it updates in place, each method proved to make the steps of `Modem`. */
module ModemDriver {
  import opened Words
  import opened Bytes
  import opened ZnpCodec
  import opened Factory
  import opened Modem

  /** The configuration commands of begin(): options, reset, extended address, role, PAN id, channel, endpoint. */
  function InitList(ieee: seq<byte>, panId: u16, channel: nat): (r: seq<InitCmd>)
    requires |ieee| == 8 && channel < 32
    ensures |r| == 7 && (forall k | 0 <= k < |r| :: |r[k].frame.data| <= 16)
  {
    var mask := (1 as bv32) << channel;
    [InitCmd(ZnpFrame(0x26, 0x05, [0x03, 0x01, 0x03]), 1000),
     InitCmd(ZnpFrame(TYPE_AREQ_SYS, 0x00, [0x00]), 3000),
     InitCmd(ZnpFrame(0x26, 0x05, [0x01, 0x08] + ieee), 1000),
     InitCmd(ZnpFrame(0x26, 0x05, [0x87, 0x01, 0x00]), 1000),
     InitCmd(ZnpFrame(0x26, 0x05, [0x83, 0x02, ToByte(panId % 0x100), ToByte(panId / 0x100)]), 1000),
     InitCmd(ZnpFrame(0x26, 0x05, [0x84, 0x04, (mask & 0xFF) as byte, ((mask >> 8) & 0xFF) as byte,
                                   ((mask >> 16) & 0xFF) as byte, ((mask >> 24) & 0xFF) as byte]), 1000),
     InitCmd(ZnpFrame(0x24, 0x00, [0x14, 0x05, 0x0F, 0x00, 0x01, 0x01, 0x00, 0x02, 0x00, 0x00, 0x15, 0x00, 0x00]),
              1000)]
  }

  /** The events of one call of loop(): the frames read from the port, then the state machine. */
  function LoopEvents(frames: seq<ZnpFrame>, now: u32): (r: seq<Event>)
    ensures |r| == |frames| + 1
  {
    seq(|frames| + 1, k requires 0 <= k <= |frames| => if k < |frames| then Frame(frames[k], now) else Tick(now))
  }

  class ZnpRadio {
    const hasReset: bool
    var phase: ModemPhase
    var init: seq<InitCmd>
    var initIdx: nat
    var stateSince: u32
    var retryAt: u32
    var initCount: u32
    var firstAnswered: bool
    var txState: int
    var transId: byte
    var rx: seq<ZnpRx>
    var dropped: u32
    var resetLine: bool
    var log: seq<Entry>

    ghost function Up(): StartUp
      reads this
    {
      StartUp(phase, init, initIdx, stateSince, retryAt, initCount, firstAnswered, resetLine, log)
    }

    ghost function Data(): Link
      reads this
    {
      Link(txState, transId, rx, dropped)
    }

    ghost function View(): ModemState
      reads this
    {
      ModemState(Up(), Data())
    }

    /** Set up by begin(), and in a state that a run can reach. */
    ghost predicate Valid()
      reads this
    {
      Inv(Up())
    }

    constructor (hasReset: bool, ieee: seq<byte>, panId: u16, channel: nat)
      requires |ieee| == 8 && channel < 32
      ensures Valid() && Initial(View()) && this.hasReset == hasReset && init == InitList(ieee, panId, channel)
    {
      this.hasReset := hasReset;
      phase, init, initIdx, stateSince, retryAt := IDLE, InitList(ieee, panId, channel), 0, 0, 0;
      initCount, firstAnswered, txState, transId, rx, dropped := 0, false, 0, 0, [], 0;
      resetLine, log := false, [];
    }

    /** Access to the port is in `log` and `resetLine`. */
    method Send(f: ZnpFrame)
      modifies this`log
      ensures log == old(log) + [Sent(f)]
    {
      log := log + [Sent(f)];
    }

    method RestartNow(now: u32)
      modifies this
      ensures Up() == Restart(old(Up()), hasReset, now) && Data() == old(Data()).(txState := 0)
    {
      initCount := Add32(initCount, 1);
      initIdx := 0;
      firstAnswered := false;
      txState := 0;
      stateSince := now;
      log := [];
      if hasReset {
        resetLine := true;
        phase := RESET_ASSERT;
      } else {
        phase := RESET_WAIT;
      }
    }

    method HandleResetInd(now: u32)
      requires Valid()
      modifies this
      ensures Up() == OnResetInd(old(Up()), hasReset, now)
      ensures Data() == if old(phase) == READY then old(Data()).(txState := 0) else old(Data())
    {
      if phase == RESET_WAIT {
        initIdx := 0;
        phase := INIT_SEND;
      } else if phase == INIT_WAIT && initIdx == 0 && !firstAnswered {
        phase := INIT_SEND;
      } else if phase == READY {
        retryAt := now;
        RestartNow(now);
      } else if phase == INIT_WAIT && init[initIdx].frame.cmd0 == TYPE_AREQ_SYS {
        firstAnswered := true;
        initIdx := initIdx + 1;
        phase := INIT_SEND;
      }
    }

    method HandleData(f: ZnpFrame)
      modifies this`txState, this`rx, this`dropped
      ensures Data() == OnData(old(Data()), f)
    {
      if f.cmd0 == TYPE_SRSP_AF && (f.cmd1 == AF_DATA_REQUEST || f.cmd1 == AF_DATA_REQUEST_EXT) {
        var status := if |f.data| >= 1 then f.data[0] else 0xFF;
        txState := if status == 0 then 0 else 1 + (status as int);
        return;
      }
      if f.cmd0 == TYPE_AREQ_AF && f.cmd1 == AF_DATA_CONFIRM {
        return;
      }
      if f.cmd0 == TYPE_AREQ_AF && f.cmd1 == AF_INCOMING_MSG {
        var m := Incoming(f);
        if m.None? {
          return;
        }
        if |rx| >= MAX_RX {
          rx := rx[1..];
          dropped := Add32(dropped, 1);
        }
        rx := rx + [m.value];
      }
    }

    /** The start-up handshakes; true when they take the frame. */
    method HandleStartFrame(f: ZnpFrame, now: u32) returns (handled: bool)
      requires Valid()
      modifies this
      ensures handled == TakenByStartUp(old(Up()), f)
      ensures Up() == if handled then OnStartFrame(old(Up()), hasReset, f, now) else old(Up())
      ensures Data() == if !IsStateChange(f) && IsResetInd(f) && old(phase) == READY then old(Data()).(txState := 0)
                        else old(Data())
    {
      if IsStateChange(f) {
        if f.data[0] == DEV_ZB_COORD {
          if phase == START_WAIT {
            phase := READY;
            log := log + [CoordinatorUp];
          }
        }
        return true;
      }
      if IsResetInd(f) {
        HandleResetInd(now);
        return true;
      }
      if phase == INIT_WAIT && initIdx < |init| {
        if Answers(f, init[initIdx].frame) {
          firstAnswered := true;
          initIdx := initIdx + 1;
          phase := INIT_SEND;
          return true;
        }
      }
      return phase == START_WAIT && f.cmd0 == 0x66 && f.cmd1 == 0x00;
    }

    method HandleFrame(f: ZnpFrame, now: u32)
      requires Valid()
      modifies this
      ensures Valid() && init == old(init)
      ensures View() == OnFrame(old(View()), hasReset, f, now)
    {
      FrameKeepsInv(Up(), hasReset, f, now);
      var handled := HandleStartFrame(f, now);
      if handled {
        return;
      }
      HandleData(f);
    }

    method SendCommand(now: u32)
      requires Valid() && phase == INIT_SEND
      modifies this`log, this`stateSince, this`phase
      ensures Up() == SendNext(old(Up()), now)
    {
      if initIdx >= |init| {
        Send(START_REQUEST);
        stateSince := now;
        phase := START_WAIT;
        return;
      }
      Send(init[initIdx].frame);
      stateSince := now;
      phase := INIT_WAIT;
    }

    method GiveUp(now: u32)
      modifies this`retryAt, this`phase
      ensures Up() == old(Up()).(retryAt := Add32(now, RETRY_DELAY_MS), phase := IDLE)
    {
      retryAt := Add32(now, RETRY_DELAY_MS);
      phase := IDLE;
    }

    method RunStateMachine(now: u32)
      requires Valid()
      modifies this
      ensures Up() == OnTick(old(Up()), hasReset, now)
      ensures Data() == if old(phase) == IDLE && Due(now, old(retryAt)) then old(Data()).(txState := 0) else old(Data())
    {
      match phase {
        case IDLE =>
          if Due(now, retryAt) {
            RestartNow(now);
          }
        case RESET_ASSERT =>
          if Sub32(now, stateSince) >= RESET_PULSE_MS {
            resetLine := false;
            stateSince := now;
            phase := RESET_WAIT;
          }
        case RESET_WAIT =>
          if Sub32(now, stateSince) >= (if hasReset then RESET_BOOT_MAX_MS else RESET_SETTLE_MS) {
            initIdx := 0;
            phase := INIT_SEND;
          }
        case INIT_SEND =>
          SendCommand(now);
        case INIT_WAIT =>
          if Sub32(now, stateSince) >= init[initIdx].timeout {
            if initIdx == 0 && !firstAnswered {
              GiveUp(now);
            } else {
              initIdx := initIdx + 1;
              phase := INIT_SEND;
            }
          }
        case START_WAIT =>
          if Sub32(now, stateSince) >= START_TIMEOUT_MS {
            GiveUp(now);
          }
        case READY =>
      }
    }

    /** A request leaves: the modem owes an answer now. */
    method SendRequest(f: ZnpFrame)
      requires Valid() && phase == READY && IsDataRequest(Sent(f))
      modifies this`txState, this`transId, this`log
      ensures Valid() && Up() == old(Up()).(log := old(log) + [Sent(f)])
      ensures Data() == old(Data()).(transId := old(transId) + 1, txState := -1)
    {
      RequestKeepsInv(Up(), Sent(f));
      transId := transId + 1;
      txState := -1;
      Send(f);
    }

    method TransmitMsg(m: Msg) returns (ok: bool)
      requires Valid() && |m.asdu| <= 100
      modifies this
      ensures Valid() && ok == CanTransmit(old(View()), m)
      ensures View() == OnTransmit(old(View()), m)
    {
      if phase != READY || txState == -1 {
        return false;
      }
      if !m.valid {
        return false;
      }
      var f := DataRequest(m, transId);
      SendRequest(f);
      return true;
    }

    method PopMessage() returns (m: Option<ZnpRx>)
      requires Valid()
      modifies this`rx
      ensures Valid() && View() == Modem.Step(old(View()), hasReset, Pop)
      ensures m == if old(rx) == [] then None else Some(old(rx)[0])
    {
      if rx == [] {
        return None;
      }
      m := Some(rx[0]);
      rx := rx[1..];
    }
  }

  /** A request carries its message: destination (or the pairing broadcast), cluster, transaction and payload can be
      read back from its bytes, and it fits a ZNP frame. */
  lemma RequestCarriesMessage(m: Msg, tid: byte)
    requires |m.asdu| <= 100
    ensures var f := DataRequest(m, tid);
            var at := if IsPairing(m) then 13 else 4;
            var payloadAt := if IsPairing(m) then 20 else 10;
            |f.data| <= 250 && f.cmd0 == 0x24 && f.cmd1 == (if IsPairing(m) then 0x02 else 0x01) &&
            (!IsPairing(m) ==> Word(f.data[0], f.data[1]) == m.dst) &&
            Word(f.data[at], f.data[at + 1]) == m.cluster && f.data[at + 2] == tid &&
            f.data[at + 5] as int == |m.asdu| == |f.data| - payloadAt &&
            forall k | 0 <= k < |m.asdu| :: f.data[payloadAt + k] as int == m.asdu[k]
  {
  }
}
