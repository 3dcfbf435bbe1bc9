/** `ZnpRadio`: brings a CC2530 up as ZigBee coordinator and passes messages to and from it. */
module Modem {
  import opened Words
  import opened Bytes
  import opened ZnpCodec
  import opened Factory

  const SYS_RESET_IND: byte := 0x80
  const AF_DATA_REQUEST: byte := 0x01
  const AF_DATA_REQUEST_EXT: byte := 0x02
  const ZDO_STATE_CHANGE_IND: byte := 0xC0
  const DEV_ZB_COORD: byte := 0x09
  const AF_DATA_CONFIRM: byte := 0x80
  const AF_INCOMING_MSG: byte := 0x81
  const TYPE_SREQ_AF: byte := 0x24
  const TYPE_SRSP_AF: byte := 0x64
  const TYPE_AREQ_AF: byte := 0x44
  const TYPE_AREQ_ZDO: byte := 0x45
  const TYPE_AREQ_SYS: byte := 0x41

  const RESET_PULSE_MS := 50
  const RESET_SETTLE_MS := 500
  const RESET_BOOT_MAX_MS := 4000
  const START_TIMEOUT_MS := 12000
  const RETRY_DELAY_MS: u32 := 15000
  const MAX_RX := 16

  const START_REQUEST := ZnpFrame(0x26, 0x00, [])

  datatype ModemPhase = IDLE | RESET_ASSERT | RESET_WAIT | INIT_SEND | INIT_WAIT | START_WAIT | READY

  datatype InitCmd = InitCmd(frame: ZnpFrame, timeout: u32)

  /** A message delivered by the CC2530. */
  datatype ZnpRx = ZnpRx(src: u16, cluster: u16, lqi: byte, wasBroadcast: bool, data: seq<byte>)

  /** What happened on the port since the last restart. */
  datatype Entry = Sent(f: ZnpFrame) | CoordinatorUp

  /** The start-up part of the state; `log` is what went over the port since the last restart. */
  datatype StartUp = StartUp(phase: ModemPhase, init: seq<InitCmd>, initIdx: nat, stateSince: u32, retryAt: u32,
                             initCount: u32, firstAnswered: bool, resetLine: bool, log: seq<Entry>)

  /** The data path: `txState` is -1 while a request is outstanding, then 0 or 1 + status. */
  datatype Link = Link(txState: int, transId: byte, rx: seq<ZnpRx>, dropped: u32)

  datatype ModemState = ModemState(up: StartUp, link: Link)

  datatype Event =
    | Frame(f: ZnpFrame, now: u32)
    | Tick(now: u32)
    | Transmit(m: Msg)
    | Pop

  // ------------------------------------------------------------------------------------------------------------------
  // The steps as functions
  // ------------------------------------------------------------------------------------------------------------------

  /** restart_, but for the outstanding request it forgets. */
  function Restart(u: StartUp, hasReset: bool, now: u32): StartUp {
    u.(initCount := Add32(u.initCount, 1), initIdx := 0, firstAnswered := false, stateSince := now, log := [],
       resetLine := hasReset || u.resetLine, phase := if hasReset then RESET_ASSERT else RESET_WAIT)
  }

  predicate IsStateChange(f: ZnpFrame) {
    f.cmd0 == TYPE_AREQ_ZDO && f.cmd1 == ZDO_STATE_CHANGE_IND && |f.data| >= 1
  }

  predicate IsResetInd(f: ZnpFrame) {
    f.cmd0 == TYPE_AREQ_SYS && f.cmd1 == SYS_RESET_IND
  }

  /** A synchronous response: same subsystem and command as the request, type bits 0x60. */
  predicate Answers(f: ZnpFrame, c: ZnpFrame) {
    f.cmd0 & 0xE0 == 0x60 && f.cmd0 & 0x1F == c.cmd0 & 0x1F && f.cmd1 == c.cmd1
  }

  function Word(lo: byte, hi: byte): u16 {
    lo as int + (hi as int) * 0x100
  }

  /** The message inside AF_INCOMING_MSG, unless it is cut short. */
  function Incoming(f: ZnpFrame): Option<ZnpRx> {
    if |f.data| < 17 || |f.data| < 17 + (f.data[16] as int) then None
    else Some(ZnpRx(Word(f.data[4], f.data[5]), Word(f.data[2], f.data[3]), f.data[9], f.data[8] != 0,
                    f.data[17..17 + (f.data[16] as int)]))
  }

  /** The queue drops its oldest message when it is full. */
  function Enqueue(l: Link, m: ZnpRx): Link {
    if |l.rx| >= MAX_RX then l.(rx := l.rx[1..] + [m], dropped := Add32(l.dropped, 1)) else l.(rx := l.rx + [m])
  }

  function OnResetInd(u: StartUp, hasReset: bool, now: u32): StartUp {
    if u.phase == RESET_WAIT then u.(initIdx := 0, phase := INIT_SEND)
    else if u.phase == INIT_WAIT && u.initIdx == 0 && !u.firstAnswered then u.(phase := INIT_SEND)
    else if u.phase == READY then Restart(u.(retryAt := now), hasReset, now)
    else if u.phase == INIT_WAIT && u.initIdx < |u.init| && u.init[u.initIdx].frame.cmd0 == TYPE_AREQ_SYS then
      u.(firstAnswered := true, initIdx := u.initIdx + 1, phase := INIT_SEND)
    else u
  }

  /** The frame answers the command that is waited for. */
  predicate AnswersInit(u: StartUp, f: ZnpFrame) {
    u.phase == INIT_WAIT && u.initIdx < |u.init| && Answers(f, u.init[u.initIdx].frame)
  }

  /** The start-up handshakes take the frame, and the data path does not see it. */
  predicate TakenByStartUp(u: StartUp, f: ZnpFrame) {
    IsStateChange(f) || IsResetInd(f) || AnswersInit(u, f) ||
    (u.phase == START_WAIT && f.cmd0 == 0x66 && f.cmd1 == 0x00)
  }

  function OnStartFrame(u: StartUp, hasReset: bool, f: ZnpFrame, now: u32): StartUp {
    if IsStateChange(f) then
      (if f.data[0] == DEV_ZB_COORD && u.phase == START_WAIT then u.(phase := READY, log := u.log + [CoordinatorUp])
       else u)
    else if IsResetInd(f) then OnResetInd(u, hasReset, now)
    else if AnswersInit(u, f) then u.(firstAnswered := true, initIdx := u.initIdx + 1, phase := INIT_SEND)
    else u
  }

  function OnData(l: Link, f: ZnpFrame): Link {
    if f.cmd0 == TYPE_SRSP_AF && (f.cmd1 == AF_DATA_REQUEST || f.cmd1 == AF_DATA_REQUEST_EXT) then
      var status := if |f.data| >= 1 then f.data[0] else 0xFF;
      l.(txState := if status == 0 then 0 else 1 + (status as int))
    else if IsMessage(f) then Enqueue(l, Incoming(f).value)
    else l
  }

  predicate IsMessage(f: ZnpFrame) {
    f.cmd0 == TYPE_AREQ_AF && f.cmd1 == AF_INCOMING_MSG && Incoming(f).Some?
  }

  function OnFrame(s: ModemState, hasReset: bool, f: ZnpFrame, now: u32): ModemState {
    if !TakenByStartUp(s.up, f) then s.(link := OnData(s.link, f))
    else ModemState(OnStartFrame(s.up, hasReset, f, now),
               if !IsStateChange(f) && IsResetInd(f) && s.up.phase == READY then s.link.(txState := 0) else s.link)
  }

  function SendNext(u: StartUp, now: u32): StartUp {
    if u.initIdx >= |u.init| then u.(log := u.log + [Sent(START_REQUEST)], stateSince := now, phase := START_WAIT)
    else u.(log := u.log + [Sent(u.init[u.initIdx].frame)], stateSince := now, phase := INIT_WAIT)
  }

  /** The state machine part of loop(). */
  function OnTick(u: StartUp, hasReset: bool, now: u32): StartUp {
    var waited := Sub32(now, u.stateSince);
    match u.phase
    case IDLE => if Due(now, u.retryAt) then Restart(u, hasReset, now) else u
    case RESET_ASSERT =>
      if waited >= RESET_PULSE_MS then u.(resetLine := false, stateSince := now, phase := RESET_WAIT) else u
    case RESET_WAIT =>
      if waited >= (if hasReset then RESET_BOOT_MAX_MS else RESET_SETTLE_MS) then u.(initIdx := 0, phase := INIT_SEND)
      else u
    case INIT_SEND => SendNext(u, now)
    case INIT_WAIT =>
      if u.initIdx < |u.init| && waited >= u.init[u.initIdx].timeout then
        (if u.initIdx == 0 && !u.firstAnswered then u.(retryAt := Add32(now, RETRY_DELAY_MS), phase := IDLE)
         else u.(initIdx := u.initIdx + 1, phase := INIT_SEND))
      else u
    case START_WAIT =>
      if waited >= START_TIMEOUT_MS then u.(retryAt := Add32(now, RETRY_DELAY_MS), phase := IDLE) else u
    case READY => u
  }

  function Bytes8(s: seq<u8>): (r: seq<byte>)
    ensures |r| == |s|
  {
    seq(|s|, k requires 0 <= k < |s| => ToByte(s[k]))
  }

  predicate IsPairing(m: Msg) {
    m.broadcast && m.pan == 0xFFFF
  }

  /** The request that asks the modem to send a message. */
  function DataRequest(m: Msg, tid: byte): (f: ZnpFrame)
    requires |m.asdu| <= 100
    ensures IsDataRequest(Sent(f)) && |f.data| <= ZNP_MAX_DATA
  {
    var len := ToByte(|m.asdu|);
    var lo, hi := ToByte(m.cluster % 0x100), ToByte(m.cluster / 0x100);
    if IsPairing(m) then
      ZnpFrame(TYPE_SREQ_AF, AF_DATA_REQUEST_EXT,
               [0x0F, 0xFF, 0xFF, 0xFF, 0xFF, 0xFF, 0xFF, 0xFF, 0xFF, 0x14, 0xFF, 0xFF, 0x14, lo, hi, tid, 0x00, 0x0F,
                len, 0x00]
               + Bytes8(m.asdu))
    else
      ZnpFrame(TYPE_SREQ_AF, AF_DATA_REQUEST,
               [ToByte(m.dst % 0x100), ToByte(m.dst / 0x100), 0x14, 0x14, lo, hi, tid, 0x00, 0x0F, len]
               + Bytes8(m.asdu))
  }

  predicate CanTransmit(s: ModemState, m: Msg) {
    s.up.phase == READY && s.link.txState != -1 && m.valid && |m.asdu| <= 100
  }

  function OnTransmit(s: ModemState, m: Msg): ModemState {
    if !CanTransmit(s, m) then s
    else ModemState(s.up.(log := s.up.log + [Sent(DataRequest(m, s.link.transId))]),
               s.link.(transId := s.link.transId + 1, txState := -1))
  }

  function Step(s: ModemState, hasReset: bool, e: Event): ModemState {
    match e
    case Frame(f, now) => OnFrame(s, hasReset, f, now)
    case Tick(now) => ModemState(OnTick(s.up, hasReset, now),
                            if s.up.phase == IDLE && Due(now, s.up.retryAt) then s.link.(txState := 0) else s.link)
    case Transmit(m) => OnTransmit(s, m)
    case Pop => if s.link.rx == [] then s else s.(link := s.link.(rx := s.link.rx[1..]))
  }

  function Run(s: ModemState, hasReset: bool, events: seq<Event>): ModemState {
    if events == [] then s else Step(Run(s, hasReset, events[..|events| - 1]), hasReset, events[|events| - 1])
  }

  // ------------------------------------------------------------------------------------------------------------------
  // Start-up over all runs
  // ------------------------------------------------------------------------------------------------------------------

  /** The log is the first `n` commands in order, only the first of them possibly sent several times. */
  predicate Opening(log: seq<Entry>, init: seq<InitCmd>, n: nat)
    requires n <= |init| && init != []
  {
    n <= |log| &&
    (forall m | 0 <= m < n :: log[|log| - n + m] == Sent(init[m].frame)) &&
    (forall j | 0 <= j < |log| - n :: log[j] == Sent(init[0].frame))
  }

  predicate IsDataRequest(e: Entry) {
    e.Sent? && e.f.cmd0 == TYPE_SREQ_AF && (e.f.cmd1 == AF_DATA_REQUEST || e.f.cmd1 == AF_DATA_REQUEST_EXT)
  }

  /** The whole start-up, in order: all commands, ZB_START_REQUEST at position `n`, the coordinator indication, and
      nothing but data requests after it. */
  predicate StartedAt(log: seq<Entry>, init: seq<InitCmd>, n: nat)
    requires init != []
  {
    n + 2 <= |log| && Opening(log[..n], init, |init|) && log[n] == Sent(START_REQUEST) && log[n + 1] == CoordinatorUp &&
    forall j | n + 2 <= j < |log| :: IsDataRequest(log[j])
  }

  /** What every reachable state satisfies. */
  ghost predicate Inv(u: StartUp) {
    && u.init != [] && u.initIdx <= |u.init|
    && (u.resetLine ==> u.phase == RESET_ASSERT)
    && (u.initIdx > 0 ==> u.firstAnswered)
    && match u.phase
       case IDLE => true
       case RESET_ASSERT => u.log == []
       case RESET_WAIT => u.log == []
       case INIT_SEND => Opening(u.log, u.init, u.initIdx)
       case INIT_WAIT => u.initIdx < |u.init| && Opening(u.log, u.init, u.initIdx + 1)
       case START_WAIT => u.log != [] && u.log[|u.log| - 1] == Sent(START_REQUEST) &&
                          Opening(u.log[..|u.log| - 1], u.init, |u.init|)
       case READY => exists n: nat :: StartedAt(u.log, u.init, n)
  }

  lemma FrameKeepsInv(u: StartUp, hasReset: bool, f: ZnpFrame, now: u32)
    requires Inv(u)
    ensures Inv(OnStartFrame(u, hasReset, f, now)) && OnStartFrame(u, hasReset, f, now).init == u.init
  {
    if IsStateChange(f) && u.phase == START_WAIT {
      var t := u.(phase := READY, log := u.log + [CoordinatorUp]);
      assert t.log[..|u.log| - 1] == u.log[..|u.log| - 1];
      assert StartedAt(t.log, t.init, |u.log| - 1);
    }
  }

  lemma SendKeepsInv(u: StartUp, now: u32)
    requires Inv(u) && u.phase == INIT_SEND
    ensures Inv(SendNext(u, now)) && SendNext(u, now).init == u.init
  {
    hide IsDataRequest;
    var t := SendNext(u, now);
    assert t.log[..|t.log| - 1] == u.log;
  }

  lemma TickKeepsInv(u: StartUp, hasReset: bool, now: u32)
    requires Inv(u)
    ensures Inv(OnTick(u, hasReset, now)) && OnTick(u, hasReset, now).init == u.init
  {
    if u.phase == INIT_SEND {
      SendKeepsInv(u, now);
    }
  }

  lemma RequestKeepsInv(u: StartUp, e: Entry)
    requires Inv(u) && u.phase == READY && IsDataRequest(e)
    ensures Inv(u.(log := u.log + [e]))
  {
    var n: nat :| StartedAt(u.log, u.init, n);
    var log := u.log + [e];
    assert log[..n] == u.log[..n];
    assert StartedAt(log, u.init, n);
  }

  lemma StepKeepsInv(s: ModemState, hasReset: bool, e: Event)
    requires Inv(s.up)
    ensures Inv(Step(s, hasReset, e).up) && Step(s, hasReset, e).up.init == s.up.init
  {
    match e
    case Frame(f, now) => FrameKeepsInv(s.up, hasReset, f, now);
    case Tick(now) => TickKeepsInv(s.up, hasReset, now);
    case Transmit(m) =>
      if CanTransmit(s, m) {
        RequestKeepsInv(s.up, Sent(DataRequest(m, s.link.transId)));
      }
    case Pop =>
  }

  /** The modem as begin() leaves it the first time. */
  predicate Initial(s: ModemState) {
    s.up.phase == IDLE && s.up.init != [] && s.up.initIdx == 0 && !s.up.resetLine && s.up.log == [] &&
    s.link.rx == [] && s.link.dropped == 0 && s.link.txState == 0
  }

  lemma {:induction false} RunKeepsInv(s: ModemState, hasReset: bool, events: seq<Event>)
    requires Initial(s)
    ensures Inv(Run(s, hasReset, events).up) && Run(s, hasReset, events).up.init == s.up.init
  {
    if events != [] {
      RunKeepsInv(s, hasReset, events[..|events| - 1]);
      StepKeepsInv(Run(s, hasReset, events[..|events| - 1]), hasReset, events[|events| - 1]);
    }
  }

  /** Over every run: a modem that is ready has, since its last restart, been sent every configuration command in order
      (only the first one possibly again), then ZB_START_REQUEST, has then reported that it is coordinator, and has been
      sent nothing but data requests since. */
  lemma ReadyMeansStarted(s: ModemState, hasReset: bool, events: seq<Event>) returns (n: nat)
    requires Initial(s) && Run(s, hasReset, events).up.phase == READY
    ensures StartedAt(Run(s, hasReset, events).up.log, s.up.init, n)
  {
    RunKeepsInv(s, hasReset, events);
    n :| StartedAt(Run(s, hasReset, events).up.log, s.up.init, n);
  }

  /** Over every run: while a command is waited for, it is one of the list, and it was the last one sent. */
  lemma WaitsForSentCommand(s: ModemState, hasReset: bool, events: seq<Event>)
    requires Initial(s) && Run(s, hasReset, events).up.phase == INIT_WAIT
    ensures var u := Run(s, hasReset, events).up;
            u.initIdx < |s.up.init| && u.log != [] && u.log[|u.log| - 1] == Sent(s.up.init[u.initIdx].frame)
  {
    RunKeepsInv(s, hasReset, events);
  }

  /** Over every run: nothing is written while the reset line is held; a data request only goes to a ready modem with no
      other request outstanding; anything else is only written by the clock tick of a start-up step. */
  lemma WritesAreGuarded(s: ModemState, hasReset: bool, events: seq<Event>, e: Event)
    requires Initial(s)
    ensures var t := Run(s, hasReset, events); var u := Step(t, hasReset, e);
            |u.up.log| > |t.up.log| && u.up.log[|u.up.log| - 1].Sent? ==>
              !t.up.resetLine && u.up.log[..|t.up.log|] == t.up.log && |u.up.log| == |t.up.log| + 1 &&
              if e.Transmit? then
                t.up.phase == READY && t.link.txState != -1 && u.link.txState == -1 &&
                IsDataRequest(u.up.log[|t.up.log|])
              else e.Tick? && t.up.phase == INIT_SEND
  {
    RunKeepsInv(s, hasReset, events);
  }

  // ------------------------------------------------------------------------------------------------------------------
  // The queue of received messages
  // ------------------------------------------------------------------------------------------------------------------

  /** AF_INCOMING_MSG as the CC2530 sends it: two bytes each for group, cluster and source address, lowest first, then
      single bytes, a time stamp of four, a sequence number, and the payload behind its length. */
  datatype AirMessage = AirMessage(group: u16, cluster: u16, src: u16, srcEp: byte, dstEp: byte, broadcast: byte,
                                   lqi: byte, security: byte, timestamp: (byte, byte, byte, byte), seqNo: byte,
                                   payload: seq<byte>)

  function WordBytes(w: u16): (r: seq<byte>)
    ensures |r| == 2
  {
    [ToByte(w % 0x100), ToByte(w / 0x100)]
  }

  function AirBytes(m: AirMessage): seq<byte>
    requires |m.payload| < 0x100
  {
    WordBytes(m.group) + WordBytes(m.cluster) + WordBytes(m.src)
    + [m.srcEp, m.dstEp, m.broadcast, m.lqi, m.security]
    + [m.timestamp.0, m.timestamp.1, m.timestamp.2, m.timestamp.3]
    + [m.seqNo, ToByte(|m.payload|)] + m.payload
  }

  /** What a receiver is to learn of it. */
  function Delivered(m: AirMessage): ZnpRx {
    ZnpRx(m.src, m.cluster, m.lqi, m.broadcast != 0, m.payload)
  }

  /** The frame carries the message whole; bytes may follow it. */
  predicate Carries(f: ZnpFrame, m: AirMessage) {
    f.cmd0 == 0x44 && f.cmd1 == 0x81 && |m.payload| < 0x100 && AirBytes(m) <= f.data
  }

  lemma AirLayout(m: AirMessage)
    requires |m.payload| < 0x100
    ensures var a := AirBytes(m);
            && |a| == 17 + |m.payload| && a[17..] == m.payload
            && a[0] == WordBytes(m.group)[0] && a[1] == WordBytes(m.group)[1]
            && a[2] == WordBytes(m.cluster)[0] && a[3] == WordBytes(m.cluster)[1]
            && a[4] == WordBytes(m.src)[0] && a[5] == WordBytes(m.src)[1]
            && a[6] == m.srcEp && a[7] == m.dstEp && a[8] == m.broadcast && a[9] == m.lqi && a[10] == m.security
            && a[11] == m.timestamp.0 && a[12] == m.timestamp.1 && a[13] == m.timestamp.2 && a[14] == m.timestamp.3
            && a[15] == m.seqNo && a[16] == ToByte(|m.payload|)
  {
    hide ToByte, WordBytes;
  }

  lemma WordReads(w: u16)
    ensures Word(WordBytes(w)[0], WordBytes(w)[1]) == w
  {
  }

  /** Reading: a frame that carries a message gives its source, cluster, link quality, broadcast flag and payload. */
  lemma IncomingReads(f: ZnpFrame, m: AirMessage)
    requires Carries(f, m)
    ensures Incoming(f) == Some(Delivered(m)) && IsMessage(f)
  {
    hide ToByte, Word, AirBytes, WordBytes;
    AirLayout(m);
    LengthIs(m.payload);
    WordReads(m.cluster);
    WordReads(m.src);
    var a := AirBytes(m);
    assert forall k | 0 <= k < |a| :: f.data[k] == a[k];
    assert f.data[17..17 + |m.payload|] == a[17..];
  }

  lemma LengthIs(payload: seq<byte>)
    requires |payload| < 0x100
    ensures ToByte(|payload|) as int == |payload|
  {
  }

  lemma SplitWord(lo: int, hi: int)
    requires 0 <= lo < 0x100 && 0 <= hi < 0x100
    ensures (lo + hi * 0x100) % 0x100 == lo && (lo + hi * 0x100) / 0x100 == hi
  {
  }

  lemma SameByte(b: byte, n: nat)
    requires Value(b) == n < 0x100
    ensures ToByte(n) == b
  {
    BytesDiffer(ToByte(n), b);
  }

  lemma ValueIs(b: byte)
    ensures Value(b) == b as int
  {
  }

  lemma WordIs(lo: byte, hi: byte)
    ensures Word(lo, hi) == Value(lo) + Value(hi) * 0x100
  {
    ValueIs(lo);
    ValueIs(hi);
  }

  lemma WordWrites(lo: byte, hi: byte)
    ensures WordBytes(Word(lo, hi)) == [lo, hi]
  {
    hide ToByte, Value, Word;
    WordIs(lo, hi);
    SplitWord(Value(lo), Value(hi));
    SameByte(lo, Word(lo, hi) % 0x100);
    SameByte(hi, Word(lo, hi) / 0x100);
  }

  lemma IncomingShape(f: ZnpFrame)
    requires IsMessage(f)
    ensures f.cmd0 == 0x44 && f.cmd1 == 0x81 && |f.data| >= 17 + (f.data[16] as int)
  {
  }

  /** The bytes of the message are the first ones of `d`, field by field. */
  lemma AirPrefix(m: AirMessage, d: seq<byte>)
    requires |m.payload| < 0x100 && 17 + |m.payload| <= |d| && m.payload == d[17..17 + |m.payload|]
    requires WordBytes(m.group) == [d[0], d[1]] && WordBytes(m.cluster) == [d[2], d[3]]
    requires WordBytes(m.src) == [d[4], d[5]]
    requires m.srcEp == d[6] && m.dstEp == d[7] && m.broadcast == d[8] && m.lqi == d[9] && m.security == d[10]
    requires m.timestamp == (d[11], d[12], d[13], d[14]) && m.seqNo == d[15] && ToByte(|m.payload|) == d[16]
    ensures AirBytes(m) <= d
  {
    hide ToByte, WordBytes, AirBytes;
    AirLayout(m);
    SameFrom17(AirBytes(m), d, |m.payload|);
  }

  /** The message a frame carries, read off its data. */
  function AirOf(d: seq<byte>): AirMessage
    requires |d| >= 17 && |d| >= 17 + (d[16] as int)
  {
    AirMessage(Word(d[0], d[1]), Word(d[2], d[3]), Word(d[4], d[5]), d[6], d[7], d[8], d[9], d[10],
               (d[11], d[12], d[13], d[14]), d[15], d[17..17 + (d[16] as int)])
  }

  lemma AirOfIsThere(d: seq<byte>)
    requires |d| >= 17 && |d| >= 17 + (d[16] as int)
    ensures |AirOf(d).payload| < 0x100 && AirBytes(AirOf(d)) <= d
  {
    hide ToByte, Word, AirBytes, WordBytes, Value;
    ValueIs(d[16]);
    WordWrites(d[0], d[1]);
    WordWrites(d[2], d[3]);
    WordWrites(d[4], d[5]);
    SameByte(d[16], d[16] as int);
    AirPrefix(AirOf(d), d);
  }

  /** And every frame that is read as one carries one: only those that are cut short are not. */
  lemma IncomingCarries(f: ZnpFrame) returns (m: AirMessage)
    requires IsMessage(f)
    ensures Carries(f, m)
  {
    IncomingShape(f);
    hide IsMessage, AirOf, AirBytes;
    m := AirOf(f.data);
    AirOfIsThere(f.data);
  }

  lemma SameFrom17(a: seq<byte>, d: seq<byte>, n: nat)
    requires |a| == 17 + n <= |d| && a[17..] == d[17..17 + n]
    requires a[0] == d[0] && a[1] == d[1] && a[2] == d[2] && a[3] == d[3] && a[4] == d[4] && a[5] == d[5]
    requires a[6] == d[6] && a[7] == d[7] && a[8] == d[8] && a[9] == d[9] && a[10] == d[10] && a[11] == d[11]
    requires a[12] == d[12] && a[13] == d[13] && a[14] == d[14] && a[15] == d[15] && a[16] == d[16]
    ensures a <= d
  {
    forall k | 0 <= k < |a| ensures a[k] == d[k] {
      if k >= 17 {
        assert a[17..][k - 17] == d[17..17 + n][k - 17];
      }
    }
  }

  /** The event brings a message. */
  ghost predicate Brings(e: Event) {
    e.Frame? && exists m :: Carries(e.f, m)
  }

  /** `ms` are the messages the frames of a run have carried, in order. */
  ghost predicate Heard(events: seq<Event>, ms: seq<AirMessage>) {
    if events == [] then ms == [] else
    var before, e := events[..|events| - 1], events[|events| - 1];
    if Brings(e) then ms != [] && Carries(e.f, ms[|ms| - 1]) && Heard(before, ms[..|ms| - 1])
    else Heard(before, ms)
  }

  function DeliveredAll(ms: seq<AirMessage>): (r: seq<ZnpRx>)
    ensures |r| == |ms|
  {
    seq(|ms|, k requires 0 <= k < |ms| => Delivered(ms[k]))
  }

  lemma {:induction false} SomethingHeard(events: seq<Event>) returns (ms: seq<AirMessage>)
    ensures Heard(events, ms)
  {
    ms := [];
    if events != [] {
      var e := events[|events| - 1];
      ms := SomethingHeard(events[..|events| - 1]);
      if Brings(e) {
        var m :| Carries(e.f, m);
        assert (ms + [m])[..|ms|] == ms;
        ms := ms + [m];
      }
    }
  }

  /** How many of them pop() has handed out. */
  function Taken(s: ModemState, hasReset: bool, events: seq<Event>): nat {
    if events == [] then 0 else
    var n := |events| - 1;
    Taken(s, hasReset, events[..n]) +
    if events[n].Pop? && Run(s, hasReset, events[..n]).link.rx != [] then 1 else 0
  }

  /** `rx` is the tail of `all`, and what is missing of it was either taken or counted as dropped. */
  predicate Newest(l: Link, all: seq<ZnpRx>, taken: nat) {
    |l.rx| <= MAX_RX && taken + |l.rx| <= |all| && l.rx == all[|all| - |l.rx|..] &&
    l.dropped == (|all| - taken - |l.rx|) % TWO32
  }

  lemma CountUp(n: nat)
    ensures Add32(n % TWO32, 1) == (n + 1) % TWO32
  {
  }

  lemma EnqueueNewest(l: Link, m: ZnpRx, all: seq<ZnpRx>, taken: nat)
    requires Newest(l, all, taken)
    ensures Newest(Enqueue(l, m), all + [m], taken)
  {
    CountUp(|all| - taken - |l.rx|);
  }

  /** The message a frame carries, if any. */
  predicate HeardNow(e: Event, now: seq<ZnpRx>) {
    if e.Frame? && IsMessage(e.f) then now == [Incoming(e.f).value] else now == []
  }

  lemma StepNewest(s: ModemState, hasReset: bool, e: Event, all: seq<ZnpRx>, taken: nat, now: seq<ZnpRx>)
    requires Newest(s.link, all, taken) && HeardNow(e, now)
    ensures Newest(Step(s, hasReset, e).link, all + now, taken + (if e.Pop? && s.link.rx != [] then 1 else 0))
  {
    hide OnTick, OnStartFrame, Restart, Incoming;
    if e.Frame? && IsMessage(e.f) {
      assert !TakenByStartUp(s.up, e.f);
      EnqueueNewest(s.link, Incoming(e.f).value, all, taken);
    } else {
      assert all + [] == all;
    }
  }

  lemma BringsIs(e: Event, now: seq<AirMessage>)
    requires if Brings(e) then |now| == 1 && Carries(e.f, now[0]) else now == []
    ensures HeardNow(e, DeliveredAll(now))
  {
    hide Carries, Incoming, Delivered, IsMessage;
    if Brings(e) {
      IncomingReads(e.f, now[0]);
    } else if e.Frame? && IsMessage(e.f) {
      var m := IncomingCarries(e.f);
    }
  }

  lemma HeardParts(events: seq<Event>, ms: seq<AirMessage>) returns (before: seq<AirMessage>, now: seq<AirMessage>)
    requires events != [] && Heard(events, ms)
    ensures ms == before + now && Heard(events[..|events| - 1], before)
    ensures if Brings(events[|events| - 1]) then |now| == 1 && Carries(events[|events| - 1].f, now[0]) else now == []
  {
    hide Carries;
    if Brings(events[|events| - 1]) {
      before, now := ms[..|ms| - 1], [ms[|ms| - 1]];
    } else {
      before, now := ms, [];
    }
  }

  lemma DeliveredBoth(a: seq<AirMessage>, b: seq<AirMessage>)
    ensures DeliveredAll(a + b) == DeliveredAll(a) + DeliveredAll(b)
  {
  }

  /** Over every run, in whatever phase: the queue holds what is to be learned of the newest messages the modem has
      sent, in order, never more than 16 of them, and every message is queued, was handed out or is counted as
      dropped. */
  lemma {:induction false} QueueKeepsNewest(s: ModemState, hasReset: bool, events: seq<Event>, ms: seq<AirMessage>)
    requires Initial(s) && Heard(events, ms)
    ensures Newest(Run(s, hasReset, events).link, DeliveredAll(ms), Taken(s, hasReset, events))
  {
    hide Carries, Step, Incoming, Delivered, IsMessage, DeliveredAll, Brings, HeardNow, Newest;
    if events != [] {
      var n := |events| - 1;
      var before, now := HeardParts(events, ms);
      QueueKeepsNewest(s, hasReset, events[..n], before);
      BringsIs(events[n], now);
      DeliveredBoth(before, now);
      StepNewest(Run(s, hasReset, events[..n]), hasReset, events[n], DeliveredAll(before),
                 Taken(s, hasReset, events[..n]), DeliveredAll(now));
    } else {
      NothingYet(s.link);
    }
  }

  lemma NothingYet(l: Link)
    requires l.rx == [] && l.dropped == 0
    ensures Newest(l, DeliveredAll([]), 0)
  {
  }

  // ------------------------------------------------------------------------------------------------------------------
  // The outstanding request
  // ------------------------------------------------------------------------------------------------------------------

  /** The response to a data request, in any start-up phase that does not wait for such a response itself. */
  predicate IsDataResponse(f: ZnpFrame) {
    f.cmd0 == 0x64 && (f.cmd1 == 0x01 || f.cmd1 == 0x02)
  }

  /** What the radio is told of a status byte: 0 for success, the status plus 1 for anything else, and 256 when the
      response has no status at all. */
  function Told(data: seq<byte>): int {
    if data == [] then 256 else if data[0] as int == 0 then 0 else 1 + (data[0] as int)
  }

  /** The state of the outstanding request only changes in four ways: a request leaves a ready modem; its response
      arrives, with the status that is told from then on; the modem reports a reset; or a new start-up begins. */
  lemma TxStateChanges(s: ModemState, hasReset: bool, e: Event)
    requires Inv(s.up)
    ensures var t := Step(s, hasReset, e).link.txState;
            t == if e.Frame? && IsDataResponse(e.f) && !AnswersInit(s.up, e.f) then Told(e.f.data)
                 else if e.Frame? && e.f.cmd0 == 0x41 && e.f.cmd1 == 0x80 && s.up.phase == READY then 0
                 else if e.Tick? && s.up.phase == IDLE && Signed32(Sub32(e.now, s.up.retryAt)) >= 0 then 0
                 else if e.Transmit? && s.up.phase == READY && s.link.txState != -1 && e.m.valid && |e.m.asdu| <= 100
                 then -1
                 else s.link.txState
  {
    hide Inv, OnTick, Restart, Incoming, DataRequest;
  }

  /** A ready modem waits for no configuration command, so that every response is told. */
  lemma ReadyTells(s: ModemState, hasReset: bool, f: ZnpFrame, now: u32)
    requires Inv(s.up) && s.up.phase == READY && IsDataResponse(f)
    ensures Step(s, hasReset, Frame(f, now)).link.txState == Told(f.data) != -1
  {
    TxStateChanges(s, hasReset, Frame(f, now));
  }
}
