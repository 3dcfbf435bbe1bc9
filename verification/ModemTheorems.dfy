/** The modem seen from outside: when each phase ends, what a modem is configured to, and that one which answers is
    brought up. */
module ModemTheorems {
  import opened Words
  import opened Bytes
  import opened ZnpCodec
  import opened Modem
  import Factory
  import Driver = ModemDriver

  // ------------------------------------------------------------------------------------------------------------------
  // The phases
  // ------------------------------------------------------------------------------------------------------------------

  /** SYS_RESET_IND. */
  predicate ResetReported(e: Event) {
    e.Frame? && e.f.cmd0 == 0x41 && e.f.cmd1 == 0x80
  }

  /** ZDO_STATE_CHANGE_IND with the state of a running coordinator. */
  predicate CoordinatorReported(e: Event) {
    e.Frame? && e.f.cmd0 == 0x45 && e.f.cmd1 == 0xC0 && e.f.data != [] && e.f.data[0] == 9
  }

  /** A frame other than these two, with the type bits of a synchronous response, the subsystem and the command of
      `c`. */
  predicate Responds(e: Event, c: ZnpFrame) {
    e.Frame? && (e.f.cmd0, e.f.cmd1) != (0x41, 0x80) && (e.f.cmd0, e.f.cmd1) != (0x45, 0xC0) &&
    e.f.cmd0 >> 5 == 3 && e.f.cmd0 << 3 == c.cmd0 << 3 && e.f.cmd1 == c.cmd1
  }

  /** At least `ms` after the phase began. */
  predicate Ticks(e: Event, since: u32, ms: nat) {
    e.Tick? && Sub32(e.now, since) >= ms
  }

  lemma TypeBits(a: byte, b: byte)
    ensures a & 0xE0 == 0x60 <==> a >> 5 == 3
    ensures a & 0x1F == b & 0x1F <==> a << 3 == b << 3
  {
  }

  lemma AnswersIs(f: ZnpFrame, c: ZnpFrame)
    ensures Answers(f, c) <==> f.cmd0 >> 5 == 3 && f.cmd0 << 3 == c.cmd0 << 3 && f.cmd1 == c.cmd1
  {
    TypeBits(f.cmd0, c.cmd0);
  }

  /** When each phase ends, and which one follows. A modem that is silent from the start is tried again 15 s later,
      and so is one that never becomes coordinator. */
  lemma PhaseEnds(s: ModemState, hasReset: bool, e: Event)
    requires Inv(s.up)
    ensures var u, t := s.up, Modem.Step(s, hasReset, e).up;
            match u.phase
            case IDLE =>
              t.phase == (if e.Tick? && Signed32(Sub32(e.now, u.retryAt)) >= 0
                          then (if hasReset then RESET_ASSERT else RESET_WAIT) else IDLE)
            case RESET_ASSERT => t.phase == (if Ticks(e, u.stateSince, 50) then RESET_WAIT else RESET_ASSERT)
            case RESET_WAIT =>
              t.phase == (if Ticks(e, u.stateSince, if hasReset then 4000 else 500) || ResetReported(e) then INIT_SEND
                          else RESET_WAIT)
            case INIT_SEND =>
              t.phase == (if !e.Tick? then INIT_SEND else if u.initIdx < |u.init| then INIT_WAIT else START_WAIT)
            case INIT_WAIT =>
              var c := u.init[u.initIdx];
              t.phase == (if Ticks(e, u.stateSince, c.timeout) then (if u.firstAnswered then INIT_SEND else IDLE)
                          else if ResetReported(e) && (!u.firstAnswered || c.frame.cmd0 == 0x41) then INIT_SEND
                          else if Responds(e, c.frame) then INIT_SEND
                          else INIT_WAIT) &&
              (t.phase == IDLE ==> t.retryAt == Add32(e.now, 15000))
            case START_WAIT =>
              t.phase == (if Ticks(e, u.stateSince, 12000) then IDLE
                          else if CoordinatorReported(e) then READY
                          else START_WAIT) &&
              (t.phase == IDLE ==> t.retryAt == Add32(e.now, 15000))
            case READY =>
              t.phase == (if ResetReported(e) then (if hasReset then RESET_ASSERT else RESET_WAIT) else READY)
  {
    hide Opening, StartedAt, Incoming, DataRequest, Answers, Sub32, Add32, Signed32;
    if e.Frame? && s.up.phase == INIT_WAIT {
      AnswersIs(e.f, s.up.init[s.up.initIdx].frame);
    }
  }

  // ------------------------------------------------------------------------------------------------------------------
  // A modem that answers is brought up
  // ------------------------------------------------------------------------------------------------------------------

  /** What a working modem answers: a reset is reported, and any other command gets its synchronous response. */
  function Reply(c: ZnpFrame): ZnpFrame {
    if c.cmd0 == 0x41 then ZnpFrame(0x41, 0x80, []) else ZnpFrame(0x60 | (c.cmd0 & 0x1F), c.cmd1, [0x00])
  }

  lemma ReplyBits(b: byte)
    ensures (0x60 | (b & 0x1F)) & 0xE0 == 0x60 && (0x60 | (b & 0x1F)) & 0x1F == b & 0x1F
    ensures 0x60 | (b & 0x1F) != 0x45 && 0x60 | (b & 0x1F) != 0x41
  {
  }

  /** The start-up state after the first `k` commands of the list, sent one by one. */
  function Through(u: StartUp, k: nat, since: u32): StartUp
    requires k <= |u.init|
  {
    u.(initIdx := k, firstAnswered := u.firstAnswered || k > 0, stateSince := if k > 0 then since else u.stateSince,
       log := u.log + Commands(u.init[..k]))
  }

  function Commands(init: seq<InitCmd>): (r: seq<Entry>)
    ensures |r| == |init|
  {
    seq(|init|, k requires 0 <= k < |init| => Sent(init[k].frame))
  }

  lemma CommandAnswered(s: ModemState, hasReset: bool, a: u32, b: u32)
    requires Inv(s.up) && s.up.phase == INIT_SEND && s.up.initIdx < |s.up.init|
    requires s.up.initIdx == 0 ==> s.up.init[0].frame.cmd0 != 0x41
    ensures var c := s.up.init[s.up.initIdx].frame;
            Modem.Step(Modem.Step(s, hasReset, Tick(a)), hasReset, Frame(Reply(c), b)) ==
            s.(up := s.up.(initIdx := s.up.initIdx + 1, firstAnswered := true, stateSince := a,
                           log := s.up.log + [Sent(c)]))
  {
    hide Opening, StartedAt, Incoming, DataRequest, Sub32;
    ReplyBits(s.up.init[s.up.initIdx].frame.cmd0);
  }

  /** The first `k` commands, each sent by a tick of the clock and then answered, at whatever times. */
  function Conversation(init: seq<InitCmd>, k: nat, clock: nat -> u32): seq<Event>
    requires k <= |init|
  {
    if k == 0 then []
    else Conversation(init, k - 1, clock) + [Tick(clock(2 * k - 2)), Frame(Reply(init[k - 1].frame), clock(2 * k - 1))]
  }

  lemma RunTwo(s: ModemState, hasReset: bool, events: seq<Event>, a: Event, b: Event)
    ensures Modem.Run(s, hasReset, events + [a, b]) ==
            Modem.Step(Modem.Step(Modem.Run(s, hasReset, events), hasReset, a), hasReset, b)
  {
    hide Modem.Step;
    var all := events + [a, b];
    assert all[..|all| - 1] == events + [a];
    assert (events + [a])[..|events|] == events;
  }

  lemma {:induction false} CommandsAnswered(s: ModemState, hasReset: bool, k: nat, clock: nat -> u32)
    requires Inv(s.up) && s.up.phase == INIT_SEND && s.up.initIdx == 0 && k <= |s.up.init|
    requires s.up.init[0].frame.cmd0 != 0x41
    ensures Modem.Run(s, hasReset, Conversation(s.up.init, k, clock)) ==
            s.(up := Through(s.up, k, if k > 0 then clock(2 * k - 2) else 0))
  {
    hide Modem.Step, Inv;
    if k == 0 {
      assert s.up.log + Commands(s.up.init[..0]) == s.up.log;
    } else {
      CommandsAnswered(s, hasReset, k - 1, clock);
      var t := Modem.Run(s, hasReset, Conversation(s.up.init, k - 1, clock));
      RunTwo(s, hasReset, Conversation(s.up.init, k - 1, clock), Tick(clock(2 * k - 2)),
             Frame(Reply(s.up.init[k - 1].frame), clock(2 * k - 1)));
      StaysInv(s, hasReset, Conversation(s.up.init, k - 1, clock));
      CommandAnswered(t, hasReset, clock(2 * k - 2), clock(2 * k - 1));
      assert Commands(s.up.init[..k]) == Commands(s.up.init[..k - 1]) + [Sent(s.up.init[k - 1].frame)];
    }
  }

  lemma {:induction false} StaysInv(s: ModemState, hasReset: bool, events: seq<Event>)
    requires Inv(s.up)
    ensures Inv(Modem.Run(s, hasReset, events).up)
  {
    hide Modem.Step, Inv;
    if events != [] {
      StaysInv(s, hasReset, events[..|events| - 1]);
      StepKeepsInv(Modem.Run(s, hasReset, events[..|events| - 1]), hasReset, events[|events| - 1]);
    }
  }

  lemma StartAnswered(s: ModemState, hasReset: bool, a: u32, b: u32)
    requires s.up.phase == INIT_SEND && s.up.initIdx == |s.up.init|
    ensures var t := Modem.Step(Modem.Step(s, hasReset, Tick(a)), hasReset, Frame(ZnpFrame(0x45, 0xC0, [0x09]), b));
            t.up.phase == READY &&
            t.up.log == s.up.log + [Sent(ZnpFrame(0x26, 0x00, [])), CoordinatorUp] && t.link == s.link
  {
    hide Opening, StartedAt, Incoming, DataRequest, Sub32;
  }

  /** The reset that begins every start-up: the line is held for at least 50 ms if there is one, and the modem
      reports the reset. */
  lemma ResetDone(s: ModemState, hasReset: bool, a: u32, b: u32, c: u32)
    requires Initial(s) && Due(a, s.up.retryAt) && Sub32(b, a) >= 50
    ensures var t1 := Modem.Step(s, hasReset, Tick(a));
            var t2 := if hasReset then Modem.Step(t1, hasReset, Tick(b)) else t1;
            var t := Modem.Step(t2, hasReset, Frame(ZnpFrame(0x41, 0x80, []), c));
            t.up.phase == INIT_SEND && t.up.initIdx == 0 && t.up.log == [] && t.up.init == s.up.init &&
            t.link.txState == 0 && Inv(t.up)
  {
    hide Sub32, Incoming, DataRequest;
  }

  function ResetTalk(hasReset: bool, a: u32, b: u32, c: u32): seq<Event> {
    [Tick(a)] + (if hasReset then [Tick(b)] else []) + [Frame(ZnpFrame(0x41, 0x80, []), c)]
  }

  lemma {:induction false} RunAfter(s: ModemState, hasReset: bool, first: seq<Event>, rest: seq<Event>)
    ensures Modem.Run(s, hasReset, first + rest) == Modem.Run(Modem.Run(s, hasReset, first), hasReset, rest)
    decreases |rest|
  {
    hide Modem.Step;
    if rest == [] {
      assert first + rest == first;
    } else {
      var n := |rest| - 1;
      RunAfter(s, hasReset, first, rest[..n]);
      assert (first + rest)[..|first| + n] == first + rest[..n];
    }
  }

  lemma ResetRun(s: ModemState, hasReset: bool, a: u32, b: u32, c: u32)
    requires Initial(s) && Due(a, s.up.retryAt) && Sub32(b, a) >= 50
    ensures var t := Modem.Run(s, hasReset, ResetTalk(hasReset, a, b, c));
            t.up.phase == INIT_SEND && t.up.initIdx == 0 && t.up.log == [] && t.up.init == s.up.init &&
            t.link.txState == 0 && Inv(t.up)
  {
    hide Modem.Step, Initial, Inv, Sub32;
    ResetDone(s, hasReset, a, b, c);
    var indication := Frame(ZnpFrame(0x41, 0x80, []), c);
    assert [] + [Tick(a), indication] == [Tick(a), indication];
    if hasReset {
      RunTwo(s, hasReset, [Tick(a)], Tick(b), indication);
      assert ResetTalk(hasReset, a, b, c) == [Tick(a)] + [Tick(b), indication];
      assert [Tick(a)][..0] == [];
    } else {
      RunTwo(s, hasReset, [], Tick(a), indication);
      assert ResetTalk(hasReset, a, b, c) == [] + [Tick(a), indication];
    }
  }

  /** A whole start-up with a modem that answers: reset, every command, the start request, the coordinator
      indication. */
  function StartUpTalk(hasReset: bool, init: seq<InitCmd>, a: u32, b: u32, c: u32, clock: nat -> u32): seq<Event> {
    ResetTalk(hasReset, a, b, c) + Conversation(init, |init|, clock)
    + [Tick(clock(2 * |init|)), Frame(ZnpFrame(0x45, 0xC0, [0x09]), clock(2 * |init| + 1))]
  }

  /** Liveness: whatever the times, a modem that answers like this is ready at the end, has been sent the commands
      of the list and the start request, each once and in order, and takes a message. */
  lemma AnsweringModemGetsReady(s: ModemState, hasReset: bool, a: u32, b: u32, c: u32, clock: nat -> u32)
    requires Initial(s) && Due(a, s.up.retryAt) && Sub32(b, a) >= 50 && s.up.init[0].frame.cmd0 != 0x41
    ensures var t := Modem.Run(s, hasReset, StartUpTalk(hasReset, s.up.init, a, b, c, clock));
            t.up.phase == READY && t.link.txState == 0 &&
            t.up.log == Commands(s.up.init) + [Sent(ZnpFrame(0x26, 0x00, [])), CoordinatorUp]
  {
    hide Modem.Step, Initial, Inv, Sub32, Conversation, ResetTalk;
    var init, n := s.up.init, |s.up.init|;
    var talk := ResetTalk(hasReset, a, b, c);
    ResetRun(s, hasReset, a, b, c);
    var t := Modem.Run(s, hasReset, talk);
    CommandsAnswered(t, hasReset, n, clock);
    RunAfter(s, hasReset, talk, Conversation(init, n, clock));
    assert init[..n] == init;
    assert [] + Commands(init) == Commands(init);
    var w := Modem.Run(s, hasReset, talk + Conversation(init, n, clock));
    RunTwo(s, hasReset, talk + Conversation(init, n, clock), Tick(clock(2 * n)),
           Frame(ZnpFrame(0x45, 0xC0, [0x09]), clock(2 * n + 1)));
    StartAnswered(w, hasReset, clock(2 * n), clock(2 * n + 1));
  }

  // ------------------------------------------------------------------------------------------------------------------
  // What the modem is configured to
  // ------------------------------------------------------------------------------------------------------------------

  /** ZB_WRITE_CONFIGURATION of the value `value` under the identifier `id`. */
  predicate Writes(f: ZnpFrame, id: byte, value: seq<byte>) {
    f.cmd0 == 0x26 && f.cmd1 == 0x05 && |f.data| == 2 + |value| && f.data[0] == id && f.data[1] as int == |value| &&
    f.data[2..] == value
  }

  /** The modem's list of channels, lowest byte first, has just the bit of the channel. */
  predicate OnlyChannel(mask: seq<byte>, channel: nat) {
    |mask| == 4 && forall k | 0 <= k < 32 :: (mask[k / 8] >> (k % 8)) & 1 == 1 <==> k == channel
  }

  lemma MaskBit(channel: nat, k: nat)
    requires channel < 32 && k < 32
    ensures var mask := (1 as bv32) << channel;
            var bytes := [(mask & 0xFF) as byte, ((mask >> 8) & 0xFF) as byte, ((mask >> 16) & 0xFF) as byte,
                          ((mask >> 24) & 0xFF) as byte];
            (bytes[k / 8] >> (k % 8)) & 1 == 1 <==> k == channel
  {
  }

  lemma PanBytes(panId: u16)
    ensures ToByte(panId % 0x100) as int == panId % 0x100 && ToByte(panId / 0x100) as int == panId / 0x100
  {
  }

  /** The list of commands makes the modem forget what it had stored, reset, and then become coordinator with the given
      address, PAN identifier and channel, and serve the endpoint of the microinverters. */
  lemma ConfigurationIs(ieee: seq<byte>, panId: u16, channel: nat)
    requires |ieee| == 8 && channel < 32
    ensures var init := Driver.InitList(ieee, panId, channel);
            && Writes(init[0].frame, 0x03, [0x03])
            && init[1].frame == ZnpFrame(0x41, 0x00, [0x00])
            && Writes(init[2].frame, 0x01, ieee)
            && Writes(init[3].frame, 0x87, [0x00])
            && Writes(init[4].frame, 0x83, init[4].frame.data[2..])
            && Word(init[4].frame.data[2], init[4].frame.data[3]) == panId
            && Writes(init[5].frame, 0x84, init[5].frame.data[2..]) && OnlyChannel(init[5].frame.data[2..], channel)
            && init[6].frame ==
               ZnpFrame(0x24, 0x00, [0x14, 0x05, 0x0F, 0x00, 0x01, 0x01, 0x00, 0x02, 0x00, 0x00, 0x15, 0x00, 0x00])
            && forall k | 0 <= k < 7 :: init[k].timeout == if k == 1 then 3000 else 1000
  {
    PanBytes(panId);
    var init := Driver.InitList(ieee, panId, channel);
    forall k | 0 <= k < 32
      ensures (init[5].frame.data[2..][k / 8] >> (k % 8)) & 1 == 1 <==> k == channel
    {
      MaskBit(channel, k);
    }
  }

  lemma PairingHeader(m: Factory.Msg, tid: byte)
    requires |m.asdu| <= 100 && IsPairing(m)
    ensures var d := DataRequest(m, tid).data;
            && |d| >= 20 && d[..13] == [0x0F, 0xFF, 0xFF, 0xFF, 0xFF, 0xFF, 0xFF, 0xFF, 0xFF, 0x14, 0xFF, 0xFF, 0x14]
            && d[15..18] == [tid, 0x00, 0x0F] && d[19] == 0x00
  {
    hide ToByte, Bytes8;
  }

  lemma PlainHeader(m: Factory.Msg, tid: byte)
    requires |m.asdu| <= 100 && !IsPairing(m)
    ensures var d := DataRequest(m, tid).data; |d| >= 10 && d[2..4] == [0x14, 0x14] && d[6..9] == [tid, 0x00, 0x0F]
  {
    hide ToByte, Bytes8;
  }

  /** The rest of a request: address mode, endpoints, no options, radius 15; a pairing goes to everybody in every PAN. */
  lemma RequestHeader(m: Factory.Msg, tid: byte)
    requires |m.asdu| <= 100
    ensures var d := DataRequest(m, tid).data;
            if m.broadcast && m.pan == 0xFFFF then
              && |d| >= 20 && d[..13] == [0x0F, 0xFF, 0xFF, 0xFF, 0xFF, 0xFF, 0xFF, 0xFF, 0xFF, 0x14, 0xFF, 0xFF, 0x14]
              && d[15..18] == [tid, 0x00, 0x0F] && d[19] == 0x00
            else |d| >= 10 && d[2..4] == [0x14, 0x14] && d[6..9] == [tid, 0x00, 0x0F]
  {
    hide DataRequest;
    if IsPairing(m) {
      PairingHeader(m, tid);
    } else {
      PlainHeader(m, tid);
    }
  }
}
