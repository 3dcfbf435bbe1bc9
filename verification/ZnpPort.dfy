/** The read loop of `ZnpRadio::loop`: bytes from the port through the parser to the modem's state machine. */
module ZnpPort {
  import opened Words
  import opened Bytes
  import opened ZnpCodec
  import T = ZnpTheorems
  import M = Modem
  import D = ModemDriver

  const READ_GUARD := 1024

  /** Bytes read in one go carry one time. */
  function Feeding(bytes: seq<byte>, now: u32): (ins: seq<Input>)
    ensures |ins| == |bytes|
  {
    seq(|bytes|, k requires 0 <= k < |bytes| => Input(bytes[k], now))
  }

  /** No byte of a run is stored behind the room for the data of a frame. */
  predicate Sized(s: State, ins: seq<Input>) {
    forall n | 0 <= n < |ins| :: !Overruns(T.Run(s, ins[..n]).0, ins[n])
  }

  function FrameEvents(frames: seq<ZnpFrame>, now: u32): (events: seq<M.Event>)
    ensures |events| == |frames|
  {
    seq(|frames|, k requires 0 <= k < |frames| => M.Frame(frames[k], now))
  }

  lemma NextInput(s: State, ins: seq<Input>, k: nat)
    requires k < |ins|
    ensures T.Run(s, ins[..k + 1]).0 == Step(T.Run(s, ins[..k]).0, ins[k]).0
    ensures T.Run(s, ins[..k + 1]).1 == T.Run(s, ins[..k]).1 + T.Opt(Step(T.Run(s, ins[..k]).0, ins[k]).1)
  {
    hide Step;
    assert ins[..k + 1] == ins[..k] + [ins[k]];
    T.RunAppend(s, ins[..k], [ins[k]]);
    assert [ins[k]][1..] == [];
  }

  lemma NextFrame(s: M.ModemState, hasReset: bool, frames: seq<ZnpFrame>, f: ZnpFrame, now: u32)
    ensures M.Run(s, hasReset, FrameEvents(frames + [f], now))
         == M.OnFrame(M.Run(s, hasReset, FrameEvents(frames, now)), hasReset, f, now)
  {
    var events := FrameEvents(frames + [f], now);
    assert events[..|frames|] == FrameEvents(frames, now);
  }

  /** What a byte does to the modem, given what the parser made of it. */
  function Handled(m: M.ModemState, hasReset: bool, out: Option<ZnpFrame>, now: u32): M.ModemState {
    if out.Some? then M.OnFrame(m, hasReset, out.value, now) else m
  }

  lemma NextHandled(m: M.ModemState, hasReset: bool, s: State, ins: seq<Input>, k: nat, now: u32)
    requires k < |ins|
    ensures M.Run(m, hasReset, FrameEvents(T.Run(s, ins[..k + 1]).1, now))
         == Handled(M.Run(m, hasReset, FrameEvents(T.Run(s, ins[..k]).1, now)), hasReset,
                    Step(T.Run(s, ins[..k]).0, ins[k]).1, now)
  {
    hide Step, M.OnFrame;
    NextInput(s, ins, k);
    var frames, out := T.Run(s, ins[..k]).1, Step(T.Run(s, ins[..k]).0, ins[k]).1;
    if out.Some? {
      NextFrame(m, hasReset, frames, out.value, now);
    } else {
      assert frames + [] == frames;
    }
  }

  method ReadByte(radio: D.ZnpRadio, parser: ZnpParser, b: byte, now: u32)
    requires radio.Valid() && parser.Valid()
    requires !Overruns(parser.View(), Input(b, now))
    modifies radio, parser, parser.data
    ensures radio.Valid() && parser.Valid()
    ensures parser.View() == Step(old(parser.View()), Input(b, now)).0
    ensures radio.View() == Handled(old(radio.View()), radio.hasReset, Step(old(parser.View()), Input(b, now)).1, now)
  {
    hide Step, M.OnFrame, M.Inv, Overruns;
    var out := parser.Feed(b, now);
    if out.Some? {
      radio.HandleFrame(out.value, now);
    }
  }

  method Tick(radio: D.ZnpRadio, now: u32)
    requires radio.Valid()
    modifies radio
    ensures radio.Valid() && radio.View() == M.Step(old(radio.View()), radio.hasReset, M.Tick(now))
  {
    hide M.OnTick, M.Inv;
    M.TickKeepsInv(radio.Up(), radio.hasReset, now);
    radio.RunStateMachine(now);
  }

  lemma ThenTick(m: M.ModemState, hasReset: bool, frames: seq<ZnpFrame>, now: u32)
    ensures M.Run(m, hasReset, D.LoopEvents(frames, now))
         == M.Step(M.Run(m, hasReset, FrameEvents(frames, now)), hasReset, M.Tick(now))
  {
    hide M.Step;
    var events := D.LoopEvents(frames, now);
    assert events[..|frames|] == FrameEvents(frames, now);
  }

  /** Reads what the port holds, at most 1024 bytes, then runs the state machine once: the modem sees exactly the frames
      the bytes decode to, in order. Returns what is left in the port. */
  method ReadLoop(radio: D.ZnpRadio, parser: ZnpParser, port: seq<byte>, now: u32) returns (rest: seq<byte>)
    requires radio.Valid() && parser.Valid()
    requires Sized(parser.View(), Feeding(port, now))
    modifies radio, parser, parser.data
    ensures radio.Valid() && parser.Valid()
    ensures var n := if |port| < READ_GUARD then |port| else READ_GUARD;
            var r := T.Run(old(parser.View()), Feeding(port, now)[..n]);
            && rest == port[n..] && parser.View() == r.0
            && radio.View() == M.Run(old(radio.View()), radio.hasReset, D.LoopEvents(r.1, now))
  {
    hide Step, Overruns, Handled, T.Run, M.Run, M.Step, M.Inv;
    ghost var ins, s0, m0 := Feeding(port, now), parser.View(), radio.View();
    var guard := 0;
    NothingRead(s0, m0, radio.hasReset, ins, now);
    while guard < READ_GUARD && guard < |port|
      invariant guard <= READ_GUARD && guard <= |port|
      invariant radio.Valid() && parser.Valid()
      invariant parser.View() == T.Run(s0, ins[..guard]).0
      invariant radio.View() == M.Run(m0, radio.hasReset, FrameEvents(T.Run(s0, ins[..guard]).1, now))
      decreases |port| - guard
    {
      assert !Overruns(T.Run(s0, ins[..guard]).0, ins[guard]);
      NextInput(s0, ins, guard);
      NextHandled(m0, radio.hasReset, s0, ins, guard, now);
      ReadByte(radio, parser, port[guard], now);
      guard := guard + 1;
    }
    ThenTick(m0, radio.hasReset, T.Run(s0, ins[..guard]).1, now);
    Tick(radio, now);
    rest := port[guard..];
  }

  lemma NothingRead(s: State, m: M.ModemState, hasReset: bool, ins: seq<Input>, now: u32)
    ensures T.Run(s, ins[..0]) == (s, [])
    ensures M.Run(m, hasReset, FrameEvents([], now)) == m
  {
  }

  // ------------------------------------------------------------------------------------------------------------------
  // When a byte is stored behind the room for it
  // ------------------------------------------------------------------------------------------------------------------

  /** A start byte, a length above 250, two command bytes and 251 data bytes. */
  const TOO_LONG := ZNP_MAX_DATA + 5

  /** From byte `start` on, such a frame comes in without a late byte. */
  predicate Oversize(ins: seq<Input>, start: nat) {
    start + TOO_LONG <= |ins| && ins[start].b == SOF_BYTE && ins[start + 1].b as int > ZNP_MAX_DATA &&
    T.Flowing(ins[start..start + TOO_LONG])
  }

  lemma OverrunRead(t: State, got: seq<byte>, i: Input)
    requires T.Inside(t, got) && Overruns(t, i)
    ensures |got| + 1 >= TOO_LONG && got[0] == SOF_BYTE && got[1] as int > ZNP_MAX_DATA && !Late(i.now, t.lastByte)
  {
  }

  lemma ReadingOversize(t: State, ins: seq<Input>, got: seq<byte>, i: Input)
    requires T.Reading(t, ins, got) && Overruns(t, i)
    ensures |got| <= |ins| && Oversize(ins + [i], |ins| - |got|)
  {
    hide Late, T.Inside, Overruns;
    OverrunRead(t, got, i);
    var a, start := ins[|ins| - |got|..], |ins| - |got|;
    assert a[|a| - 1] == ins[|ins| - 1];
    T.CarriesOn(a, got, i);
    assert a[0] == ins[start] && a[1] == ins[start + 1];
    assert (ins + [i])[start..start + TOO_LONG] == (a + [i])[..TOO_LONG];
  }

  lemma OversizeLonger(ins: seq<Input>, n: nat, start: nat)
    requires n <= |ins| && Oversize(ins[..n], start)
    ensures Oversize(ins, start)
  {
    assert ins[..n][start..start + TOO_LONG] == ins[start..start + TOO_LONG];
  }

  lemma OverrunBegins(s: State, ins: seq<Input>, n: nat) returns (start: nat)
    requires s.phase == SOF && n < |ins| && Overruns(T.Run(s, ins[..n]).0, ins[n])
    ensures start < |ins| && T.TakenAsStart(s, ins, start) && Oversize(ins, start)
  {
    hide Late, T.Reading, T.Run, Oversize;
    var before, t := ins[..n], T.Run(s, ins[..n]).0;
    var got := T.WaitsOrReads(s, before);
    ReadingOversize(t, before, got, ins[n]);
    start := n - |got|;
    assert before[..start] == ins[..start];
    assert before + [ins[n]] == ins[..n + 1];
    OversizeLonger(ins, n + 1, start);
  }

  function BytesOf(ins: seq<Input>): (r: seq<byte>)
    ensures |r| == |ins|
  {
    seq(|ins|, k requires 0 <= k < |ins| => ins[k].b)
  }

  lemma NoneLate(ins: seq<Input>, start: nat, k: nat)
    requires Oversize(ins, start) && 0 < k < TOO_LONG
    ensures !Late(ins[start + k].now, ins[start + k - 1].now)
  {
    var part := ins[start..start + TOO_LONG];
    assert part[k] == ins[start + k] && part[k - 1] == ins[start + k - 1];
  }

  lemma {:induction false} ReadsOn(s: State, ins: seq<Input>, start: nat, n: nat)
    requires Oversize(ins, start) && T.TakenAsStart(s, ins, start) && 1 <= n < TOO_LONG
    ensures var t := T.Run(s, ins[..start + n]).0;
            T.Inside(t, BytesOf(ins[start..start + n])) && t.lastByte == ins[start + n - 1].now
  {
    hide Late, T.Inside, T.Run, Step, T.Flowing;
    var k := start + n - 1;
    NextInput(s, ins, k);
    if n == 1 {
      Begins(T.Run(s, ins[..start]).0, ins[start]);
      assert BytesOf(ins[start..start + 1]) == [SOF_BYTE];
    } else {
      ReadsOn(s, ins, start, n - 1);
      var t, got := T.Run(s, ins[..k]).0, BytesOf(ins[start..k]);
      NoneLate(ins, start, n - 1);
      assert n > 2 ==> got[1] == ins[start + 1].b;
      StillReading(t, got);
      T.InsideSteps(t, got, ins[k]);
      BytesNext(ins, start, k);
    }
  }

  lemma BytesNext(ins: seq<Input>, start: nat, k: nat)
    requires start <= k < |ins|
    ensures BytesOf(ins[start..k + 1]) == BytesOf(ins[start..k]) + [ins[k].b]
  {
  }

  lemma Begins(t: State, i: Input)
    requires (t.phase == SOF || Stalled(t, i.now)) && i.b == SOF_BYTE
    ensures T.Inside(Step(t, i).0, [SOF_BYTE]) && Step(t, i).0.lastByte == i.now
  {
  }

  lemma StillReading(t: State, got: seq<byte>)
    requires T.Inside(t, got) && |got| < TOO_LONG && (|got| >= 2 ==> got[1] as int > ZNP_MAX_DATA)
    ensures t.phase != FCS
    ensures |got| == TOO_LONG - 1 ==> t.phase == DATA && |t.data| == ZNP_MAX_DATA
  {
  }

  /** The exact condition: over any run, a byte is stored behind the 250 bytes there is room for if and only if some
      byte taken for a start byte is followed, none of them late, by a length above 250, two command bytes and 251
      data bytes. */
  lemma SizedExactly(s: State, ins: seq<Input>)
    requires s.phase == SOF
    ensures Sized(s, ins) <==>
            forall start | 0 <= start < |ins| && Oversize(ins, start) :: !T.TakenAsStart(s, ins, start)
  {
    hide Oversize, Overruns, T.TakenAsStart;
    if !Sized(s, ins) {
      var n :| 0 <= n < |ins| && Overruns(T.Run(s, ins[..n]).0, ins[n]);
      var start := OverrunBegins(s, ins, n);
    }
    forall start | 0 <= start < |ins| && Oversize(ins, start) && T.TakenAsStart(s, ins, start)
      ensures !Sized(s, ins)
    {
      OversizeOverruns(s, ins, start);
    }
  }

  lemma OversizeOverruns(s: State, ins: seq<Input>, start: nat)
    requires Oversize(ins, start) && T.TakenAsStart(s, ins, start)
    ensures !Sized(s, ins)
  {
    hide Late, T.Inside, T.TakenAsStart, T.Run;
    var k := TOO_LONG - 1;
    var n := start + k;
    ReadsOn(s, ins, start, k);
    assert BytesOf(ins[start..n])[1] == ins[start + 1].b;
    StillReading(T.Run(s, ins[..n]).0, BytesOf(ins[start..n]));
    NoneLate(ins, start, k);
    assert Overruns(T.Run(s, ins[..n]).0, ins[n]);
  }

  /** For one, to a parser that waits, 251 data bytes announced as 255 and sent at once. */
  lemma LongFrameOverruns(s: State, now: u32)
    requires s.phase == SOF
    ensures !Sized(s, Feeding([SOF_BYTE, 0xFF, 0, 0] + seq(251, _ => 0), now))
  {
    var ins := Feeding([SOF_BYTE, 0xFF, 0, 0] + seq(251, _ => 0), now);
    assert ins[..0] == [];
    assert T.TakenAsStart(s, ins, 0);
    assert Oversize(ins, 0);
    OversizeOverruns(s, ins, 0);
  }

  // ------------------------------------------------------------------------------------------------------------------
  // From encoded frames to the modem
  // ------------------------------------------------------------------------------------------------------------------

  lemma SizedAppend(s: State, a: seq<Input>, b: seq<Input>)
    requires Sized(s, a) && Sized(T.Run(s, a).0, b)
    ensures Sized(s, a + b)
  {
    hide Overruns, T.Run;
    var all, t := a + b, T.Run(s, a).0;
    forall n | 0 <= n < |all|
      ensures !Overruns(T.Run(s, all[..n]).0, all[n])
    {
      if n < |a| {
        assert all[..n] == a[..n];
      } else {
        var k := n - |a|;
        assert all[..n] == a + b[..k];
        T.RunAppend(s, a, b[..k]);
        assert !Overruns(T.Run(t, b[..k]).0, b[k]);
      }
    }
  }

  /** Byte by byte. */
  lemma SizedNext(s: State, ins: seq<Input>)
    requires ins != [] && !Overruns(s, ins[0]) && Sized(Step(s, ins[0]).0, ins[1..])
    ensures Sized(s, ins)
  {
    hide Overruns, Step;
    assert ins == [ins[0]] + ins[1..];
    assert [ins[0]][1..] == [] && [ins[0]][..0] == [];
    assert Sized(s, [ins[0]]);
    SizedAppend(s, [ins[0]], ins[1..]);
  }

  lemma {:induction false} NoiseIsSized(s: State, ins: seq<Input>)
    requires s.phase == SOF && T.GoodSegment(T.Noise(ins))
    ensures Sized(s, ins)
    decreases |ins|
  {
    hide Sized;
    if ins == [] {
      NothingIsSized(s);
    } else {
      NoiseIsSized(Step(s, ins[0]).0, ins[1..]);
      SizedNext(s, ins);
    }
  }

  lemma DataIsTail(s: State, got: seq<byte>)
    requires T.Inside(s, got)
    ensures s.phase == DATA ==> |s.data| == |got| - 4
  {
  }

  lemma {:induction false} RestIsSized(s: State, n: nat, ins: seq<Input>, bytes: seq<byte>)
    requires T.Framed(bytes) && |bytes| <= ZNP_MAX_DATA + 5 && 0 < n < |bytes| && T.Inside(s, bytes[..n])
    requires T.Carries(ins, bytes[n..]) && T.Flowing(ins) && !Late(ins[0].now, s.lastByte)
    ensures Sized(s, ins)
    decreases |ins|
  {
    hide Step, Late, T.Inside, Sized, T.Flowing, T.Carries, Overruns;
    T.NextCarried(ins, bytes, n);
    NotOverrun(s, bytes, n, ins[0]);
    if n == |bytes| - 1 {
      assert ins[1..] == [];
      NothingIsSized(Step(s, ins[0]).0);
    } else {
      T.NotYetAtSum(s, n, bytes);
      T.InsideSteps(s, bytes[..n], ins[0]);
      RestIsSized(Step(s, ins[0]).0, n + 1, ins[1..], bytes);
    }
    SizedNext(s, ins);
  }

  lemma NotOverrun(s: State, bytes: seq<byte>, n: nat, i: Input)
    requires T.Framed(bytes) && |bytes| <= ZNP_MAX_DATA + 5 && 0 < n < |bytes| && T.Inside(s, bytes[..n])
    ensures !Overruns(s, i)
  {
    DataIsTail(s, bytes[..n]);
    if n == |bytes| - 1 {
      SumIsLast(s, bytes);
    }
  }

  lemma SumIsLast(s: State, bytes: seq<byte>)
    requires T.Framed(bytes) && T.Inside(s, bytes[..|bytes| - 1])
    ensures s.phase != DATA
  {
    assert bytes[..|bytes| - 1][1] == bytes[1];
  }

  lemma CodedIsSized(s: State, f: ZnpFrame, ins: seq<Input>)
    requires s.phase == SOF && |f.data| <= ZNP_MAX_DATA && T.GoodSegment(T.Coded(f, ins))
    ensures Sized(s, ins)
  {
    hide Encode, Step, Late, XorAll, T.Inside, Sized;
    var bytes := Encode(f);
    T.EncodeFramed(f);
    assert |bytes| - 5 == |T.FrameIn(bytes).data|;
    StartByte(s, ins[0]);
    assert ins[0].b == bytes[0] && bytes[..1] == [SOF_BYTE];
    assert T.Carries(ins[1..], bytes[1..]);
    assert T.Flowing(ins[1..]) && !Late(ins[1].now, ins[0].now);
    RestIsSized(Step(s, ins[0]).0, 1, ins[1..], bytes);
    SizedNext(s, ins);
  }

  lemma StartByte(s: State, i: Input)
    requires s.phase == SOF
    ensures Step(s, i).0.lastByte == i.now
    ensures i.b == SOF_BYTE ==> T.Inside(Step(s, i).0, [SOF_BYTE])
  {
  }

  predicate Plain(g: T.Segment) {
    T.GoodSegment(g) && (g.Coded? ==> |g.f.data| <= ZNP_MAX_DATA)
  }

  lemma {:induction false} StreamIsSized(s: State, gs: seq<T.Segment>)
    requires s.phase == SOF && forall k | 0 <= k < |gs| :: Plain(gs[k])
    ensures Sized(s, T.Stream(gs))
    decreases |gs|
  {
    hide Step, Sized;
    if gs == [] {
      NothingIsSized(s);
    } else {
      var g := gs[0];
      assert Plain(g);
      if g.Coded? {
        CodedIsSized(s, g.f, g.ins);
        T.DecodesAfterPause(s, g.ins, g.f);
      } else {
        NoiseIsSized(s, g.ins);
        T.NoiseRun(s, g.ins);
      }
      StreamIsSized(T.Run(s, g.ins).0, gs[1..]);
      SizedAppend(s, g.ins, T.Stream(gs[1..]));
    }
  }

  lemma NothingIsSized(s: State)
    ensures Sized(s, [])
  {
  }

  /** From the line to the state machine: when the bytes in the port are encoded frames with noise between them, a
      call of loop() has the effect of exactly those frames, in order, and then the tick. */
  lemma ModemHearsStream(s: State, m: M.ModemState, hasReset: bool, bytes: seq<byte>, now: u32, gs: seq<T.Segment>)
    requires s.phase == SOF && Feeding(bytes, now) == T.Stream(gs) && forall k | 0 <= k < |gs| :: Plain(gs[k])
    ensures Sized(s, Feeding(bytes, now))
    ensures M.Run(m, hasReset, D.LoopEvents(T.Run(s, Feeding(bytes, now)).1, now))
         == M.Run(m, hasReset, D.LoopEvents(T.FramesOf(gs), now))
  {
    hide M.Run, Sized;
    StreamIsSized(s, gs);
    forall k | 0 <= k < |gs|
      ensures T.GoodSegment(gs[k])
    {
      assert Plain(gs[k]);
    }
    T.StreamDecodes(s, gs);
  }
}
