/** The ZNP stream: what was encoded is decoded, and nothing else is. */
module ZnpTheorems {
  import opened Words
  import opened Bytes
  import opened ZnpCodec

  function Opt(o: Option<ZnpFrame>): seq<ZnpFrame> {
    if o.None? then [] else [o.value]
  }

  /** State and frames after a run of bytes. */
  function Run(s: State, ins: seq<Input>): (State, seq<ZnpFrame>)
    decreases |ins|
  {
    if ins == [] then (s, []) else
    var rest := Run(Step(s, ins[0]).0, ins[1..]);
    (rest.0, Opt(Step(s, ins[0]).1) + rest.1)
  }

  /** No byte is late with respect to the one before it. */
  predicate Flowing(ins: seq<Input>) {
    forall k | 0 < k < |ins| :: !Late(ins[k].now, ins[k - 1].now)
  }

  predicate Carries(ins: seq<Input>, bytes: seq<byte>) {
    |ins| == |bytes| && forall k | 0 <= k < |ins| :: ins[k].b == bytes[k]
  }

  /** A byte is late when more than 250 ms have really gone by since the one before it, as long as it was less than
      2^31 ms. */
  lemma LateMeans(last: nat, now: nat)
    requires last <= now < last + 0x8000_0000
    ensures Late(Millis(now), Millis(last)) <==> now - last > 250
  {
    ElapsedIs(last, now);
  }

  // ------------------------------------------------------------------------------------------------------------------
  // Inside a frame
  // ------------------------------------------------------------------------------------------------------------------

  /** The parser has read `got` since, and including, a start byte. */
  predicate Inside(s: State, got: seq<byte>) {
    && got != [] && got[0] == SOF_BYTE
    && (|got| >= 2 ==> s.len == got[1] as int && s.fcs == XorAll(got[1..]))
    && (|got| >= 3 ==> s.cmd0 == got[2])
    && (|got| >= 4 ==> s.cmd1 == got[3] && s.data == got[4..] && |s.data| <= s.len)
    && s.phase == (if |got| == 1 then LEN else if |got| == 2 then CMD0 else if |got| == 3 then CMD1
                   else if |got| - 4 < s.len then DATA else FCS)
  }

  lemma XorOfTail(got: seq<byte>, b: byte)
    requires got != []
    ensures XorAll((got + [b])[1..]) == XorAll(got[1..]) ^ b
  {
    XorAppend(got[1..], b);
    assert (got + [b])[1..] == got[1..] + [b];
  }

  lemma HeadStep(s: State, got: seq<byte>, i: Input)
    requires Inside(s, got) && |got| == 1 && !Late(i.now, s.lastByte)
    ensures var (t, o) := Step(s, i);
            o == None && Inside(t, got + [i.b]) && t.lastByte == i.now && t.bad == s.bad
  {
    XorOfTail(got, i.b);
    assert got[1..] == [] && XorAll([]) == 0 && 0 ^ i.b == i.b;
  }

  lemma Cmd0Step(s: State, got: seq<byte>, i: Input)
    requires Inside(s, got) && |got| == 2 && !Late(i.now, s.lastByte)
    ensures var (t, o) := Step(s, i);
            o == None && Inside(t, got + [i.b]) && t.lastByte == i.now && t.bad == s.bad
  {
    XorOfTail(got, i.b);
  }

  lemma Cmd1Step(s: State, got: seq<byte>, i: Input)
    requires Inside(s, got) && |got| == 3 && !Late(i.now, s.lastByte)
    ensures var (t, o) := Step(s, i);
            o == None && Inside(t, got + [i.b]) && t.lastByte == i.now && t.bad == s.bad
  {
    XorOfTail(got, i.b);
    assert (got + [i.b])[4..] == [];
  }

  lemma DataStep(s: State, got: seq<byte>, i: Input)
    requires Inside(s, got) && |got| >= 4 && s.phase != FCS && !Late(i.now, s.lastByte)
    ensures var (t, o) := Step(s, i);
            o == None && Inside(t, got + [i.b]) && t.lastByte == i.now && t.bad == s.bad
  {
    XorOfTail(got, i.b);
    assert (got + [i.b])[4..] == got[4..] + [i.b];
  }

  lemma InsideSteps(s: State, got: seq<byte>, i: Input)
    requires Inside(s, got) && s.phase != FCS && !Late(i.now, s.lastByte)
    ensures var (t, o) := Step(s, i);
            o == None && Inside(t, got + [i.b]) && t.lastByte == i.now && t.bad == s.bad
  {
    if |got| == 1 {
      HeadStep(s, got, i);
    } else if |got| == 2 {
      Cmd0Step(s, got, i);
    } else if |got| == 3 {
      Cmd1Step(s, got, i);
    } else {
      DataStep(s, got, i);
    }
  }

  lemma InsideEnds(s: State, got: seq<byte>, i: Input)
    requires Inside(s, got) && s.phase == FCS && !Late(i.now, s.lastByte)
    ensures var (t, o) := Step(s, i);
            t.phase == SOF && t.lastByte == i.now &&
            if i.b == XorAll(got[1..]) then o == Some(ZnpFrame(got[2], got[3], got[4..])) && t.bad == s.bad
            else o == None && t.bad == Add32(s.bad, 1)
  {
  }

  // ------------------------------------------------------------------------------------------------------------------
  // One frame, whatever its checksum byte
  // ------------------------------------------------------------------------------------------------------------------

  /** A byte string cut like a frame: start byte, length, and as many bytes as the length says. */
  predicate Framed(bytes: seq<byte>) {
    |bytes| >= 5 && bytes[0] == 0xFE && bytes[1] as int == |bytes| - 5
  }

  predicate SumOk(bytes: seq<byte>)
    requires Framed(bytes)
  {
    bytes[|bytes| - 1] == XorAll(bytes[1..|bytes| - 1])
  }

  function FrameIn(bytes: seq<byte>): ZnpFrame
    requires Framed(bytes)
  {
    ZnpFrame(bytes[2], bytes[3], bytes[4..|bytes| - 1])
  }

  /** The outcome of a run over one framed byte string that started with the bad counter at `bad`. */
  predicate Verdict(bad: u32, bytes: seq<byte>, r: (State, seq<ZnpFrame>))
    requires Framed(bytes)
  {
    r.0.phase == SOF &&
    if SumOk(bytes) then r.1 == [FrameIn(bytes)] && r.0.bad == bad else r.1 == [] && r.0.bad == Add32(bad, 1)
  }

  lemma LastByte(s: State, i: Input, bytes: seq<byte>)
    requires Framed(bytes) && Inside(s, bytes[..|bytes| - 1]) && i.b == bytes[|bytes| - 1] && !Late(i.now, s.lastByte)
    ensures Verdict(s.bad, bytes, (Step(s, i).0, Opt(Step(s, i).1)))
  {
    var n := |bytes| - 1;
    var got := bytes[..n];
    assert got[1] == bytes[1] && got[2] == bytes[2] && got[3] == bytes[3];
    assert got[1..] == bytes[1..n] && got[4..] == bytes[4..n];
    InsideEnds(s, got, i);
  }

  lemma NotYetAtSum(s: State, n: nat, bytes: seq<byte>)
    requires Framed(bytes) && 0 < n < |bytes| - 1 && Inside(s, bytes[..n])
    ensures s.phase != FCS
  {
    assert n >= 2 ==> bytes[..n][1] == bytes[1];
  }

  /** The next byte of what carries the rest of a byte string. */
  lemma NextCarried(ins: seq<Input>, bytes: seq<byte>, n: nat)
    requires n < |bytes| && Carries(ins, bytes[n..]) && Flowing(ins)
    ensures |ins| == |bytes| - n && ins[0].b == bytes[n] && bytes[..n] + [ins[0].b] == bytes[..n + 1]
    ensures n < |bytes| - 1 ==> Carries(ins[1..], bytes[n + 1..]) && Flowing(ins[1..]) && !Late(ins[1].now, ins[0].now)
  {
    hide Late;
    assert bytes[n..][1..] == bytes[n + 1..];
  }

  lemma {:induction false} RestOfFrame(s: State, n: nat, ins: seq<Input>, bytes: seq<byte>)
    requires Framed(bytes) && 0 < n < |bytes| && Inside(s, bytes[..n]) && Carries(ins, bytes[n..])
    requires Flowing(ins) && !Late(ins[0].now, s.lastByte)
    ensures Verdict(s.bad, bytes, Run(s, ins))
    decreases |ins|
  {
    hide Step, Inside, SumOk, FrameIn, Late, Carries, Flowing;
    NextCarried(ins, bytes, n);
    if n == |bytes| - 1 {
      LastByte(s, ins[0], bytes);
      assert ins[1..] == [];
    } else {
      NotYetAtSum(s, n, bytes);
      InsideSteps(s, bytes[..n], ins[0]);
      RestOfFrame(Step(s, ins[0]).0, n + 1, ins[1..], bytes);
    }
  }

  /** A framed byte string, fed without a stall to a parser that waits for a start byte or has been left waiting too
      long, is decoded if its checksum fits, and otherwise rejected and counted. */
  lemma FrameRun(s: State, ins: seq<Input>, bytes: seq<byte>)
    requires Framed(bytes) && Carries(ins, bytes) && Flowing(ins)
    requires s.phase == SOF || Stalled(s, ins[0].now)
    ensures Verdict(if s.phase == SOF then s.bad else Add32(s.bad, 1), bytes, Run(s, ins))
  {
    var t := Step(s, ins[0]).0;
    assert bytes[..1] == [SOF_BYTE];
    assert Flowing(ins[1..]);
    assert !Late(ins[1].now, ins[0].now);
    RestOfFrame(t, 1, ins[1..], bytes);
  }

  lemma Sandwich(a: byte, c: seq<byte>, x: byte)
    ensures var e := [a] + c + [x];
            e[1..|e| - 1] == c && (forall k | 0 <= k < |c| :: e[k + 1] == c[k]) &&
            (|c| >= 3 ==> e[4..|e| - 1] == c[3..])
  {
  }

  lemma EncodeFramed(f: ZnpFrame)
    requires |f.data| < 0x100
    ensures Framed(Encode(f)) && SumOk(Encode(f)) && FrameIn(Encode(f)) == f
  {
    var c := Covered(f);
    Sandwich(SOF_BYTE, c, XorAll(c));
    assert c[3..] == f.data;
    var e := Encode(f);
    assert e[1] == c[0] && e[2] == c[1] && e[3] == c[2];
  }

  lemma EncodingUnique(bytes: seq<byte>)
    requires Framed(bytes) && SumOk(bytes)
    ensures |FrameIn(bytes).data| < 0x100 && Encode(FrameIn(bytes)) == bytes
  {
    hide XorAll, ToByte;
    var n := |bytes| - 1;
    var c := bytes[1..n];
    assert c == [bytes[1], bytes[2], bytes[3]] + bytes[4..n];
    BytesDiffer(bytes[1], ToByte(n - 4));
    assert bytes == [SOF_BYTE] + c + [bytes[n]];
  }

  /** Recovery: from any state, waiting or in the middle of a frame, an encoding that follows a pause of more than
      250 ms (and less than 2^31 ms) is decoded. */
  lemma DecodesAfterPause(s: State, ins: seq<Input>, f: ZnpFrame)
    requires |f.data| < 0x100 && Carries(ins, Encode(f)) && Flowing(ins)
    requires s.phase == SOF || Stalled(s, ins[0].now)
    ensures Run(s, ins).1 == [f] && Run(s, ins).0.phase == SOF
    ensures Run(s, ins).0.bad == if s.phase == SOF then s.bad else Add32(s.bad, 1)
  {
    EncodeFramed(f);
    FrameRun(s, ins, Encode(f));
  }

  lemma {:induction false} XorChange(s: seq<byte>, k: nat, x: byte)
    requires k < |s|
    ensures XorAll(s[k := x]) == XorAll(s) ^ s[k] ^ x
  {
    var n := |s| - 1;
    var t := s[k := x];
    if k == n {
      assert t[..n] == s[..n];
      XorCancel(XorAll(s[..n]), s[n], x);
    } else {
      XorChange(s[..n], k, x);
      assert t[..n] == s[..n][k := x];
      XorSwap(XorAll(s[..n]), s[k], x, s[n]);
    }
  }

  lemma XorCancel(a: byte, b: byte, x: byte)
    ensures a ^ x == (a ^ b) ^ b ^ x
  {
  }

  lemma XorSwap(a: byte, b: byte, x: byte, c: byte)
    ensures (a ^ b ^ x) ^ c == (a ^ c) ^ b ^ x
  {
  }

  lemma XorDiffers(a: byte, b: byte, x: byte)
    requires b != x
    ensures a ^ b ^ x != a
  {
  }

  lemma ChangedXor(c: seq<byte>, k: nat, x: byte)
    requires k < |c| && x != c[k]
    ensures XorAll(c[k := x]) != XorAll(c)
  {
    XorChange(c, k, x);
    XorDiffers(XorAll(c), c[k], x);
  }

  lemma WrongSum(bytes: seq<byte>, k: nat, x: byte)
    requires Framed(bytes) && SumOk(bytes) && 2 <= k < |bytes| && x != bytes[k]
    ensures Framed(bytes[k := x]) && !SumOk(bytes[k := x])
  {
    hide XorAll;
    var n := |bytes| - 1;
    var c, d := bytes[1..n], bytes[k := x];
    assert |d| == |bytes| && d[0] == bytes[0] && d[1] == bytes[1];
    if k < n {
      assert d[n] == bytes[n];
      ChangedXor(c, k - 1, x);
      assert d[1..n] == c[k - 1 := x];
    } else {
      assert d[n] == x;
      assert d[1..n] == c;
    }
  }

  /** Error detection: one wrong byte among command, data and checksum, and the frame is rejected and counted bad. */
  lemma WrongByteRejected(s: State, ins: seq<Input>, f: ZnpFrame, k: nat, x: byte)
    requires |f.data| < 0x100 && 2 <= k < |Encode(f)| && x != Encode(f)[k]
    requires s.phase == SOF && Carries(ins, Encode(f)[k := x]) && Flowing(ins)
    ensures Run(s, ins).1 == [] && Run(s, ins).0.phase == SOF && Run(s, ins).0.bad == Add32(s.bad, 1)
  {
    EncodeFramed(f);
    WrongSum(Encode(f), k, x);
    FrameRun(s, ins, Encode(f)[k := x]);
  }

  // ------------------------------------------------------------------------------------------------------------------
  // Streams
  // ------------------------------------------------------------------------------------------------------------------

  /** Line noise without a start byte, or the encoding of a frame. */
  datatype Segment = Noise(ins: seq<Input>) | Coded(f: ZnpFrame, ins: seq<Input>)

  predicate GoodSegment(g: Segment) {
    match g
    case Noise(ins) => forall k | 0 <= k < |ins| :: ins[k].b != SOF_BYTE
    case Coded(f, ins) => |f.data| < 0x100 && Carries(ins, Encode(f)) && Flowing(ins)
  }

  function Stream(gs: seq<Segment>): seq<Input> {
    if gs == [] then [] else gs[0].ins + Stream(gs[1..])
  }

  function FramesOf(gs: seq<Segment>): seq<ZnpFrame> {
    if gs == [] then [] else (if gs[0].Coded? then [gs[0].f] else []) + FramesOf(gs[1..])
  }

  lemma {:induction false} NoiseRun(s: State, ins: seq<Input>)
    requires s.phase == SOF && GoodSegment(Noise(ins))
    ensures Run(s, ins).1 == [] && Run(s, ins).0.phase == SOF && Run(s, ins).0.bad == s.bad
    decreases |ins|
  {
    if ins != [] {
      NoiseRun(Step(s, ins[0]).0, ins[1..]);
    }
  }

  lemma {:induction false} RunAppend(s: State, a: seq<Input>, b: seq<Input>)
    ensures Run(s, a + b).0 == Run(Run(s, a).0, b).0
    ensures Run(s, a + b).1 == Run(s, a).1 + Run(Run(s, a).0, b).1
    decreases |a|
  {
    if a == [] {
      assert a + b == b;
      assert Run(s, a) == (s, []);
    } else {
      assert (a + b)[0] == a[0] && (a + b)[1..] == a[1..] + b;
      var t := Step(s, a[0]).0;
      RunAppend(t, a[1..], b);
      assert Run(s, a).0 == Run(t, a[1..]).0;
      assert Run(s, a).1 == Opt(Step(s, a[0]).1) + Run(t, a[1..]).1;
    }
  }

  /** Completeness: a stream of encoded frames with any noise between them decodes to exactly those frames. */
  lemma {:induction false} StreamDecodes(s: State, gs: seq<Segment>)
    requires s.phase == SOF && forall k | 0 <= k < |gs| :: GoodSegment(gs[k])
    ensures Run(s, Stream(gs)).1 == FramesOf(gs)
    ensures Run(s, Stream(gs)).0.phase == SOF && Run(s, Stream(gs)).0.bad == s.bad
    decreases |gs|
  {
    if gs != [] {
      var g := gs[0];
      assert GoodSegment(g);
      if g.Coded? {
        DecodesAfterPause(s, g.ins, g.f);
      } else {
        NoiseRun(s, g.ins);
      }
      RunAppend(s, g.ins, Stream(gs[1..]));
      StreamDecodes(Run(s, g.ins).0, gs[1..]);
    }
  }

  // ------------------------------------------------------------------------------------------------------------------
  // Soundness
  // ------------------------------------------------------------------------------------------------------------------

  /** The last `|got|` bytes of a run are `got`, none of them late, and the parser is inside the frame they begin. */
  predicate Reading(s: State, ins: seq<Input>, got: seq<byte>) {
    |got| <= |ins| && Inside(s, got) && Carries(ins[|ins| - |got|..], got) && Flowing(ins[|ins| - |got|..]) &&
    s.lastByte == ins[|ins| - 1].now
  }

  lemma ReadingSteps(s: State, ins: seq<Input>, got: seq<byte>, i: Input)
    requires Reading(s, ins, got) && s.phase != FCS && !Late(i.now, s.lastByte)
    ensures Reading(Step(s, i).0, ins + [i], got + [i.b])
  {
    InsideSteps(s, got, i);
    var a, b := ins[|ins| - |got|..], (ins + [i])[|ins| - |got|..];
    assert b == a + [i];
    assert a[|a| - 1] == ins[|ins| - 1];
  }

  /** The parser takes byte `start` of a run for a start byte: it waits for one, or gives up a stalled frame. */
  predicate TakenAsStart(s: State, ins: seq<Input>, start: nat)
    requires start < |ins|
  {
    var t := Run(s, ins[..start]).0;
    (t.phase == SOF || Stalled(t, ins[start].now)) && ins[start].b == SOF_BYTE
  }

  lemma RunLast(s: State, ins: seq<Input>)
    requires ins != []
    ensures var n := |ins| - 1; Run(s, ins).0 == Step(Run(s, ins[..n]).0, ins[n]).0
  {
    hide Step;
    var before, i := ins[..|ins| - 1], ins[|ins| - 1];
    assert ins == before + [i];
    RunAppend(s, before, [i]);
    assert [i][1..] == [];
  }

  /** A waiting parser takes a start byte and nothing else. */
  lemma WaitingTakes(t: State, i: Input)
    requires t.phase == SOF || Stalled(t, i.now)
    ensures var r := Step(t, i).0;
            if i.b == SOF_BYTE then Inside(r, [i.b]) && r.lastByte == i.now else r.phase == SOF
  {
  }

  lemma ReadingOne(r: State, ins: seq<Input>)
    requires ins != [] && var i := ins[|ins| - 1]; Inside(r, [i.b]) && r.lastByte == i.now
    ensures Reading(r, ins, [ins[|ins| - 1].b])
  {
    assert ins[|ins| - 1..] == [ins[|ins| - 1]];
  }

  lemma StaysTaken(s: State, before: seq<Input>, i: Input, k: nat)
    requires k < |before| && TakenAsStart(s, before, k)
    ensures TakenAsStart(s, before + [i], k)
  {
    hide Run, Late;
    assert (before + [i])[..k] == before[..k];
  }

  /** At every moment of a run the parser waits for a start byte or is inside a frame it can show, which began with
      a byte it took for a start byte. */
  lemma {:induction false} WaitsOrReads(s: State, ins: seq<Input>) returns (got: seq<byte>)
    requires s.phase == SOF
    ensures Run(s, ins).0.phase == SOF ||
            (Reading(Run(s, ins).0, ins, got) && got != [] && TakenAsStart(s, ins, |ins| - |got|))
    decreases |ins|
  {
    got := [];
    if ins != [] {
      hide Step, Late, Inside, Reading, Run, TakenAsStart;
      var n := |ins| - 1;
      var before, i := ins[..n], ins[n];
      assert ins == before + [i];
      RunLast(s, ins);
      var t := Run(s, before).0;
      var g := WaitsOrReads(s, before);
      if t.phase == SOF || Late(i.now, t.lastByte) {
        got := [i.b];
        WaitingTakes(t, i);
        if i.b == SOF_BYTE {
          ReadingOne(Step(t, i).0, ins);
          TakenNow(s, ins);
        }
      } else {
        ReadingShort(t, before, g);
        if t.phase != FCS {
          got := g + [i.b];
          ReadingSteps(t, before, g, i);
          StaysTaken(s, before, i, n - |g|);
        } else {
          InsideEnds(t, g, i);
        }
      }
    }
  }

  lemma TakenNow(s: State, ins: seq<Input>)
    requires ins != [] && var i, t := ins[|ins| - 1], Run(s, ins[..|ins| - 1]).0;
                          (t.phase == SOF || Late(i.now, t.lastByte)) && i.b == SOF_BYTE
    ensures TakenAsStart(s, ins, |ins| - 1)
  {
  }

  lemma ReadingShort(s: State, ins: seq<Input>, got: seq<byte>)
    requires Reading(s, ins, got)
    ensures |got| <= |ins| && Inside(s, got)
  {
  }

  lemma EncodingEnds(got: seq<byte>, b: byte)
    requires |got| >= 4 && got[0] == SOF_BYTE && got[1] as int == |got| - 4 && b == XorAll(got[1..])
    ensures |got[4..]| < 0x100 && Encode(ZnpFrame(got[2], got[3], got[4..])) == got + [b]
  {
    var bytes := got + [b];
    assert bytes[1..|bytes| - 1] == got[1..] && bytes[4..|bytes| - 1] == got[4..];
    EncodingUnique(bytes);
  }

  lemma CarriesOn(ins: seq<Input>, got: seq<byte>, i: Input)
    requires Carries(ins, got) && Flowing(ins) && ins != [] && !Late(i.now, ins[|ins| - 1].now)
    ensures Carries(ins + [i], got + [i.b]) && Flowing(ins + [i])
  {
  }

  lemma ReportedAtEnd(t: State, ins: seq<Input>, got: seq<byte>, i: Input)
    requires Reading(t, ins, got) && Step(t, i).1.Some?
    ensures var f := Step(t, i).1.value;
            got != [] && |f.data| < 0x100 && Carries(ins[|ins| - |got|..] + [i], Encode(f)) &&
            Flowing(ins[|ins| - |got|..] + [i])
  {
    InsideEnds(t, got, i);
    EncodingEnds(got, i.b);
    var a := ins[|ins| - |got|..];
    assert a[|a| - 1] == ins[|ins| - 1];
    CarriesOn(a, got, i);
  }

  lemma NothingFromWaiting(s: State, i: Input)
    requires s.phase == SOF
    ensures Step(s, i).1.None?
  {
  }

  /** Soundness over every run: a frame is reported only when the bytes since some start byte, none of them late, are
      exactly its encoding. */
  lemma OnlyEncodings(s: State, ins: seq<Input>, i: nat) returns (start: nat)
    requires s.phase == SOF && i < |ins| && Step(Run(s, ins[..i]).0, ins[i]).1.Some?
    ensures var f := Step(Run(s, ins[..i]).0, ins[i]).1.value;
            start < i && |f.data| < 0x100 && Carries(ins[start..i + 1], Encode(f)) && Flowing(ins[start..i + 1])
  {
    hide Step, Run, Inside, Encode, Late;
    var got := WaitsOrReads(s, ins[..i]);
    if Run(s, ins[..i]).0.phase == SOF {
      NothingFromWaiting(Run(s, ins[..i]).0, ins[i]);
    }
    ReportedAtEnd(Run(s, ins[..i]).0, ins[..i], got, ins[i]);
    start := i - |got|;
    assert ins[start..i + 1] == ins[..i][start..] + [ins[i]];
  }
}
