/** Framing of the serial link to a CC2530 running the ZNP firmware: FE, length, two command bytes, data, and a checksum
    that is the exclusive or of everything between. */
module ZnpCodec {
  import opened Words
  import opened Bytes

  const SOF_BYTE: byte := 0xFE
  const ZNP_MAX_DATA := 250
  const STALL_MS := 250

  datatype ZnpFrame = ZnpFrame(cmd0: byte, cmd1: byte, data: seq<byte>)

  // ------------------------------------------------------------------------------------------------------------------
  // The encoding
  // ------------------------------------------------------------------------------------------------------------------

  function XorAll(s: seq<byte>): byte {
    if s == [] then 0 else XorAll(s[..|s| - 1]) ^ s[|s| - 1]
  }

  lemma XorAppend(s: seq<byte>, b: byte)
    ensures XorAll(s + [b]) == XorAll(s) ^ b
  {
    assert (s + [b])[..|s|] == s;
  }

  lemma XorOfThree(a: byte, b: byte, c: byte)
    ensures XorAll([a, b, c]) == a ^ b ^ c
  {
    XorAppend([], a);
    XorAppend([a], b);
    XorAppend([a, b], c);
    assert [] + [a] == [a] && [a] + [b] == [a, b] && [a, b] + [c] == [a, b, c];
    assert XorAll([]) == 0;
  }

  /** The bytes the checksum covers. */
  function Covered(f: ZnpFrame): seq<byte>
    requires |f.data| < 0x100
  {
    [ToByte(|f.data|), f.cmd0, f.cmd1] + f.data
  }

  function Encode(f: ZnpFrame): seq<byte>
    requires |f.data| < 0x100
  {
    [SOF_BYTE] + Covered(f) + [XorAll(Covered(f))]
  }

  /** The data bytes, copied behind the header while the checksum goes on. */
  method PutData(out: array<byte>, start: nat, data: seq<byte>, len: nat, ghost head: seq<byte>, fcs0: byte)
    returns (i: nat, fcs: byte)
    requires len <= |data| && 1 <= start && start + len <= out.Length
    requires out[1..start] == head && fcs0 == XorAll(head)
    modifies out
    ensures i == start + len && out[0] == old(out[0])
    ensures out[1..i] == head + data[..len] && fcs == XorAll(head + data[..len])
  {
    hide XorAll;
    i, fcs := start, fcs0;
    assert head + data[..0] == head;
    for k := 0 to len
      invariant i == start + k && out[0] == old(out[0])
      invariant out[1..i] == head + data[..k]
      invariant fcs == XorAll(head + data[..k])
    {
      ghost var before := head + data[..k];
      XorAppend(before, data[k]);
      out[i] := data[k];
      i := i + 1;
      fcs := fcs ^ data[k];
      assert out[1..i] == before + [data[k]];
      assert head + data[..k + 1] == before + [data[k]];
    }
  }

  /** The bytes of a frame whose length byte is given. */
  method PutFrame(length: byte, cmd0: byte, cmd1: byte, data: seq<byte>, len: nat, out: array<byte>)
    returns (n: nat)
    requires len <= |data| && len + 5 <= out.Length
    modifies out
    ensures var covered := [length, cmd0, cmd1] + data[..len];
            n == len + 5 && out[..n] == [SOF_BYTE] + covered + [XorAll(covered)]
  {
    var i := 0;
    out[i] := SOF_BYTE;
    i := i + 1;
    out[i] := length;
    i := i + 1;
    out[i] := cmd0;
    i := i + 1;
    out[i] := cmd1;
    i := i + 1;
    var fcs := length ^ cmd0 ^ cmd1;
    ghost var head := [length, cmd0, cmd1];
    XorOfThree(length, cmd0, cmd1);
    assert out[1..i] == head;
    i, fcs := PutData(out, i, data, len, head, fcs);
    ghost var body := out[..i];
    assert body == [SOF_BYTE] + (head + data[..len]);
    out[i] := fcs;
    i := i + 1;
    assert out[..i] == body + [fcs];
    n := i;
  }

  /** znp_encode: data beyond 250 bytes is cut off. */
  method ZnpEncode(cmd0: byte, cmd1: byte, data: seq<byte>, out: array<byte>) returns (n: nat)
    requires out.Length >= ZNP_MAX_DATA + 5 || out.Length >= |data| + 5
    modifies out
    ensures var kept := if |data| > 250 then data[..250] else data;
            n == |kept| + 5 && out[..n] == Encode(ZnpFrame(cmd0, cmd1, kept))
  {
    var len := |data|;
    if len > ZNP_MAX_DATA {
      len := ZNP_MAX_DATA;
    }
    n := PutFrame(ToByte(len), cmd0, cmd1, data, len, out);
    assert len == |data| ==> data[..len] == data;
  }

  // ------------------------------------------------------------------------------------------------------------------
  // The parser
  // ------------------------------------------------------------------------------------------------------------------

  datatype Phase = SOF | LEN | CMD0 | CMD1 | DATA | FCS

  /** The fields of ZnpParser; `data` is what has been received of the frame's data. */
  datatype State = State(phase: Phase, fcs: byte, len: nat, cmd0: byte, cmd1: byte, data: seq<byte>, lastByte: u32,
                         bad: u32)

  /** A byte and the clock when it is fed. */
  datatype Input = Input(b: byte, now: u32)

  /** `int32_t(now - last) > 250`: more than 250 ms, and less than 2^31. */
  predicate Late(now: u32, last: u32) {
    Signed32(Sub32(now, last)) > STALL_MS
  }

  predicate Stalled(s: State, now: u32) {
    s.phase != SOF && Late(now, s.lastByte)
  }

  /** A frame that stalled is given up. */
  function Awake(s: State, now: u32): State {
    (if Stalled(s, now) then s.(phase := SOF, bad := Add32(s.bad, 1)) else s).(lastByte := now)
  }

  /** The checksum goes on. */
  function Mixed(fcs: byte, b: byte): byte {
    fcs ^ b
  }

  /** What a byte does, and the frame it completes, if any. */
  function Advanced(s: State, b: byte): (State, Option<ZnpFrame>) {
    match s.phase
    case SOF => (if b == SOF_BYTE then s.(phase := LEN) else s, None)
    case LEN => (s.(len := b as int, fcs := b, phase := CMD0), None)
    case CMD0 => (s.(cmd0 := b, fcs := Mixed(s.fcs, b), phase := CMD1), None)
    case CMD1 => (s.(cmd1 := b, fcs := Mixed(s.fcs, b), data := [], phase := if s.len == 0 then FCS else DATA), None)
    case DATA =>
      var data := s.data + [b];
      (s.(data := data, fcs := Mixed(s.fcs, b), phase := if |data| >= s.len then FCS else DATA), None)
    case FCS =>
      if b == s.fcs then (s.(phase := SOF), Some(ZnpFrame(s.cmd0, s.cmd1, s.data)))
      else (s.(phase := SOF, bad := Add32(s.bad, 1)), None)
  }

  /** The byte is stored behind the room for the data of a frame. */
  predicate Overruns(s: State, i: Input) {
    s.phase == DATA && !Late(i.now, s.lastByte) && |s.data| >= ZNP_MAX_DATA
  }

  /** One call of feed: the new state and the frame completed by this byte, if any. */
  function Step(s: State, i: Input): (State, Option<ZnpFrame>) {
    Advanced(Awake(s, i.now), i.b)
  }

  class ZnpParser {
    var phase: Phase
    var fcs: byte
    var pos: nat
    var len: nat
    var cmd0: byte
    var cmd1: byte
    const data: array<byte>
    var lastByte: u32
    var bad: u32

    ghost predicate Valid()
      reads this
    {
      data.Length == ZNP_MAX_DATA && pos <= ZNP_MAX_DATA && (phase == DATA ==> pos < len) &&
      (phase == FCS ==> pos == len)
    }

    ghost function View(): State
      requires Valid()
      reads this, data
    {
      State(phase, fcs, len, cmd0, cmd1, data[..pos], lastByte, bad)
    }

    constructor ()
      ensures Valid() && fresh(data) && phase == SOF && bad == 0
    {
      data := new byte[ZNP_MAX_DATA](_ => 0);
      phase, fcs, pos, len, cmd0, cmd1, lastByte, bad := SOF, 0, 0, 0, 0, 0, 0, 0;
    }

    method StoreData(b: byte)
      requires Valid() && phase == DATA && pos < ZNP_MAX_DATA
      modifies this`pos, this`fcs, this`phase, data
      ensures Valid() && pos == old(pos) + 1 && data[..pos] == old(data[..pos]) + [b] && fcs == Mixed(old(fcs), b)
      ensures phase == if pos >= len then FCS else DATA
    {
      data[pos] := b;
      pos := pos + 1;
      assert data[..pos] == old(data[..pos]) + [b];
      fcs := Mixed(fcs, b);
      if pos >= len {
        phase := FCS;
      }
    }

    method GiveUpStalled(now: u32)
      requires Valid()
      modifies this`phase, this`bad, this`lastByte
      ensures Valid() && View() == Awake(old(View()), now)
      ensures phase == DATA ==> old(phase) == DATA && !Late(now, old(lastByte))
    {
      if phase != SOF && Late(now, lastByte) {
        phase := SOF;
        bad := Add32(bad, 1);
      }
      lastByte := now;
    }

    method TakeByte(b: byte) returns (out: Option<ZnpFrame>)
      requires Valid() && (phase == DATA ==> pos < ZNP_MAX_DATA)
      modifies this, data
      ensures Valid() && (View(), out) == Advanced(old(View()), b)
    {
      hide Mixed;
      match phase {
        case SOF =>
          if b == SOF_BYTE {
            phase := LEN;
          }
        case LEN =>
          len := b as int;
          fcs := b;
          phase := CMD0;
        case CMD0 =>
          cmd0 := b;
          fcs := Mixed(fcs, b);
          phase := CMD1;
        case CMD1 =>
          cmd1 := b;
          fcs := Mixed(fcs, b);
          pos := 0;
          phase := if len == 0 then FCS else DATA;
        case DATA =>
          StoreData(b);
        case FCS =>
          phase := SOF;
          if b == fcs {
            return Some(ZnpFrame(cmd0, cmd1, data[..len]));
          }
          bad := Add32(bad, 1);
      }
      return None;
    }

    /** The source does not compare the length byte with the 250 bytes it has room for: this is stated for every byte
        but one that would be stored behind them. `ZnpPort.SizedExactly` says when that happens. */
    method Feed(b: byte, now: u32) returns (out: Option<ZnpFrame>)
      requires Valid()
      requires !Overruns(View(), Input(b, now))
      modifies this, data
      ensures Valid()
      ensures (View(), out) == Step(old(View()), Input(b, now))
    {
      hide Awake, Advanced;
      GiveUpStalled(now);
      out := TakeByte(b);
    }
  }
}
