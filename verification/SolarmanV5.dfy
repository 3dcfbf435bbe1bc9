/** The Solarman V5 envelope around Modbus frames, as the microinverter driver wraps and unwraps it. */
module SolarmanV5 {
  import opened Words
  import opened Bytes
  import opened ModbusCrc

  const V5_START: byte := 0xA5
  const V5_END: byte := 0x15
  const V5_CTRL_REQUEST: bv16 := 0x4510
  const V5_CTRL_RESPONSE: bv16 := 0x1510
  const V5_FRAME_TYPE_INVERTER: byte := 0x02
  const V5_SENSOR_TYPE_MODBUS: bv16 := 0x0000
  const MB_READ_HOLDING_REGISTERS: byte := 0x03

  function Total(s: seq<byte>): nat {
    if s == [] then 0 else Total(s[..|s| - 1]) + Value(s[|s| - 1])
  }

  function Checksum(s: seq<byte>): byte {
    ToByte(Total(s) % 0x100)
  }

  function Low(w: bv16): byte {
    (w & 0xFF) as byte
  }

  function High(w: bv16): byte {
    ((w >> 8) & 0xFF) as byte
  }

  function Word(low: byte, high: byte): bv16 {
    (low as bv16) | ((high as bv16) << 8)
  }

  function LengthBytes(n: nat): seq<byte>
    requires n < 0x1_0000
  {
    [ToByte(n % 0x100), ToByte(n / 0x100)]
  }

  function LengthOf(low: byte, high: byte): nat {
    low as int + 0x100 * high as int
  }

  /** Serial counter, a zero and the serial number of the logger. */
  function Sender(serial: byte, sn: bv32): seq<byte> {
    [serial, 0x00,
     (sn & 0xFF) as byte, ((sn >> 8) & 0xFF) as byte, ((sn >> 16) & 0xFF) as byte, ((sn >> 24) & 0xFF) as byte]
  }

  /** The length is a 16-bit word. */
  function Inside(ctrl: bv16, sender: seq<byte>, payload: seq<byte>): seq<byte> {
    LengthBytes(|payload| % 0x1_0000) + [Low(ctrl), High(ctrl)] + sender + payload
  }

  /** The format: start, length, control code, sender, payload, checksum of all but the start byte, end. */
  function Envelope(ctrl: bv16, sender: seq<byte>, payload: seq<byte>): seq<byte> {
    [V5_START] + Inside(ctrl, sender, payload) + [Checksum(Inside(ctrl, sender, payload)), V5_END]
  }

  lemma SumWraps(t: nat, b: nat)
    ensures (t % TWO32 + b) % TWO32 == (t + b) % TWO32
  {
  }

  lemma LowByteOfWrapped(t: nat)
    ensures (t % TWO32) % 0x100 == t % 0x100
  {
  }

  method V5Checksum(data: seq<byte>) returns (checksum: byte)
    ensures checksum == Checksum(data)
  {
    var sum: u32 := 0;
    for i := 0 to |data|
      invariant sum == Total(data[..i]) % TWO32
    {
      assert data[..i + 1][..i] == data[..i];
      SumWraps(Total(data[..i]), data[i] as int);
      sum := (sum + data[i] as int) % TWO32;
    }
    assert data[..|data|] == data;
    LowByteOfWrapped(Total(data));
    checksum := ToByte(sum % 0x100);
  }

  /** Unwrapping a response; `None` where the driver logs a reason and gives up. */
  function Extract(frame: seq<byte>): Option<seq<byte>> {
    if |frame| < 13 then None
    else if frame[0] != V5_START || frame[|frame| - 1] != V5_END then None
    else
      var length := LengthOf(frame[1], frame[2]);
      if |frame| != 11 + length + 2 then None
      else if Checksum(frame[1..|frame| - 2]) != frame[|frame| - 2] then None
      else if [frame[3], frame[4]] != [Low(V5_CTRL_RESPONSE), High(V5_CTRL_RESPONSE)] then None
      else if length < 14 then None
      else Some(frame[11..11 + length])
  }

  method ExtractV5Payload(frame: seq<byte>) returns (payload: Option<seq<byte>>)
    ensures payload == Extract(frame)
  {
    if |frame| < 13 {
      return None;
    }
    if frame[0] != V5_START || frame[|frame| - 1] != V5_END {
      return None;
    }
    var payloadLength := LengthOf(frame[1], frame[2]);
    var expectedTotal := 11 + payloadLength + 2;
    if |frame| != expectedTotal {
      return None;
    }
    var checksum := V5Checksum(frame[1..|frame| - 2]);
    if checksum != frame[|frame| - 2] {
      return None;
    }
    var ctrl := Word(frame[3], frame[4]);
    ControlBytes(frame[3], frame[4], V5_CTRL_RESPONSE);
    if ctrl != V5_CTRL_RESPONSE {
      return None;
    }
    if payloadLength < 14 {
      return None;
    }
    return Some(frame[11..11 + payloadLength]);
  }

  lemma WordOfBytes(w: bv16)
    ensures Word(Low(w), High(w)) == w
  {
  }

  lemma BytesOfWord(low: byte, high: byte)
    ensures Low(Word(low, high)) == low && High(Word(low, high)) == high
  {
  }

  lemma ControlBytes(low: byte, high: byte, ctrl: bv16)
    ensures Word(low, high) == ctrl <==> [low, high] == [Low(ctrl), High(ctrl)]
  {
    hide Low, High, Word;
    WordOfBytes(ctrl);
    BytesOfWord(low, high);
    assert [low, high] == [Low(ctrl), High(ctrl)] <==> low == Low(ctrl) && high == High(ctrl);
  }

  // ---------------------------------------------------------------------------------------------------------------
  // Wrapping and unwrapping
  // ---------------------------------------------------------------------------------------------------------------

  lemma LengthRoundTrip(n: nat)
    requires n < 0x1_0000
    ensures LengthOf(LengthBytes(n)[0], LengthBytes(n)[1]) == n
  {
  }

  lemma LowAndHighPart(low: nat, high: nat)
    requires low < 0x100
    ensures (low + 0x100 * high) % 0x100 == low && (low + 0x100 * high) / 0x100 == high
  {
  }

  lemma LengthBytesOf(low: byte, high: byte)
    ensures LengthOf(low, high) < 0x1_0000 && LengthBytes(LengthOf(low, high)) == [low, high]
  {
    LowAndHighPart(low as int, high as int);
    BytesDiffer(ToByte(low as int), low);
    BytesDiffer(ToByte(high as int), high);
  }

  lemma EnvelopeLayout(ctrl: bv16, sender: seq<byte>, payload: seq<byte>)
    requires |sender| == 6
    ensures var f := Envelope(ctrl, sender, payload); var n := |payload|;
            && |f| == 13 + n && f[0] == V5_START && f[12 + n] == V5_END
            && f[1..3] == LengthBytes(n % 0x1_0000) && f[3..5] == [Low(ctrl), High(ctrl)]
            && f[5..11] == sender && f[11..11 + n] == payload
            && f[1..11 + n] == Inside(ctrl, sender, payload)
            && f[11 + n] == Checksum(Inside(ctrl, sender, payload))
  {
    hide LengthBytes, Low, High, Checksum;
    TwoLengthBytes(|payload| % 0x1_0000);
    var inside := Inside(ctrl, sender, payload);
    assert inside[..2] == LengthBytes(|payload| % 0x1_0000) && inside[2..4] == [Low(ctrl), High(ctrl)];
    assert inside[4..10] == sender && inside[10..] == payload;
    var f := Envelope(ctrl, sender, payload);
    assert f[1..11 + |payload|] == inside;
    assert f[1..3] == inside[..2] && f[3..5] == inside[2..4];
    assert f[5..11] == inside[4..10] && f[11..11 + |payload|] == inside[10..];
  }

  lemma TwoLengthBytes(n: nat)
    requires n < 0x1_0000
    ensures |LengthBytes(n)| == 2
  {
  }

  /** The driver unwraps an envelope exactly when it is a response whose payload has at least 14 bytes and
      fits the length word, to what was put in. */
  lemma ExtractEnvelope(ctrl: bv16, sender: seq<byte>, payload: seq<byte>)
    requires |sender| == 6
    ensures Extract(Envelope(ctrl, sender, payload))
         == if ctrl == V5_CTRL_RESPONSE && 14 <= |payload| < 0x1_0000 then Some(payload) else None
  {
    hide LengthBytes, Low, High, Checksum, Envelope, Inside, LengthOf;
    EnvelopeLayout(ctrl, sender, payload);
    LengthRoundTrip(|payload| % 0x1_0000);
    TwoLengthBytes(|payload| % 0x1_0000);
    var f := Envelope(ctrl, sender, payload);
    assert f[1] == f[1..3][0] && f[2] == f[1..3][1];
    assert [f[3], f[4]] == f[3..5];
    SameWord(ctrl, V5_CTRL_RESPONSE);
  }

  lemma SameWord(a: bv16, b: bv16)
    ensures [Low(a), High(a)] == [Low(b), High(b)] <==> a == b
  {
    hide Low, High, Word;
    WordOfBytes(a);
    WordOfBytes(b);
    if [Low(a), High(a)] == [Low(b), High(b)] {
      assert Low(a) == [Low(a), High(a)][0] == Low(b);
      assert High(a) == [Low(a), High(a)][1] == High(b);
    }
  }

  lemma CrcWord(low: byte, high: byte, crc: bv16)
    ensures Word(low, high) == crc <==> [low, high] == CrcBytes(crc)
  {
    hide Low, High, Word, CrcBytes;
    ControlBytes(low, high, crc);
    SameBytes(crc);
  }

  lemma SameBytes(crc: bv16)
    ensures CrcBytes(crc) == [Low(crc), High(crc)]
  {
  }

  /** Whatever the driver unwraps is an envelope, around just that payload. */
  lemma ExtractedIsEnvelope(frame: seq<byte>)
    requires Extract(frame).Some?
    ensures 14 <= |Extract(frame).value| < 0x1_0000 && |frame| == 13 + |Extract(frame).value|
    ensures frame == Envelope(V5_CTRL_RESPONSE, frame[5..11], Extract(frame).value)
  {
    hide LengthBytes, Low, High, Checksum, LengthOf;
    LengthBytesOf(frame[1], frame[2]);
    var payload := Extract(frame).value;
    var n := |payload|;
    assert frame[1..11 + n] == [frame[1], frame[2]] + [frame[3], frame[4]] + frame[5..11] + payload;
    assert frame[1..11 + n] == Inside(V5_CTRL_RESPONSE, frame[5..11], payload);
    assert frame == [frame[0]] + frame[1..11 + n] + [frame[11 + n], frame[12 + n]];
  }

  lemma {:induction false} TotalOfChange(s: seq<byte>, k: nat, b: byte)
    requires k < |s|
    ensures Total(s[k := b]) - Total(s) == Value(b) - Value(s[k])
  {
    var t := s[k := b];
    if k < |s| - 1 {
      TotalOfChange(s[..|s| - 1], k, b);
      assert t[..|s| - 1] == s[..|s| - 1][k := b];
    } else {
      assert t[..|s| - 1] == s[..|s| - 1];
    }
  }

  lemma ChecksumIs(s: seq<byte>)
    ensures Checksum(s) as int == Total(s) % 0x100
  {
  }

  lemma ChangeIsSmall(a: byte, b: byte)
    ensures a != b ==> Value(a) != Value(b)
  {
    BytesDiffer(a, b);
  }

  lemma ChecksumsDiffer(s: seq<byte>, t: seq<byte>)
    requires Total(s) != Total(t) && -0x100 < Total(s) - Total(t) < 0x100
    ensures Checksum(s) != Checksum(t)
  {
    hide Total, Checksum;
    ChecksumIs(s);
    ChecksumIs(t);
    NearTotalsDiffer(Total(s), Total(t));
  }

  lemma NearTotalsDiffer(t: nat, u: nat)
    requires t != u && -0x100 < t - u < 0x100
    ensures t % 0x100 != u % 0x100
  {
  }

  lemma ChecksumOfChange(s: seq<byte>, k: nat, b: byte)
    requires k < |s| && b != s[k]
    ensures Checksum(s[k := b]) != Checksum(s)
  {
    hide Total, Checksum, Value;
    TotalOfChange(s, k, b);
    ChangeIsSmall(s[k], b);
    ChecksumsDiffer(s[k := b], s);
  }

  /** A frame the driver unwraps is refused as soon as any one of its bytes is another, whichever it is. */
  lemma ChangedByteRefused(frame: seq<byte>, k: nat, b: byte)
    requires Extract(frame).Some? && k < |frame| && b != frame[k]
    ensures Extract(frame[k := b]).None?
  {
    hide Checksum, LengthOf, Low, High;
    var n := |frame|;
    var changed := frame[k := b];
    if 1 <= k < n - 2 {
      ChecksumOfChange(frame[1..n - 2], k - 1, b);
      assert changed[1..n - 2] == frame[1..n - 2][k - 1 := b];
      assert changed[n - 2] == frame[n - 2];
    } else if k == n - 2 {
      assert changed[1..n - 2] == frame[1..n - 2];
    }
  }

  lemma EnvelopeSum(ctrl: bv16, sender: seq<byte>, payload: seq<byte>)
    requires |sender| == 6
    ensures var f := Envelope(ctrl, sender, payload);
            |f| == 13 + |payload| && f[11 + |payload|] as int == Total(f[1..11 + |payload|]) % 0x100
  {
    hide Checksum, Envelope, Inside, Low, High, LengthBytes, Total;
    EnvelopeLayout(ctrl, sender, payload);
    ChecksumIs(Inside(ctrl, sender, payload));
  }

  lemma EnvelopeLength(ctrl: bv16, sender: seq<byte>, payload: seq<byte>)
    requires |sender| == 6 && |payload| < 0x1_0000
    ensures var f := Envelope(ctrl, sender, payload);
            |f| == 13 + |payload| && f[1] as int == |payload| % 0x100 && f[2] as int == |payload| / 0x100
  {
    hide Checksum, Envelope, Inside, Low, High, LengthBytes;
    EnvelopeLayout(ctrl, sender, payload);
    var f := Envelope(ctrl, sender, payload);
    LengthParts(|payload|);
    assert f[1] == f[1..3][0] && f[2] == f[1..3][1];
  }

  /** Every byte around the payload of a request and of a response. */
  lemma EnvelopeIs(ctrl: bv16, sender: seq<byte>, payload: seq<byte>)
    requires |sender| == 6 && |payload| < 0x1_0000
    ensures var f := Envelope(ctrl, sender, payload); var n := |payload|;
            && |f| == 13 + n && f[0] == 0xA5 && f[12 + n] == 0x15
            && f[1] as int == n % 0x100 && f[2] as int == n / 0x100
            && (ctrl == V5_CTRL_REQUEST ==> f[3..5] == [0x10, 0x45])
            && (ctrl == V5_CTRL_RESPONSE ==> f[3..5] == [0x10, 0x15])
            && f[5..11] == sender && f[11..11 + n] == payload
            && f[11 + n] as int == Total(f[1..11 + n]) % 0x100
  {
    hide Checksum, Envelope, Inside, Low, High, LengthBytes, Total;
    EnvelopeLayout(ctrl, sender, payload);
    EnvelopeSum(ctrl, sender, payload);
    EnvelopeLength(ctrl, sender, payload);
    Controls();
  }

  lemma LengthParts(n: nat)
    requires n < 0x1_0000
    ensures |LengthBytes(n)| == 2
    ensures LengthBytes(n)[0] as int == n % 0x100 && LengthBytes(n)[1] as int == n / 0x100
  {
  }

  lemma Controls()
    ensures [Low(V5_CTRL_REQUEST), High(V5_CTRL_REQUEST)] == [0x10, 0x45]
    ensures [Low(V5_CTRL_RESPONSE), High(V5_CTRL_RESPONSE)] == [0x10, 0x15]
  {
  }

  // ---------------------------------------------------------------------------------------------------------------
  // Modbus inside
  // ---------------------------------------------------------------------------------------------------------------

  /** A Modbus frame: the message and its CRC. */
  function Framed(message: seq<byte>): (frame: seq<byte>)
    ensures |frame| == |message| + 2
  {
    message + CrcBytes(Crc(message))
  }

  /** What the logger expects before a Modbus request: frame type, sensor type and three times. */
  function RequestHead(frameType: byte, sensorType: bv16): (head: seq<byte>)
    ensures |head| == 15
  {
    [frameType, Low(sensorType), High(sensorType)] + [0, 0, 0, 0] + [0, 0, 0, 0] + [0, 0, 0, 0]
  }

  function ReadMessage(address: byte, start: bv16, count: bv16): seq<byte> {
    [address, MB_READ_HOLDING_REGISTERS, High(start), Low(start), High(count), Low(count)]
  }

  /** The registers of an answer to a read, checked from the outside in. */
  function Registers(address: byte, modbus: seq<byte>): Option<seq<byte>> {
    if |modbus| < 5 then None
    else if !Intact(modbus) then None
    else if modbus[0] != address then None
    else if modbus[1] != MB_READ_HOLDING_REGISTERS then None
    else if |modbus| < 3 + modbus[2] as int + 2 then None
    else Some(modbus[3..3 + modbus[2] as int])
  }

  function Response(address: byte, frame: seq<byte>): Option<seq<byte>> {
    var payload := Extract(frame);
    if payload.None? then None else
      PayloadLongEnough(frame);
      Registers(address, payload.value[14..])
  }

  lemma PayloadLongEnough(frame: seq<byte>)
    ensures Extract(frame).Some? ==> |Extract(frame).value| >= 14
  {
  }

  class DeyeMi {
    const modbusAddress: byte
    const sn: bv32
    var v5Serial: byte

    constructor (modbusAddress: byte, sn: bv32)
      ensures this.modbusAddress == modbusAddress && this.sn == sn && v5Serial == 0
    {
      this.modbusAddress, this.sn, v5Serial := modbusAddress, sn, 0;
    }

    /** Wraps `tail` in a request; the serial counter of the requests moves on by one, from 255 to 0. */
    method WrapV5Request(frameType: byte, sensorType: bv16, tail: seq<byte>) returns (frame: seq<byte>)
      modifies `v5Serial
      ensures v5Serial == old(v5Serial) + 1
      ensures frame == Envelope(V5_CTRL_REQUEST, Sender(v5Serial, sn), RequestHead(frameType, sensorType) + tail)
    {
      hide LengthBytes, Checksum, Low, High;
      var payload := [frameType];
      payload := payload + [Low(sensorType), High(sensorType)];
      payload := payload + [0, 0, 0, 0];
      payload := payload + [0, 0, 0, 0];
      payload := payload + [0, 0, 0, 0];
      assert payload == RequestHead(frameType, sensorType);
      payload := payload + tail;
      var inside := LengthBytes(|payload| % 0x1_0000);
      inside := inside + [Low(V5_CTRL_REQUEST), High(V5_CTRL_REQUEST)];
      v5Serial := v5Serial + 1;
      inside := inside + Sender(v5Serial, sn);
      inside := inside + payload;
      var checksum := V5Checksum(inside);
      frame := [V5_START] + inside + [checksum, V5_END];
    }

    method BuildReadRequest(start: bv16, count: bv16) returns (frame: seq<byte>)
      modifies `v5Serial
      ensures v5Serial == old(v5Serial) + 1
      ensures frame == Envelope(V5_CTRL_REQUEST, Sender(v5Serial, sn),
                                RequestHead(V5_FRAME_TYPE_INVERTER, V5_SENSOR_TYPE_MODBUS)
                                + Framed(ReadMessage(modbusAddress, start, count)))
    {
      hide Low, High;
      var modbus := ReadMessage(modbusAddress, start, count);
      var crc := ModbusCrc16(modbus);
      modbus := modbus + CrcBytes(crc);
      frame := WrapV5Request(V5_FRAME_TYPE_INVERTER, V5_SENSOR_TYPE_MODBUS, modbus);
    }

    method ParseResponse(frame: seq<byte>) returns (registers: Option<seq<byte>>)
      ensures registers == Response(modbusAddress, frame)
    {
      hide Extract, Crc, CrcBytes, Word;
      var payload := ExtractV5Payload(frame);
      if payload.None? {
        return None;
      }
      PayloadLongEnough(frame);
      var modbus := payload.value[14..];
      if |modbus| < 5 {
        return None;
      }
      var crc := ModbusCrc16(modbus[..|modbus| - 2]);
      var received := Word(modbus[|modbus| - 2], modbus[|modbus| - 1]);
      CrcWord(modbus[|modbus| - 2], modbus[|modbus| - 1], crc);
      assert modbus[|modbus| - 2..] == [modbus[|modbus| - 2], modbus[|modbus| - 1]];
      if crc != received {
        return None;
      }
      if modbus[0] != modbusAddress {
        return None;
      }
      if modbus[1] != MB_READ_HOLDING_REGISTERS {
        return None;
      }
      var byteCount := modbus[2] as int;
      if |modbus| < 3 + byteCount + 2 {
        return None;
      }
      return Some(modbus[3..3 + byteCount]);
    }
  }

  function ReadReply(address: byte, registers: seq<byte>): seq<byte>
    requires |registers| < 0x100
  {
    [address, MB_READ_HOLDING_REGISTERS, ToByte(|registers|)] + registers
  }

  lemma FramedIsIntact(message: seq<byte>)
    ensures Intact(Framed(message))
  {
    hide Crc, CrcBytes;
    TwoCrcBytes(Crc(message));
    var frame := Framed(message);
    assert frame[..|frame| - 2] == message;
    assert frame[|frame| - 2..] == CrcBytes(Crc(message));
  }

  /** A well-formed answer of the inverter gives its registers, whoever the logger says it is from. */
  lemma ReplyUnderstood(address: byte, sender: seq<byte>, head: seq<byte>, registers: seq<byte>)
    requires |sender| == 6 && |head| == 14 && |registers| < 0x100
    ensures Response(address, Envelope(V5_CTRL_RESPONSE, sender, head + Framed(ReadReply(address, registers))))
         == Some(registers)
  {
    hide Intact, Framed, Extract, Envelope;
    var reply := ReadReply(address, registers);
    var payload := head + Framed(reply);
    ExtractEnvelope(V5_CTRL_RESPONSE, sender, payload);
    FramedIsIntact(reply);
    assert payload[14..] == Framed(reply);
    FramedStarts(reply);
    assert Framed(reply)[3..3 + |registers|] == registers;
  }

  lemma FramedStarts(message: seq<byte>)
    ensures Framed(message)[..|message|] == message
    ensures forall i :: 0 <= i < |message| ==> Framed(message)[i] == message[i]
  {
  }

  lemma RegistersFrom(address: byte, modbus: seq<byte>)
    requires Registers(address, modbus).Some?
    ensures var registers := Registers(address, modbus).value; var n := |registers|;
            && |modbus| >= 5 + n && n < 0x100 && Intact(modbus)
            && modbus[..3 + n] == ReadReply(address, registers)
  {
    hide Intact;
    var registers := Registers(address, modbus).value;
    BytesDiffer(ToByte(modbus[2] as int), modbus[2]);
    assert modbus[..3 + |registers|] == modbus[..3] + registers;
    assert modbus[..3] == [modbus[0], modbus[1], modbus[2]];
  }

  /** Conversely, registers are only ever reported out of an intact answer of this inverter to a read. */
  lemma RegistersAreGenuine(address: byte, frame: seq<byte>)
    requires Response(address, frame).Some?
    ensures Extract(frame).Some? && |Extract(frame).value| >= 19
    ensures var modbus := Extract(frame).value[14..]; var n := |Response(address, frame).value|;
            && Intact(modbus) && |modbus| >= 5 + n && n < 0x100
            && modbus[..3 + n] == ReadReply(address, Response(address, frame).value)
  {
    hide Intact, Extract, Registers, ReadReply;
    PayloadLongEnough(frame);
    RegistersFrom(address, Extract(frame).value[14..]);
  }

  /** Damage between inverter and logger, before the envelope is made: a burst in the Modbus frame is refused. */
  lemma DamagedReplyRefused(address: byte, sender: seq<byte>, head: seq<byte>,
                            before: seq<byte>, u: seq<byte>, v: seq<byte>, after: seq<byte>)
    requires |sender| == 6 && |head| == 14 && Burst(u, v) && |before| + |u| + |after| < 0xFF00
    requires Response(address, Envelope(V5_CTRL_RESPONSE, sender, head + (before + u + after))).Some?
    ensures Response(address, Envelope(V5_CTRL_RESPONSE, sender, head + (before + v + after))).None?
  {
    hide Intact, Extract, Envelope, Burst;
    SameLengths(u, v);
    ExtractEnvelope(V5_CTRL_RESPONSE, sender, head + (before + u + after));
    ExtractEnvelope(V5_CTRL_RESPONSE, sender, head + (before + v + after));
    assert (head + (before + u + after))[14..] == before + u + after;
    assert (head + (before + v + after))[14..] == before + v + after;
    DamagedFrameRefused(before, u, v, after);
  }

  lemma SameLengths(u: seq<byte>, v: seq<byte>)
    requires Burst(u, v)
    ensures |u| == |v|
  {
  }

  /** Damage after that, on the way to the driver: one changed byte anywhere in the whole frame is refused. */
  lemma ChangedResponseRefused(address: byte, frame: seq<byte>, k: nat, b: byte)
    requires Response(address, frame).Some? && k < |frame| && b != frame[k]
    ensures Response(address, frame[k := b]).None?
  {
    hide Extract, Registers;
    ChangedByteRefused(frame, k, b);
  }

  lemma SerialReadsBack(serial: byte, sn: bv32)
    ensures var b := Sender(serial, sn);
            |b| == 6 && b[0] == serial && b[1] == 0 &&
            (b[2] as bv32) | ((b[3] as bv32) << 8) | ((b[4] as bv32) << 16) | ((b[5] as bv32) << 24) == sn
  {
  }

  lemma MessageIs(address: byte, start: bv16, count: bv16)
    ensures var m := ReadMessage(address, start, count);
            |m| == 6 && m[..2] == [address, 0x03] && Word(m[3], m[2]) == start && Word(m[5], m[4]) == count
  {
    hide Low, High, Word;
    WordOfBytes(start);
    WordOfBytes(count);
  }

  lemma HeadIs()
    ensures RequestHead(V5_FRAME_TYPE_INVERTER, V5_SENSOR_TYPE_MODBUS) ==
            [0x02, 0, 0, 0, 0, 0, 0, 0, 0, 0, 0, 0, 0, 0, 0]
  {
  }

  /** Every byte of a read request: the envelope of a request with 23 bytes in it, the counter and the serial number
      lowest byte first, type 2 and no times, then the Modbus frame with register and count highest byte first,
      which is intact. */
  lemma ReadRequestIs(address: byte, serial: byte, sn: bv32, start: bv16, count: bv16)
    ensures var f := Envelope(V5_CTRL_REQUEST, Sender(serial, sn),
                              RequestHead(V5_FRAME_TYPE_INVERTER, V5_SENSOR_TYPE_MODBUS)
                              + Framed(ReadMessage(address, start, count)));
            && |f| == 36 && f[..5] == [0xA5, 23, 0, 0x10, 0x45] && f[5] == serial && f[6] == 0
            && (f[7] as bv32) | ((f[8] as bv32) << 8) | ((f[9] as bv32) << 16) | ((f[10] as bv32) << 24) == sn
            && f[11..26] == [0x02, 0, 0, 0, 0, 0, 0, 0, 0, 0, 0, 0, 0, 0, 0]
            && f[26..28] == [address, 0x03] && Word(f[29], f[28]) == start && Word(f[31], f[30]) == count
            && Intact(f[26..34]) && f[34] as int == Total(f[1..34]) % 0x100 && f[35] == 0x15
  {
    hide Sender, RequestHead, ReadMessage, Framed, Envelope, Word, Intact, Total, Low, High;
    var sender, message := Sender(serial, sn), ReadMessage(address, start, count);
    var payload := RequestHead(V5_FRAME_TYPE_INVERTER, V5_SENSOR_TYPE_MODBUS) + Framed(message);
    SerialReadsBack(serial, sn);
    MessageIs(address, start, count);
    HeadIs();
    FramedIsIntact(message);
    FramedStarts(message);
    EnvelopeIs(V5_CTRL_REQUEST, sender, payload);
    var f := Envelope(V5_CTRL_REQUEST, sender, payload);
    SmallLength(f[1], f[2]);
    assert f[..5] == [f[0], f[1], f[2]] + f[3..5];
    assert f[7] == f[5..11][2] && f[8] == f[5..11][3] && f[9] == f[5..11][4] && f[10] == f[5..11][5];
    assert f[11..26] == f[11..34][..15] && f[26..34] == f[11..34][15..] == Framed(message);
    assert forall k | 0 <= k < 8 :: f[26 + k] == f[26..34][k];
  }

  lemma SmallLength(a: byte, b: byte)
    requires a as int == 23 && b as int == 0
    ensures a == 23 && b == 0
  {
    BytesDiffer(a, 23);
    BytesDiffer(b, 0);
  }
}
