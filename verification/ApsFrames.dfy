/** IEEE 802.15.4 MAC, ZigBee NWK and ZigBee APS frames: what the bytes of a frame mean (the grammar), the builders of
    `FrameFactory` and the parser `parse_frame`. */
module ApsFrames {
  import opened Words

  const APS_PROFILE_ID: u16 := 0x0F05
  const APS_ENDPOINT: u8 := 0x14
  const ADDR_BROADCAST: u16 := 0xFFFF
  const ADDR_ALL_ROUTERS: u16 := 0xFFFC
  const ADDR_COORDINATOR: u16 := 0x0000
  const MAX_PSDU := 127
  const MAX_ASDU := 100

  datatype NetworkConfig = NetworkConfig(panId: u16, protocolVersion: u8, radius: u8, discoverRoute: bool, macAck: bool)

  // ------------------------------------------------------------------------------------------------------------------
  // The grammar: a frame as a value, and the bytes that carry it
  // ------------------------------------------------------------------------------------------------------------------

  datatype Addr = Absent | Short(addr: u16) | Extended(bytes: seq<u8>)

  /** Section 7.2.1 of IEEE 802.15.4-2006. `fcf` is the whole frame control field. */
  datatype MacHeader = MacHeader(fcf: u16, seqNo: u8, dstPan: u16, dst: Addr, srcPan: u16, src: Addr)

  /** Section 3.3.1 of ZigBee 05-3474. `relays` holds two bytes per relay. */
  datatype NwkHeader = NwkHeader(fc: u16, dst: u16, src: u16, radius: u8, seqNo: u8, multicast: seq<u8>,
                                 dstIeee: seq<u8>, srcIeee: seq<u8>, relayIndex: u8, relays: seq<u8>)

  /** Section 2.2.5.1 of ZigBee 05-3474, data and acknowledgement frames. */
  datatype ApsHeader = ApsHeader(fc: u8, group: u16, dstEp: u8, cluster: u16, profile: u16, srcEp: u8, counter: u8,
                                 extFc: u8, block: u8)

  datatype Frame =
    | MacOnly(mac: MacHeader, rest: seq<u8>)
    | NwkSecured(mac: MacHeader, nwk: NwkHeader, rest: seq<u8>)
    | NwkCommand(mac: MacHeader, nwk: NwkHeader, body: seq<u8>)
    | ApsData(mac: MacHeader, nwk: NwkHeader, aps: ApsHeader, payload: seq<u8>)
    | ApsAck(mac: MacHeader, nwk: NwkHeader, aps: ApsHeader, rest: seq<u8>)

  predicate AddrHasMode(a: Addr, mode: int) {
    match a
    case Absent => mode != 2 && mode != 3
    case Short(_) => mode == 2
    case Extended(bytes) => mode == 3 && |bytes| == 8
  }

  function DstMode(fcf: u16): int { (fcf / 0x400) % 4 }

  function SrcMode(fcf: u16): int { (fcf / 0x4000) % 4 }

  predicate GoodMac(m: MacHeader) {
    AddrHasMode(m.dst, DstMode(m.fcf)) && AddrHasMode(m.src, SrcMode(m.fcf))
  }

  predicate GoodNwk(n: NwkHeader) {
    && |n.multicast| == (if Flag(n.fc, 0x100) then 1 else 0)
    && |n.dstIeee| == (if Flag(n.fc, 0x800) then 8 else 0)
    && |n.srcIeee| == (if Flag(n.fc, 0x1000) then 8 else 0)
    && |n.relays| % 2 == 0 && |n.relays| / 2 < 0x100
    && (!Flag(n.fc, 0x400) ==> n.relays == [])
  }

  /** A MAC data frame without MAC security, so that a NWK header follows. */
  predicate CarriesNwk(m: MacHeader) {
    m.fcf % 8 == 1 && !Flag(m.fcf, 0x08)
  }

  predicate CarriesAps(m: MacHeader, n: NwkHeader) {
    CarriesNwk(m) && !Flag(n.fc, 0x200) && n.fc % 4 == 0
  }

  function Delivery(fc: u8): int { (fc / 4) % 4 }

  predicate Good(f: Frame) {
    GoodMac(f.mac) &&
    match f
    case MacOnly(m, rest) => !CarriesNwk(m) && |MacBytes(m)| + |rest| >= 5
    case NwkSecured(m, n, _) => GoodNwk(n) && CarriesNwk(m) && Flag(n.fc, 0x200)
    case NwkCommand(m, n, _) => GoodNwk(n) && CarriesNwk(m) && !Flag(n.fc, 0x200) && n.fc % 4 == 1
    case ApsData(m, n, a, _) => GoodNwk(n) && CarriesAps(m, n) && a.fc % 4 == 0 && !Flag(a.fc, 0x20)
    case ApsAck(m, n, a, _) => GoodNwk(n) && CarriesAps(m, n) && a.fc % 4 == 2 && !Flag(a.fc, 0x10) &&
                               !Flag(a.fc, 0x20)
  }

  function AddrBytes(a: Addr): seq<u8> {
    match a
    case Absent => []
    case Short(v) => Put16(v)
    case Extended(bytes) => bytes
  }

  function MacBytes(m: MacHeader): seq<u8> {
    Put16(m.fcf) + [m.seqNo]
    + (if m.dst.Absent? then [] else Put16(m.dstPan) + AddrBytes(m.dst))
    + (if m.src.Absent? then [] else (if Flag(m.fcf, 0x40) then [] else Put16(m.srcPan)) + AddrBytes(m.src))
  }

  function NwkBytes(n: NwkHeader): seq<u8>
    requires GoodNwk(n)
  {
    Put16(n.fc) + Put16(n.dst) + Put16(n.src) + [n.radius, n.seqNo] + n.multicast + n.dstIeee + n.srcIeee
    + (if Flag(n.fc, 0x400) then [|n.relays| / 2, n.relayIndex] + n.relays else [])
  }

  function ApsBytes(a: ApsHeader): seq<u8> {
    [a.fc] + (if Delivery(a.fc) == 3 then Put16(a.group) else [a.dstEp])
    + Put16(a.cluster) + Put16(a.profile) + [a.srcEp, a.counter]
    + (if Flag(a.fc, 0x80) && a.fc % 4 == 0 then [a.extFc] + (if a.extFc % 4 != 0 then [a.block] else []) else [])
  }

  /** The PSDU (without the two FCS bytes) that carries a frame. */
  function Bytes(f: Frame): seq<u8>
    requires Good(f)
  {
    match f
    case MacOnly(m, rest) => MacBytes(m) + rest
    case NwkSecured(m, n, rest) => MacBytes(m) + NwkBytes(n) + rest
    case NwkCommand(m, n, body) => MacBytes(m) + NwkBytes(n) + body
    case ApsData(m, n, a, payload) => MacBytes(m) + NwkBytes(n) + ApsBytes(a) + payload
    case ApsAck(m, n, a, rest) => MacBytes(m) + NwkBytes(n) + ApsBytes(a) + rest
  }

  // ------------------------------------------------------------------------------------------------------------------
  // The record parse_frame fills
  // ------------------------------------------------------------------------------------------------------------------

  datatype MacInfo = MacInfo(ok: bool, kind: u8, seqNo: u8, ackRequest: bool, pan: u16, dst: u16, src: u16)

  datatype NwkInfo = NwkInfo(ok: bool, kind: u8, version: u8, secured: bool, dst: u16, src: u16, radius: u8, cmd: u8)

  datatype ApsInfo = ApsInfo(ok: bool, kind: u8, delivery: u8, ackRequest: bool, secured: bool, dstEp: u8, srcEp: u8,
                             cluster: u16, profile: u16, counter: u8, ext: bool, frag: u8, block: u8,
                             payload: Option<seq<u8>>)

  datatype RxFrame = RxFrame(mac: MacInfo, nwk: NwkInfo, aps: ApsInfo)

  const NO_MAC := MacInfo(false, 0, 0, false, 0, 0, 0)
  const NO_NWK := NwkInfo(false, 0, 0, false, 0, 0, 0, 0)
  const NO_APS := ApsInfo(false, 0, 0, false, false, 0, 0, 0, 0, 0, false, 0, 0, None)

  function AddrField(a: Addr): u16 {
    match a
    case Absent => 0
    case Short(v) => v
    case Extended(_) => 0xFFFE
  }

  /** The fields a MAC header stands for. */
  function MacFields(m: MacHeader): MacInfo {
    var pan := if !m.dst.Absent? then m.dstPan
               else if !m.src.Absent? && !Flag(m.fcf, 0x40) && DstMode(m.fcf) == 0 then m.srcPan
               else 0;
    MacInfo(true, m.fcf % 8, m.seqNo, Flag(m.fcf, 0x20), pan, AddrField(m.dst), AddrField(m.src))
  }

  function NwkFields(n: NwkHeader, cmd: u8): NwkInfo {
    NwkInfo(true, n.fc % 4, (n.fc / 4) % 0x10, Flag(n.fc, 0x200), n.dst, n.src, n.radius, cmd)
  }

  function ApsFields(a: ApsHeader, payload: Option<seq<u8>>): ApsInfo {
    var fragmented := Flag(a.fc, 0x80) && a.fc % 4 == 0;
    ApsInfo(true, a.fc % 4, Delivery(a.fc), Flag(a.fc, 0x40), Flag(a.fc, 0x20),
            if Delivery(a.fc) == 3 then 0 else a.dstEp, a.srcEp, a.cluster, a.profile, a.counter, Flag(a.fc, 0x80),
            if fragmented then a.extFc % 4 else 0,
            if fragmented && a.extFc % 4 != 0 then a.block else 0,
            payload)
  }

  /** What a reader of a frame must learn from it. */
  function Fields(f: Frame): RxFrame {
    match f
    case MacOnly(m, _) => RxFrame(MacFields(m), NO_NWK, NO_APS)
    case NwkSecured(m, n, _) => RxFrame(MacFields(m), NwkFields(n, 0), NO_APS)
    case NwkCommand(m, n, body) => RxFrame(MacFields(m), NwkFields(n, if body == [] then 0 else body[0]), NO_APS)
    case ApsData(m, n, a, payload) => RxFrame(MacFields(m), NwkFields(n, 0), ApsFields(a, Some(payload)))
    case ApsAck(m, n, a, _) => RxFrame(MacFields(m), NwkFields(n, 0), ApsFields(a, None))
  }

  // ------------------------------------------------------------------------------------------------------------------
  // The parser as a function of the receive buffer `a` and the number `len` of valid bytes in it
  // ------------------------------------------------------------------------------------------------------------------

  /** Success, fields and cursor after the MAC header. */
  function ParseMac(a: seq<u8>, len: nat): (bool, MacInfo, nat)
    requires 5 <= len < |a|
  {
    var fcf := Get16(a, 0);
    var o := NO_MAC.(kind := fcf % 8, ackRequest := Flag(fcf, 0x20), seqNo := a[2]);
    var d, s, comp := DstMode(fcf), SrcMode(fcf), Flag(fcf, 0x40);
    var dstLen := if d == 2 then 4 else if d == 3 then 10 else 0;
    if 3 + dstLen > len then (false, o, 3) else
    var o1 := if dstLen == 0 then o else o.(pan := Get16(a, 3), dst := if d == 2 then Get16(a, 5) else 0xFFFE);
    var i := 3 + dstLen;
    var panLen := if comp then 0 else 2;
    var srcLen := if s == 2 then panLen + 2 else if s == 3 then panLen + 8 else 0;
    if i + srcLen > len then (false, o1, i) else
    var o2 := if srcLen != 0 && !comp && d == 0 then o1.(pan := Get16(a, i)) else o1;
    var o3 := if s == 2 then o2.(src := Get16(a, i + panLen)) else if s == 3 then o2.(src := 0xFFFE) else o2;
    (true, o3.(ok := true), i + srcLen)
  }

  /** Fields of the NWK header, and where the APS header starts if there is one to parse. */
  function ParseNwk(a: seq<u8>, len: nat, i: nat): (NwkInfo, Option<nat>)
    requires i <= len < |a|
  {
    if i + 8 > len then (NO_NWK, None) else
    var fc := Get16(a, i);
    var o := NwkInfo(false, fc % 4, (fc / 4) % 0x10, Flag(fc, 0x200), Get16(a, i + 2), Get16(a, i + 4), a[i + 6], 0);
    if o.secured then (o.(ok := true), None) else
    var j := i + 8 + (if Flag(fc, 0x100) then 1 else 0) + (if Flag(fc, 0x800) then 8 else 0)
             + (if Flag(fc, 0x1000) then 8 else 0);
    if Flag(fc, 0x400) && j + 2 > len then (o, None) else
    var k := if Flag(fc, 0x400) then j + 2 + 2 * (a[j] as int) else j;
    if k > len then (o, None)
    else if o.kind == 1 then (o.(ok := true, cmd := if k < len then a[k] else 0), None)
    else if o.kind != 0 || k >= len then (o.(ok := true), None)
    else (o.(ok := true), Some(k))
  }

  /** Fields of the APS header, and the cursor after it. */
  function ParseAps(a: seq<u8>, len: nat, i: nat): (ApsInfo, nat)
    requires i < len < |a|
  {
    var fc := a[i];
    var o := NO_APS.(kind := fc % 4, delivery := Delivery(fc), secured := Flag(fc, 0x20),
                     ackRequest := Flag(fc, 0x40), ext := Flag(fc, 0x80));
    if o.secured then (o.(ok := true), i + 1)
    else if o.kind == 0 || (o.kind == 2 && !Flag(fc, 0x10)) then
      var group := o.delivery == 3;
      var need := (if group then 2 else 1) + 6 - (if o.kind == 2 && group then 1 else 0);
      if i + 1 + need > len then (o, i + 1) else
      var j := i + 1 + (if group then 2 else 1);
      var o1 := o.(dstEp := if group then 0 else a[i + 1], cluster := Get16(a, j), profile := Get16(a, j + 2),
                   srcEp := a[j + 4], counter := a[j + 5]);
      if !(o1.ext && o1.kind == 0) then WithPayload(a, len, j + 6, o1)
      else if j + 6 >= len then (o1, j + 6)
      else
        var o2 := o1.(frag := a[j + 6] % 4);
        if o2.frag == 0 then WithPayload(a, len, j + 7, o2)
        else if j + 7 >= len then (o2, j + 7)
        else WithPayload(a, len, j + 8, o2.(block := a[j + 7]))
    else WithPayload(a, len, i + 1, o)
  }

  function WithPayload(a: seq<u8>, len: nat, i: nat, o: ApsInfo): (ApsInfo, nat)
    requires len < |a|
  {
    (o.(ok := true, payload := if o.kind == 0 && i <= len then Some(a[i..len]) else None), i)
  }

  /** parse_frame: success and fields. */
  function Parse(a: seq<u8>, len: nat): (bool, RxFrame)
    requires len < |a|
  {
    if len < 5 then (false, RxFrame(NO_MAC, NO_NWK, NO_APS)) else
    var (ok, mac, i) := ParseMac(a, len);
    if !ok || mac.kind != 1 || Flag(Get16(a, 0), 0x08) then (ok, RxFrame(mac, NO_NWK, NO_APS)) else
    var (nwk, start) := ParseNwk(a, len, i);
    (true, RxFrame(mac, nwk, if start.None? then NO_APS else ParseAps(a, len, start.value).0))
  }

  /** The parser as the source writes it: a cursor `i` over the buffer of a received frame, one header after the other.
      The buffer of a received frame is 127 bytes long and `len` is at most 125, so index `len` is always inside it. */
  method ParseFrame(p: array?<u8>, len: nat) returns (ok: bool, o: RxFrame)
    requires p != null ==> len < p.Length
    ensures p == null ==> !ok && o == RxFrame(NO_MAC, NO_NWK, NO_APS)
    ensures p != null ==> (ok, o) == Parse(p[..], len)
  {
    o := RxFrame(NO_MAC, NO_NWK, NO_APS);
    if p == null || len < 5 {
      return false, o;
    }
    var fcf := GetWord(p, 0);
    var mac, i;
    ok, mac, i := ParseMacHeader(p, len, fcf);
    o := o.(mac := mac);
    if !ok || mac.kind != 1 || Flag(fcf, 0x08) {
      return ok, o;
    }
    var nwk, aps := ParseNwkHeader(p, len, i);
    o := o.(nwk := nwk);
    if aps.Some? {
      var info := ParseApsHeader(p, len, aps.value);
      o := o.(aps := info);
    }
    return true, o;
  }

  method GetWord(p: array<u8>, i: nat) returns (w: u16)
    requires i + 2 <= p.Length
    ensures w == Get16(p[..], i)
  {
    w := p[i] + (p[i + 1] as int) * 0x100;
  }

  method ParseMacHeader(p: array<u8>, len: nat, fcf: u16) returns (ok: bool, o: MacInfo, i: nat)
    requires 5 <= len < p.Length && fcf == Get16(p[..], 0)
    ensures (ok, o, i) == ParseMac(p[..], len)
  {
    o := NO_MAC.(kind := fcf % 8, ackRequest := Flag(fcf, 0x20));
    var panComp := Flag(fcf, 0x40);
    var dstMode, srcMode := DstMode(fcf), SrcMode(fcf);
    i := 2;
    o := o.(seqNo := p[i]);
    i := i + 1;
    if dstMode == 2 || dstMode == 3 {
      var need := 2 + (if dstMode == 2 then 2 else 8);
      if i + need > len {
        return false, o, i;
      }
      var w := GetWord(p, i);
      o := o.(pan := w);
      i := i + 2;
      if dstMode == 2 {
        w := GetWord(p, i);
        o := o.(dst := w);
        i := i + 2;
      } else {
        o := o.(dst := 0xFFFE);
        i := i + 8;
      }
    }
    if srcMode == 2 || srcMode == 3 {
      var need := (if panComp then 0 else 2) + (if srcMode == 2 then 2 else 8);
      if i + need > len {
        return false, o, i;
      }
      if !panComp {
        if dstMode == 0 {
          var w := GetWord(p, i);
          o := o.(pan := w);
        }
        i := i + 2;
      }
      if srcMode == 2 {
        var w := GetWord(p, i);
        o := o.(src := w);
        i := i + 2;
      } else {
        o := o.(src := 0xFFFE);
        i := i + 8;
      }
    }
    return true, o.(ok := true), i;
  }

  method ParseNwkHeader(p: array<u8>, len: nat, start: nat) returns (o: NwkInfo, aps: Option<nat>)
    requires start <= len < p.Length
    ensures (o, aps) == ParseNwk(p[..], len, start)
  {
    var i := start;
    o := NO_NWK;
    if i + 8 > len {
      return o, None;
    }
    var nfc := GetWord(p, i);
    var dst := GetWord(p, i + 2);
    var src := GetWord(p, i + 4);
    o := o.(kind := nfc % 4, version := (nfc / 4) % 0x10, secured := Flag(nfc, 0x200));
    o := o.(dst := dst, src := src, radius := p[i + 6]);
    i := i + 8;
    if o.secured {
      return o.(ok := true), None;
    }
    if Flag(nfc, 0x100) {
      i := i + 1;
    }
    if Flag(nfc, 0x800) {
      i := i + 8;
    }
    if Flag(nfc, 0x1000) {
      i := i + 8;
    }
    if Flag(nfc, 0x400) {
      if i + 2 > len {
        return o, None;
      }
      var relayCount: int := p[i];
      i := i + 2 + 2 * relayCount;
    }
    if i > len {
      return o, None;
    }
    o := o.(ok := true);
    if o.kind == 1 {
      if i < len {
        o := o.(cmd := p[i]);
      }
      return o, None;
    }
    if o.kind != 0 || i >= len {
      return o, None;
    }
    return o, Some(i);
  }

  method ParseApsHeader(p: array<u8>, len: nat, start: nat) returns (o: ApsInfo)
    requires start < len < p.Length
    ensures o == ParseAps(p[..], len, start).0
  {
    var i := start;
    var afc := p[i];
    i := i + 1;
    o := NO_APS.(kind := afc % 4, delivery := Delivery(afc));
    var ackFormat := Flag(afc, 0x10);
    o := o.(secured := Flag(afc, 0x20), ackRequest := Flag(afc, 0x40), ext := Flag(afc, 0x80));
    if o.secured {
      return o.(ok := true);
    }
    if o.kind == 0 || (o.kind == 2 && !ackFormat) {
      var need := (if o.delivery == 3 then 2 else 1) + 2 + 2 + 1 + 1;
      if o.kind == 2 && o.delivery == 3 {
        need := need - 1;
      }
      if i + need > len {
        return o;
      }
      if o.delivery == 3 {
        i := i + 2;
      } else {
        o := o.(dstEp := p[i]);
        i := i + 1;
      }
      var cluster := GetWord(p, i);
      i := i + 2;
      var profile := GetWord(p, i);
      i := i + 2;
      o := o.(cluster := cluster, profile := profile, srcEp := p[i]);
      i := i + 1;
      o := o.(counter := p[i]);
      i := i + 1;
      if o.ext && o.kind == 0 {
        if i >= len {
          return o;
        }
        var efc := p[i];
        i := i + 1;
        o := o.(frag := efc % 4);
        if o.frag != 0 {
          if i >= len {
            return o;
          }
          o := o.(block := p[i]);
          i := i + 1;
        }
      }
    }
    o := o.(ok := true);
    if o.kind == 0 && i <= len {
      o := o.(payload := Some(p[i..len]));
    }
  }
}
