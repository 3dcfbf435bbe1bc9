/** `FrameFactory`: builds the frames the ECU sends, and what a receiver makes of them. */
module Factory {
  import opened Words
  import opened ApsFrames
  import opened FrameTheorems

  /** The radio independent copy of a message. */
  datatype Msg = Msg(valid: bool, broadcast: bool, dst: u16, pan: u16, cluster: u16, asdu: seq<u8>)

  /** A sequence number after the postfix increment of a `uint8_t`. */
  function Next(n: u8): u8 {
    (n as int + 1) % 0x100
  }

  // ------------------------------------------------------------------------------------------------------------------
  // The frames meant, as values of the grammar
  // ------------------------------------------------------------------------------------------------------------------

  function MacOf(ack: bool, seqNo: u8, pan: u16, dst: u16): (m: MacHeader)
    ensures GoodMac(m) && CarriesNwk(m) && |MacBytes(m)| == 9
  {
    MacHeader(0x8841 + (if ack then 0x20 else 0), seqNo, pan, Short(dst), 0, Short(ADDR_COORDINATOR))
  }

  function NwkOf(cfg: NetworkConfig, kind: u8, discover: bool, dst: u16, radius: u8, seqNo: u8): (n: NwkHeader)
    ensures GoodNwk(n) && !Flag(n.fc, 0x200) && n.fc % 4 == kind % 4 && |NwkBytes(n)| == 8
  {
    NwkHeader(kind % 4 + (cfg.protocolVersion % 0x10) * 4 + (if discover then 0x40 else 0),
              dst, ADDR_COORDINATOR, radius, seqNo, [], [], [], 0, [])
  }

  function ApsOf(fc: u8, cluster: u16, counter: u8): ApsHeader {
    ApsHeader(fc, 0, APS_ENDPOINT, cluster, APS_PROFILE_ID, APS_ENDPOINT, counter, 0, 0)
  }

  function UnicastFrame(cfg: NetworkConfig, macSeq: u8, nwkSeq: u8, counter: u8, dst: u16, cluster: u16,
                        asdu: seq<u8>, apsAck: bool): (f: Frame)
    ensures Good(f) && |Bytes(f)| == 25 + |asdu|
  {
    hide MacOf, NwkOf, GoodMac, GoodNwk, MacBytes, NwkBytes, CarriesNwk;
    ApsData(MacOf(cfg.macAck, macSeq, cfg.panId, dst), NwkOf(cfg, 0, cfg.discoverRoute, dst, cfg.radius, nwkSeq),
            ApsOf(if apsAck then 0x40 else 0x00, cluster, counter), asdu)
  }

  function BroadcastFrame(cfg: NetworkConfig, macSeq: u8, nwkSeq: u8, counter: u8, macPan: u16, cluster: u16,
                          asdu: seq<u8>): (f: Frame)
    ensures Good(f) && |Bytes(f)| == 25 + |asdu|
  {
    hide MacOf, NwkOf, GoodMac, GoodNwk, MacBytes, NwkBytes, CarriesNwk;
    ApsData(MacOf(false, macSeq, macPan, ADDR_BROADCAST), NwkOf(cfg, 0, false, ADDR_BROADCAST, cfg.radius, nwkSeq),
            ApsOf(0x08, cluster, counter), asdu)
  }

  /** The entries of a link status command: neighbour address, both costs 1. */
  function LinkEntries(neighbours: seq<u16>): (s: seq<u8>)
    ensures |s| == 3 * |neighbours|
  {
    if neighbours == [] then []
    else LinkEntries(neighbours[..|neighbours| - 1]) + Put16(neighbours[|neighbours| - 1]) + [0x11]
  }

  function LinkStatusFrame(cfg: NetworkConfig, macSeq: u8, nwkSeq: u8, neighbours: seq<u16>): (f: Frame)
    requires |neighbours| <= 20
    ensures Good(f) && |Bytes(f)| == 19 + 3 * |neighbours|
  {
    NwkCommand(MacOf(false, macSeq, cfg.panId, ADDR_BROADCAST), NwkOf(cfg, 1, false, ADDR_ALL_ROUTERS, 1, nwkSeq),
               [0x08, 0x60 + |neighbours|] + LinkEntries(neighbours))
  }

  function RouteRequestFrame(cfg: NetworkConfig, macSeq: u8, nwkSeq: u8, id: u8): (f: Frame)
    ensures Good(f) && |Bytes(f)| == 23
  {
    NwkCommand(MacOf(false, macSeq, cfg.panId, ADDR_BROADCAST), NwkOf(cfg, 1, false, ADDR_ALL_ROUTERS, 30, nwkSeq),
               [0x01, 0x08, id] + Put16(ADDR_ALL_ROUTERS) + [0x00])
  }

  /** The acknowledgement of a received frame: endpoints swapped, cluster, profile and counter repeated. */
  function AckFrame(cfg: NetworkConfig, macSeq: u8, nwkSeq: u8, rx: RxFrame): (f: Frame)
    ensures Good(f) && |Bytes(f)| == 25 + (if rx.aps.ext then 3 else 0)
  {
    ApsAck(MacOf(true, macSeq, cfg.panId, rx.mac.src), NwkOf(cfg, 0, false, rx.nwk.src, cfg.radius, nwkSeq),
           ApsHeader(0x02 + (if rx.aps.ext then 0x80 else 0x00), 0, rx.aps.srcEp, rx.aps.cluster, rx.aps.profile,
                     rx.aps.dstEp, rx.aps.counter, 0, 0),
           if rx.aps.ext then [rx.aps.frag % 4, rx.aps.block, 0x01] else [])
  }

  lemma MacLayout(m: MacHeader)
    requires m.dst.Short? && m.src.Short? && Flag(m.fcf, 0x40)
    ensures MacBytes(m) == Put16(m.fcf) + [m.seqNo] + Put16(m.dstPan) + Put16(m.dst.addr) + Put16(m.src.addr)
  {
  }

  lemma NwkLayout(n: NwkHeader)
    requires GoodNwk(n) && n.multicast == [] && n.dstIeee == [] && n.srcIeee == [] && !Flag(n.fc, 0x400)
    ensures NwkBytes(n) == Put16(n.fc) + Put16(n.dst) + Put16(n.src) + [n.radius, n.seqNo]
  {
  }

  /** The eight bytes of an APS header with one endpoint as destination and no extension. */
  function PlainAps(fc: u8, dstEp: u8, cluster: u16, profile: u16, srcEp: u8, counter: u8): (s: seq<u8>)
    ensures |s| == 8
  {
    [fc, dstEp] + Put16(cluster) + Put16(profile) + [srcEp, counter]
  }

  lemma ApsLayout(x: ApsHeader)
    requires Delivery(x.fc) != 3 && !(Flag(x.fc, 0x80) && x.fc % 4 == 0)
    ensures ApsBytes(x) == PlainAps(x.fc, x.dstEp, x.cluster, x.profile, x.srcEp, x.counter)
  {
  }

  lemma UnicastLayout(cfg: NetworkConfig, macSeq: u8, nwkSeq: u8, counter: u8, dst: u16, cluster: u16, asdu: seq<u8>,
                      apsAck: bool)
    ensures Bytes(UnicastFrame(cfg, macSeq, nwkSeq, counter, dst, cluster, asdu, apsAck)) ==
            MacBytes(MacOf(cfg.macAck, macSeq, cfg.panId, dst))
            + NwkBytes(NwkOf(cfg, 0, cfg.discoverRoute, dst, cfg.radius, nwkSeq))
            + PlainAps(if apsAck then 0x40 else 0x00, APS_ENDPOINT, cluster, APS_PROFILE_ID, APS_ENDPOINT, counter)
            + asdu
  {
    ApsLayout(ApsOf(if apsAck then 0x40 else 0x00, cluster, counter));
  }

  lemma BroadcastLayout(cfg: NetworkConfig, macSeq: u8, nwkSeq: u8, counter: u8, macPan: u16, cluster: u16,
                        asdu: seq<u8>)
    ensures Bytes(BroadcastFrame(cfg, macSeq, nwkSeq, counter, macPan, cluster, asdu)) ==
            MacBytes(MacOf(false, macSeq, macPan, ADDR_BROADCAST))
            + NwkBytes(NwkOf(cfg, 0, false, ADDR_BROADCAST, cfg.radius, nwkSeq))
            + PlainAps(0x08, APS_ENDPOINT, cluster, APS_PROFILE_ID, APS_ENDPOINT, counter)
            + asdu
  {
    ApsLayout(ApsOf(0x08, cluster, counter));
  }

  lemma AckLayout(cfg: NetworkConfig, macSeq: u8, nwkSeq: u8, rx: RxFrame)
    ensures Bytes(AckFrame(cfg, macSeq, nwkSeq, rx)) ==
            MacBytes(MacOf(true, macSeq, cfg.panId, rx.mac.src))
            + NwkBytes(NwkOf(cfg, 0, false, rx.nwk.src, cfg.radius, nwkSeq))
            + PlainAps(0x02 + (if rx.aps.ext then 0x80 else 0x00), rx.aps.srcEp, rx.aps.cluster, rx.aps.profile,
                       rx.aps.dstEp, rx.aps.counter)
            + (if rx.aps.ext then [rx.aps.frag % 4, rx.aps.block, 0x01] else [])
  {
    ApsLayout(AckFrame(cfg, macSeq, nwkSeq, rx).aps);
  }

  // ------------------------------------------------------------------------------------------------------------------
  // The builders
  // ------------------------------------------------------------------------------------------------------------------

  class TxFrame {
    const buf: array<u8>
    var macLen: nat
    var ackRequest: bool
    var msg: Msg

    predicate Valid()
      reads this
    {
      buf.Length == MAX_PSDU + 1 && macLen <= MAX_PSDU - 2
    }

    /** The MAC frame in the buffer, without length byte and FCS. */
    function Psdu(): seq<u8>
      requires Valid()
      reads this, buf
    {
      buf[1..1 + macLen]
    }

    /** The frame is complete: length byte in front, and it fits the 127 bytes of a PSDU. */
    predicate Holds(f: Frame)
      requires Good(f)
      reads this, buf
    {
      Valid() && Psdu() == Bytes(f) && buf[0] == |Bytes(f)| + 2 && |Bytes(f)| + 2 <= MAX_PSDU
    }

    constructor ()
      ensures Valid() && fresh(buf) && !msg.valid && macLen == 0
    {
      buf := new u8[MAX_PSDU + 1](_ => 0);
      macLen := 0;
      ackRequest := false;
      msg := Msg(false, false, 0, 0, 0, []);
    }

    /** The first `end` bytes of the buffer are written: record the length. */
    method Finish(end: nat, ackRequest: bool)
      requires buf.Length == MAX_PSDU + 1 && 1 <= end <= MAX_PSDU - 1
      modifies this`macLen, this`ackRequest, buf
      ensures Valid() && Psdu() == old(buf[1..end]) && buf[0] == end + 1 && this.ackRequest == ackRequest
    {
      macLen := end - 1;
      this.ackRequest := ackRequest;
      buf[0] := macLen + 2;
    }
  }

  class FrameFactory {
    const cfg: NetworkConfig
    var macSeq: u8
    var nwkSeq: u8
    var apsCounter: u8
    var rreqId: u8

    constructor (cfg: NetworkConfig)
      ensures this.cfg == cfg && macSeq == nwkSeq == apsCounter == rreqId == 0
    {
      this.cfg := cfg;
      macSeq, nwkSeq, apsCounter, rreqId := 0, 0, 0, 0;
    }

    static method PutWord(p: array<u8>, i: nat, v: u16)
      requires i + 2 <= p.Length
      modifies p
      ensures p[..i + 2] == old(p[..i]) + Put16(v)
    {
      p[i] := v % 0x100;
      p[i + 1] := v / 0x100;
    }

    static method PutByte(p: array<u8>, i: nat, v: u8)
      requires i + 1 <= p.Length
      modifies p
      ensures p[..i + 1] == old(p[..i]) + [v]
    {
      p[i] := v;
    }

    /** memcpy of `data` to `p + i`. */
    static method PutBytes(p: array<u8>, i: nat, data: seq<u8>)
      requires i + |data| <= p.Length
      modifies p
      ensures p[..i + |data|] == old(p[..i]) + data
    {
      forall k | 0 <= k < |data| {
        p[i + k] := data[k];
      }
    }

    method PutMacHeader(p: array<u8>, i: nat, ackRequest: bool, dstPan: u16, dst: u16) returns (n: nat)
      requires i + 9 <= p.Length
      modifies p, this`macSeq
      ensures n == 9 && macSeq == Next(old(macSeq))
      ensures p[..i + 9] == old(p[..i]) + MacBytes(MacOf(ackRequest, old(macSeq), dstPan, dst))
    {
      var fcf := 0x8841;
      if ackRequest {
        fcf := fcf + 0x20;
      }
      PutWord(p, i, fcf);
      PutByte(p, i + 2, macSeq);
      macSeq := Next(macSeq);
      PutWord(p, i + 3, dstPan);
      PutWord(p, i + 5, dst);
      PutWord(p, i + 7, ADDR_COORDINATOR);
      ghost var m := MacOf(ackRequest, old(macSeq), dstPan, dst);
      MacLayout(m);
      assert p[..i + 9] == old(p[..i]) + (Put16(m.fcf) + [m.seqNo] + Put16(dstPan) + Put16(dst)
                                          + Put16(ADDR_COORDINATOR));
      n := 9;
    }

    method PutNwkHeader(p: array<u8>, i: nat, kind: u8, discover: bool, dst: u16, radius: u8) returns (n: nat)
      requires i + 8 <= p.Length
      modifies p, this`nwkSeq
      ensures n == 8 && nwkSeq == Next(old(nwkSeq))
      ensures p[..i + 8] == old(p[..i]) + NwkBytes(NwkOf(cfg, kind, discover, dst, radius, old(nwkSeq)))
    {
      hide NwkBytes, GoodNwk;
      var fc: int := kind % 4 + (cfg.protocolVersion % 0x10) * 4;
      if discover {
        fc := fc + 0x40;
      }
      PutWord(p, i, fc);
      PutWord(p, i + 2, dst);
      PutWord(p, i + 4, ADDR_COORDINATOR);
      PutByte(p, i + 6, radius);
      PutByte(p, i + 7, nwkSeq);
      ghost var h := NwkOf(cfg, kind, discover, dst, radius, nwkSeq);
      nwkSeq := Next(nwkSeq);
      NwkLayout(h);
      assert p[..i + 8] == old(p[..i]) + (Put16(h.fc) + Put16(dst) + Put16(ADDR_COORDINATOR) + [radius, h.seqNo]);
      n := 8;
    }

    /** The eight bytes of an APS header without extension, endpoints and cluster given. */
    method PutApsHeader(p: array<u8>, i: nat, fc: u8, dstEp: u8, cluster: u16, profile: u16, srcEp: u8, counter: u8)
      returns (n: nat)
      requires i + 8 <= p.Length
      modifies p
      ensures n == 8
      ensures p[..i + 8] == old(p[..i]) + PlainAps(fc, dstEp, cluster, profile, srcEp, counter)
    {
      PutByte(p, i, fc);
      PutByte(p, i + 1, dstEp);
      PutWord(p, i + 2, cluster);
      PutWord(p, i + 4, profile);
      PutByte(p, i + 6, srcEp);
      PutByte(p, i + 7, counter);
      n := 8;
    }

    /** MAC and NWK header at the start of a frame. */
    method PutHeaders(p: array<u8>, ackRequest: bool, pan: u16, macDst: u16, kind: u8, discover: bool, nwkDst: u16,
                      radius: u8) returns (i: nat)
      requires p.Length == MAX_PSDU + 1
      modifies p, this`macSeq, this`nwkSeq
      ensures i == 18
      ensures p[1..18] == MacBytes(MacOf(ackRequest, old(macSeq), pan, macDst))
                          + NwkBytes(NwkOf(cfg, kind, discover, nwkDst, radius, old(nwkSeq)))
      ensures macSeq == Next(old(macSeq)) && nwkSeq == Next(old(nwkSeq))
    {
      hide MacBytes, NwkBytes;
      i := 1;
      var n := PutMacHeader(p, i, ackRequest, pan, macDst);
      i := i + n;
      ghost var h := MacBytes(MacOf(ackRequest, old(macSeq), pan, macDst));
      assert p[..i] == old(p[..1]) + h;
      n := PutNwkHeader(p, i, kind, discover, nwkDst, radius);
      i := i + n;
      ghost var w := NwkBytes(NwkOf(cfg, kind, discover, nwkDst, radius, old(nwkSeq)));
      assert p[..i] == old(p[..1]) + h + w;
    }

    method BuildUnicast(f: TxFrame, dst: u16, cluster: u16, asdu: seq<u8>, apsAck: bool) returns (ok: bool)
      requires f.Valid()
      modifies this, f, f.buf
      ensures ok <==> |asdu| <= MAX_ASDU
      ensures ok ==> f.Holds(UnicastFrame(cfg, old(macSeq), old(nwkSeq), old(apsCounter), dst, cluster, asdu, apsAck))
      ensures ok ==> f.ackRequest == cfg.macAck && f.msg == Msg(true, false, dst, cfg.panId, cluster, asdu)
      ensures ok ==> macSeq == Next(old(macSeq)) && nwkSeq == Next(old(nwkSeq)) &&
                     apsCounter == Next(old(apsCounter)) && rreqId == old(rreqId)
      ensures !ok ==> unchanged(this) && unchanged(f) && unchanged(f.buf)
    {
      hide MacBytes, NwkBytes, MacOf, NwkOf, PlainAps, Bytes, UnicastFrame, Good;
      var n := |asdu|;
      if 9 + 8 + 8 + n > MAX_PSDU - 2 {
        return false;
      }
      var p := f.buf;
      var i := PutHeaders(p, cfg.macAck, cfg.panId, dst, 0, cfg.discoverRoute, dst, cfg.radius);
      ghost var headers := p[..i];
      var k := PutApsHeader(p, i, if apsAck then 0x40 else 0x00, APS_ENDPOINT, cluster, APS_PROFILE_ID, APS_ENDPOINT,
                            apsCounter);
      i := i + k;
      ghost var aps := p[18..i];
      assert p[..i] == headers + aps;
      PutBytes(p, i, asdu);
      i := i + n;
      assert p[1..i] == headers[1..] + aps + asdu;
      UnicastLayout(cfg, old(macSeq), old(nwkSeq), apsCounter, dst, cluster, asdu, apsAck);
      apsCounter := Next(apsCounter);
      f.msg := Msg(n <= MAX_ASDU, false, dst, cfg.panId, cluster, if n <= MAX_ASDU then asdu else []);
      f.Finish(i, cfg.macAck);
      return true;
    }

    method BuildBroadcast(f: TxFrame, macPan: u16, cluster: u16, asdu: seq<u8>) returns (ok: bool)
      requires f.Valid()
      modifies this, f, f.buf
      ensures ok <==> |asdu| <= MAX_ASDU
      ensures ok ==> f.Holds(BroadcastFrame(cfg, old(macSeq), old(nwkSeq), old(apsCounter), macPan, cluster, asdu))
      ensures ok ==> !f.ackRequest && f.msg == Msg(true, true, ADDR_BROADCAST, macPan, cluster, asdu)
      ensures ok ==> macSeq == Next(old(macSeq)) && nwkSeq == Next(old(nwkSeq)) &&
                     apsCounter == Next(old(apsCounter)) && rreqId == old(rreqId)
      ensures !ok ==> unchanged(this) && unchanged(f) && unchanged(f.buf)
    {
      hide MacBytes, NwkBytes, MacOf, NwkOf, PlainAps, Bytes, BroadcastFrame, Good;
      var n := |asdu|;
      if 9 + 8 + 8 + n > MAX_PSDU - 2 {
        return false;
      }
      var p := f.buf;
      var i := PutHeaders(p, false, macPan, ADDR_BROADCAST, 0, false, ADDR_BROADCAST, cfg.radius);
      ghost var headers := p[..i];
      var k := PutApsHeader(p, i, 0x08, APS_ENDPOINT, cluster, APS_PROFILE_ID, APS_ENDPOINT, apsCounter);
      i := i + k;
      ghost var aps := p[18..i];
      assert p[..i] == headers + aps;
      PutBytes(p, i, asdu);
      i := i + n;
      assert p[1..i] == headers[1..] + aps + asdu;
      BroadcastLayout(cfg, old(macSeq), old(nwkSeq), apsCounter, macPan, cluster, asdu);
      apsCounter := Next(apsCounter);
      f.msg := Msg(n <= MAX_ASDU, true, ADDR_BROADCAST, macPan, cluster, if n <= MAX_ASDU then asdu else []);
      f.Finish(i, false);
      return true;
    }

    /** Address and two link costs for each neighbour. */
    method PutNeighbours(p: array<u8>, start: nat, neighbours: seq<u16>) returns (i: nat)
      requires start + 3 * |neighbours| <= p.Length
      modifies p
      ensures i == start + 3 * |neighbours|
      ensures p[..i] == old(p[..start]) + LinkEntries(neighbours)
    {
      i := start;
      for k := 0 to |neighbours|
        invariant i == start + 3 * k
        invariant p[..i] == old(p[..start]) + LinkEntries(neighbours[..k])
      {
        ghost var before := p[..i];
        PutWord(p, i, neighbours[k]);
        i := i + 2;
        PutByte(p, i, 0x11);
        i := i + 1;
        assert neighbours[..k + 1][..k] == neighbours[..k];
        assert p[..i] == before + Put16(neighbours[k]) + [0x11];
      }
      assert neighbours[..|neighbours|] == neighbours;
    }

    method BuildLinkStatus(f: TxFrame, neighbours: seq<u16>) returns (ok: bool)
      requires f.Valid()
      modifies this, f, f.buf
      ensures ok && !f.ackRequest && f.msg == old(f.msg)
      ensures var m := if |neighbours| > 20 then 20 else |neighbours|;
              f.Holds(LinkStatusFrame(cfg, old(macSeq), old(nwkSeq), neighbours[..m]))
      ensures macSeq == Next(old(macSeq)) && nwkSeq == Next(old(nwkSeq))
      ensures apsCounter == old(apsCounter) && rreqId == old(rreqId)
    {
      hide MacBytes, NwkBytes, MacOf, NwkOf, LinkEntries;
      var n := |neighbours|;
      if n > 20 {
        n := 20;
      }
      var p := f.buf;
      var i := PutHeaders(p, false, cfg.panId, ADDR_BROADCAST, 1, false, ADDR_ALL_ROUTERS, 1);
      ghost var headers := p[..i];
      PutByte(p, i, 0x08);
      i := i + 1;
      PutByte(p, i, 0x60 + n);
      i := i + 1;
      ghost var start := [0x08, 0x60 + n];
      assert p[..i] == headers + start;
      i := PutNeighbours(p, i, neighbours[..n]);
      ghost var body := start + LinkEntries(neighbours[..n]);
      assert p[1..i] == headers[1..] + body;
      f.Finish(i, false);
      return true;
    }

    method BuildManyToOneRreq(f: TxFrame) returns (ok: bool)
      requires f.Valid()
      modifies this, f, f.buf
      ensures ok && !f.ackRequest && f.msg == old(f.msg)
      ensures f.Holds(RouteRequestFrame(cfg, old(macSeq), old(nwkSeq), old(rreqId)))
      ensures macSeq == Next(old(macSeq)) && nwkSeq == Next(old(nwkSeq))
      ensures apsCounter == old(apsCounter) && rreqId == Next(old(rreqId))
    {
      hide MacBytes, NwkBytes, MacOf, NwkOf;
      var p := f.buf;
      var i := PutHeaders(p, false, cfg.panId, ADDR_BROADCAST, 1, false, ADDR_ALL_ROUTERS, 30);
      ghost var headers := p[..i];
      PutByte(p, i, 0x01);
      i := i + 1;
      PutByte(p, i, 0x08);
      i := i + 1;
      PutByte(p, i, rreqId);
      i := i + 1;
      PutWord(p, i, ADDR_ALL_ROUTERS);
      i := i + 2;
      PutByte(p, i, 0x00);
      i := i + 1;
      ghost var body := [0x01, 0x08, rreqId] + Put16(ADDR_ALL_ROUTERS) + [0x00];
      assert p[..i] == headers + body;
      assert p[1..i] == headers[1..] + body;
      rreqId := Next(rreqId);
      f.Finish(i, false);
      return true;
    }

    method BuildApsAck(f: TxFrame, rx: RxFrame) returns (ok: bool)
      requires f.Valid()
      modifies this, f, f.buf
      ensures ok && f.ackRequest && f.msg == old(f.msg)
      ensures f.Holds(AckFrame(cfg, old(macSeq), old(nwkSeq), rx))
      ensures macSeq == Next(old(macSeq)) && nwkSeq == Next(old(nwkSeq))
      ensures apsCounter == old(apsCounter) && rreqId == old(rreqId)
    {
      hide MacBytes, NwkBytes, MacOf, NwkOf, PlainAps, Bytes, AckFrame, Good;
      var p := f.buf;
      var i := PutHeaders(p, true, cfg.panId, rx.mac.src, 0, false, rx.nwk.src, cfg.radius);
      ghost var headers := p[..i];
      var k := PutApsHeader(p, i, 0x02 + (if rx.aps.ext then 0x80 else 0x00), rx.aps.srcEp, rx.aps.cluster,
                            rx.aps.profile, rx.aps.dstEp, rx.aps.counter);
      i := i + k;
      ghost var aps := p[18..i];
      assert p[..i] == headers + aps;
      ghost var tail := [];
      if rx.aps.ext {
        PutByte(p, i, rx.aps.frag % 4);
        i := i + 1;
        PutByte(p, i, rx.aps.block);
        i := i + 1;
        PutByte(p, i, 0x01);
        i := i + 1;
        tail := [rx.aps.frag % 4, rx.aps.block, 0x01];
      }
      assert p[..i] == headers + aps + tail;
      assert p[1..i] == headers[1..] + aps + tail;
      AckLayout(cfg, old(macSeq), old(nwkSeq), rx);
      f.Finish(i, true);
      return true;
    }
  }

  // ------------------------------------------------------------------------------------------------------------------
  // Round trips
  // ------------------------------------------------------------------------------------------------------------------

  /** A receive buffer whose first `len` bytes are the frame `f`. */
  predicate Received(f: Frame, a: seq<u8>, len: nat) {
    Good(f) && len == |Bytes(f)| < |a| && a[..len] == Bytes(f)
  }

  lemma UnicastFields(cfg: NetworkConfig, macSeq: u8, nwkSeq: u8, counter: u8, dst: u16, cluster: u16, asdu: seq<u8>,
                      apsAck: bool)
    ensures Fields(UnicastFrame(cfg, macSeq, nwkSeq, counter, dst, cluster, asdu, apsAck)) == RxFrame(
              MacInfo(true, 1, macSeq, cfg.macAck, cfg.panId, dst, ADDR_COORDINATOR),
              NwkInfo(true, 0, cfg.protocolVersion % 0x10, false, dst, ADDR_COORDINATOR, cfg.radius, 0),
              ApsInfo(true, 0, 0, apsAck, false, APS_ENDPOINT, APS_ENDPOINT, cluster, APS_PROFILE_ID, counter, false,
                      0, 0, Some(asdu)))
  {
  }

  /** A unicast is read back with its addresses, cluster, profile, endpoints, counters and payload. */
  lemma UnicastRoundTrip(cfg: NetworkConfig, macSeq: u8, nwkSeq: u8, counter: u8, dst: u16, cluster: u16,
                         asdu: seq<u8>, apsAck: bool, a: seq<u8>, len: nat)
    requires Received(UnicastFrame(cfg, macSeq, nwkSeq, counter, dst, cluster, asdu, apsAck), a, len)
    ensures Parse(a, len) == (true, RxFrame(
              MacInfo(true, 1, macSeq, cfg.macAck, cfg.panId, dst, ADDR_COORDINATOR),
              NwkInfo(true, 0, cfg.protocolVersion % 0x10, false, dst, ADDR_COORDINATOR, cfg.radius, 0),
              ApsInfo(true, 0, 0, apsAck, false, APS_ENDPOINT, APS_ENDPOINT, cluster, APS_PROFILE_ID, counter, false,
                      0, 0, Some(asdu))))
  {
    UnicastFields(cfg, macSeq, nwkSeq, counter, dst, cluster, asdu, apsAck);
    ParseDecodes(UnicastFrame(cfg, macSeq, nwkSeq, counter, dst, cluster, asdu, apsAck), a, len);
  }

  lemma BroadcastFields(cfg: NetworkConfig, macSeq: u8, nwkSeq: u8, counter: u8, macPan: u16, cluster: u16,
                        asdu: seq<u8>)
    ensures Fields(BroadcastFrame(cfg, macSeq, nwkSeq, counter, macPan, cluster, asdu)) == RxFrame(
              MacInfo(true, 1, macSeq, false, macPan, ADDR_BROADCAST, ADDR_COORDINATOR),
              NwkInfo(true, 0, cfg.protocolVersion % 0x10, false, ADDR_BROADCAST, ADDR_COORDINATOR, cfg.radius, 0),
              ApsInfo(true, 0, 2, false, false, APS_ENDPOINT, APS_ENDPOINT, cluster, APS_PROFILE_ID, counter, false,
                      0, 0, Some(asdu)))
  {
  }

  /** A broadcast is read back with the PAN it was meant for, cluster, counters and payload. */
  lemma BroadcastRoundTrip(cfg: NetworkConfig, macSeq: u8, nwkSeq: u8, counter: u8, macPan: u16, cluster: u16,
                           asdu: seq<u8>, a: seq<u8>, len: nat)
    requires Received(BroadcastFrame(cfg, macSeq, nwkSeq, counter, macPan, cluster, asdu), a, len)
    ensures Parse(a, len) == (true, RxFrame(
              MacInfo(true, 1, macSeq, false, macPan, ADDR_BROADCAST, ADDR_COORDINATOR),
              NwkInfo(true, 0, cfg.protocolVersion % 0x10, false, ADDR_BROADCAST, ADDR_COORDINATOR, cfg.radius, 0),
              ApsInfo(true, 0, 2, false, false, APS_ENDPOINT, APS_ENDPOINT, cluster, APS_PROFILE_ID, counter, false,
                      0, 0, Some(asdu))))
  {
    BroadcastFields(cfg, macSeq, nwkSeq, counter, macPan, cluster, asdu);
    ParseDecodes(BroadcastFrame(cfg, macSeq, nwkSeq, counter, macPan, cluster, asdu), a, len);
  }

  lemma CommandFields(cfg: NetworkConfig, macSeq: u8, nwkSeq: u8, neighbours: seq<u16>, id: u8)
    requires |neighbours| <= 20
    ensures Fields(LinkStatusFrame(cfg, macSeq, nwkSeq, neighbours)) == RxFrame(
              MacInfo(true, 1, macSeq, false, cfg.panId, ADDR_BROADCAST, ADDR_COORDINATOR),
              NwkInfo(true, 1, cfg.protocolVersion % 0x10, false, ADDR_ALL_ROUTERS, ADDR_COORDINATOR, 1, 0x08),
              NO_APS)
    ensures Fields(RouteRequestFrame(cfg, macSeq, nwkSeq, id)) == RxFrame(
              MacInfo(true, 1, macSeq, false, cfg.panId, ADDR_BROADCAST, ADDR_COORDINATOR),
              NwkInfo(true, 1, cfg.protocolVersion % 0x10, false, ADDR_ALL_ROUTERS, ADDR_COORDINATOR, 30, 0x01),
              NO_APS)
  {
  }

  /** A link status is read as NWK command 0x08 to all routers, with radius 1. */
  lemma LinkStatusRoundTrip(cfg: NetworkConfig, macSeq: u8, nwkSeq: u8, neighbours: seq<u16>, a: seq<u8>, len: nat)
    requires |neighbours| <= 20 && Received(LinkStatusFrame(cfg, macSeq, nwkSeq, neighbours), a, len)
    ensures Parse(a, len) == (true, RxFrame(
              MacInfo(true, 1, macSeq, false, cfg.panId, ADDR_BROADCAST, ADDR_COORDINATOR),
              NwkInfo(true, 1, cfg.protocolVersion % 0x10, false, ADDR_ALL_ROUTERS, ADDR_COORDINATOR, 1, 0x08),
              NO_APS))
  {
    CommandFields(cfg, macSeq, nwkSeq, neighbours, 0);
    ParseDecodes(LinkStatusFrame(cfg, macSeq, nwkSeq, neighbours), a, len);
  }

  /** A route request is read as NWK command 0x01 to all routers, with radius 30. */
  lemma RouteRequestRoundTrip(cfg: NetworkConfig, macSeq: u8, nwkSeq: u8, id: u8, a: seq<u8>, len: nat)
    requires Received(RouteRequestFrame(cfg, macSeq, nwkSeq, id), a, len)
    ensures Parse(a, len) == (true, RxFrame(
              MacInfo(true, 1, macSeq, false, cfg.panId, ADDR_BROADCAST, ADDR_COORDINATOR),
              NwkInfo(true, 1, cfg.protocolVersion % 0x10, false, ADDR_ALL_ROUTERS, ADDR_COORDINATOR, 30, 0x01),
              NO_APS))
  {
    CommandFields(cfg, macSeq, nwkSeq, [], id);
    ParseDecodes(RouteRequestFrame(cfg, macSeq, nwkSeq, id), a, len);
  }

  /** The frames handle_rx_ passes on to reassembly, as opposed to those it ignores. */
  predicate Accepted(o: RxFrame) {
    && o.mac.ok && o.mac.kind == 1 && o.nwk.ok && !o.nwk.secured && o.nwk.kind != 1
    && o.aps.ok && o.aps.kind == 0 && o.aps.payload.Some?
    && o.nwk.src != ADDR_COORDINATOR && (o.nwk.dst == ADDR_COORDINATOR || o.nwk.dst >= 0xFFF8)
  }

  /** The frames handle_rx_ answers with an acknowledgement. */
  predicate Acknowledged(o: RxFrame) {
    Accepted(o) && o.aps.ackRequest && o.aps.delivery == 0 && o.nwk.dst == ADDR_COORDINATOR
  }

  lemma AckFields(cfg: NetworkConfig, macSeq: u8, nwkSeq: u8, rx: RxFrame)
    ensures Fields(AckFrame(cfg, macSeq, nwkSeq, rx)) == RxFrame(
              MacInfo(true, 1, macSeq, true, cfg.panId, rx.mac.src, ADDR_COORDINATOR),
              NwkInfo(true, 0, cfg.protocolVersion % 0x10, false, rx.nwk.src, ADDR_COORDINATOR, cfg.radius, 0),
              ApsInfo(true, 2, 0, false, false, rx.aps.srcEp, rx.aps.dstEp, rx.aps.cluster, rx.aps.profile,
                      rx.aps.counter, rx.aps.ext, 0, 0, None))
  {
  }

  /** An acknowledgement decodes to the fields of the frame it answers, endpoints swapped, without a payload; so no
      receiver of this code acknowledges it or hands it on, whatever frame it answers. */
  lemma AckRoundTrip(cfg: NetworkConfig, macSeq: u8, nwkSeq: u8, rx: RxFrame, a: seq<u8>, len: nat)
    requires Received(AckFrame(cfg, macSeq, nwkSeq, rx), a, len)
    ensures Parse(a, len) == (true, RxFrame(
              MacInfo(true, 1, macSeq, true, cfg.panId, rx.mac.src, ADDR_COORDINATOR),
              NwkInfo(true, 0, cfg.protocolVersion % 0x10, false, rx.nwk.src, ADDR_COORDINATOR, cfg.radius, 0),
              ApsInfo(true, 2, 0, false, false, rx.aps.srcEp, rx.aps.dstEp, rx.aps.cluster, rx.aps.profile,
                      rx.aps.counter, rx.aps.ext, 0, 0, None)))
    ensures !Accepted(Parse(a, len).1) && !Acknowledged(Parse(a, len).1)
  {
    AckFields(cfg, macSeq, nwkSeq, rx);
    ParseDecodes(AckFrame(cfg, macSeq, nwkSeq, rx), a, len);
  }

  // ------------------------------------------------------------------------------------------------------------------
  // The frames byte by byte
  // ------------------------------------------------------------------------------------------------------------------

  function Lo(w: u16): u8 {
    w % 0x100
  }

  function Hi(w: u16): u8 {
    w / 0x100
  }

  /** Sequence numbers count up to 255 and begin again. */
  lemma NextCounts(n: u8)
    ensures Next(n) == if n == 255 then 0 else n + 1
  {
  }

  lemma WordLayout(w: u16)
    ensures Put16(w) == [Lo(w), Hi(w)]
  {
  }

  lemma MacIs(ack: bool, seqNo: u8, pan: u16, dst: u16)
    ensures MacBytes(MacOf(ack, seqNo, pan, dst)) ==
            [if ack then 0x61 else 0x41, 0x88, seqNo, Lo(pan), Hi(pan), Lo(dst), Hi(dst), 0, 0]
  {
    MacLayout(MacOf(ack, seqNo, pan, dst));
  }

  lemma NwkIs(cfg: NetworkConfig, kind: u8, discover: bool, dst: u16, radius: u8, seqNo: u8)
    ensures NwkBytes(NwkOf(cfg, kind, discover, dst, radius, seqNo)) ==
            [kind % 4 + cfg.protocolVersion % 16 * 4 + (if discover then 0x40 else 0), 0, Lo(dst), Hi(dst), 0, 0,
             radius, seqNo]
  {
    NwkLayout(NwkOf(cfg, kind, discover, dst, radius, seqNo));
  }

  /** Every byte of a unicast. */
  lemma UnicastIs(cfg: NetworkConfig, macSeq: u8, nwkSeq: u8, counter: u8, dst: u16, cluster: u16, asdu: seq<u8>,
                  apsAck: bool)
    ensures Bytes(UnicastFrame(cfg, macSeq, nwkSeq, counter, dst, cluster, asdu, apsAck)) ==
            [if cfg.macAck then 0x61 else 0x41, 0x88, macSeq, Lo(cfg.panId), Hi(cfg.panId), Lo(dst), Hi(dst), 0, 0,
             cfg.protocolVersion % 16 * 4 + (if cfg.discoverRoute then 0x40 else 0), 0, Lo(dst), Hi(dst), 0, 0,
             cfg.radius, nwkSeq,
             if apsAck then 0x40 else 0x00, 0x14, Lo(cluster), Hi(cluster), 0x05, 0x0F, 0x14, counter] + asdu
  {
    hide MacBytes, NwkBytes, MacOf, NwkOf, Bytes, Good;
    UnicastLayout(cfg, macSeq, nwkSeq, counter, dst, cluster, asdu, apsAck);
    MacIs(cfg.macAck, macSeq, cfg.panId, dst);
    NwkIs(cfg, 0, cfg.discoverRoute, dst, cfg.radius, nwkSeq);
  }

  /** Every byte of a broadcast. */
  lemma BroadcastIs(cfg: NetworkConfig, macSeq: u8, nwkSeq: u8, counter: u8, macPan: u16, cluster: u16, asdu: seq<u8>)
    ensures Bytes(BroadcastFrame(cfg, macSeq, nwkSeq, counter, macPan, cluster, asdu)) ==
            [0x41, 0x88, macSeq, Lo(macPan), Hi(macPan), 0xFF, 0xFF, 0, 0,
             cfg.protocolVersion % 16 * 4, 0, 0xFF, 0xFF, 0, 0, cfg.radius, nwkSeq,
             0x08, 0x14, Lo(cluster), Hi(cluster), 0x05, 0x0F, 0x14, counter] + asdu
  {
    hide MacBytes, NwkBytes, MacOf, NwkOf, Bytes, Good;
    BroadcastLayout(cfg, macSeq, nwkSeq, counter, macPan, cluster, asdu);
    MacIs(false, macSeq, macPan, ADDR_BROADCAST);
    NwkIs(cfg, 0, false, ADDR_BROADCAST, cfg.radius, nwkSeq);
  }

  /** Every byte of an acknowledgement. */
  lemma AckIs(cfg: NetworkConfig, macSeq: u8, nwkSeq: u8, rx: RxFrame)
    ensures Bytes(AckFrame(cfg, macSeq, nwkSeq, rx)) ==
            [0x61, 0x88, macSeq, Lo(cfg.panId), Hi(cfg.panId), Lo(rx.mac.src), Hi(rx.mac.src), 0, 0,
             cfg.protocolVersion % 16 * 4, 0, Lo(rx.nwk.src), Hi(rx.nwk.src), 0, 0, cfg.radius, nwkSeq,
             if rx.aps.ext then 0x82 else 0x02, rx.aps.srcEp, Lo(rx.aps.cluster), Hi(rx.aps.cluster),
             Lo(rx.aps.profile), Hi(rx.aps.profile), rx.aps.dstEp, rx.aps.counter]
            + (if rx.aps.ext then [rx.aps.frag % 4, rx.aps.block, 0x01] else [])
  {
    hide MacBytes, NwkBytes, MacOf, NwkOf, Bytes, Good;
    AckLayout(cfg, macSeq, nwkSeq, rx);
    MacIs(true, macSeq, cfg.panId, rx.mac.src);
    NwkIs(cfg, 0, false, rx.nwk.src, cfg.radius, nwkSeq);
  }

  lemma {:induction false} LinkEntryIs(neighbours: seq<u16>, k: nat)
    requires k < |neighbours|
    ensures LinkEntries(neighbours)[3 * k..3 * k + 3] == [Lo(neighbours[k]), Hi(neighbours[k]), 0x11]
  {
    var n := |neighbours| - 1;
    if k < n {
      LinkEntryIs(neighbours[..n], k);
      assert LinkEntries(neighbours)[..3 * n] == LinkEntries(neighbours[..n]);
      assert LinkEntries(neighbours)[3 * k..3 * k + 3] == LinkEntries(neighbours[..n])[3 * k..3 * k + 3];
    }
  }

  /** Every byte of a link status: behind the header the command, the number of entries, both flags set, and three bytes
      for each neighbour, with both costs 1. */
  lemma LinkStatusIs(cfg: NetworkConfig, macSeq: u8, nwkSeq: u8, neighbours: seq<u16>, k: nat)
    requires |neighbours| <= 20
    ensures var b := Bytes(LinkStatusFrame(cfg, macSeq, nwkSeq, neighbours));
            && |b| == 19 + 3 * |neighbours|
            && b[..19] == [0x41, 0x88, macSeq, Lo(cfg.panId), Hi(cfg.panId), 0xFF, 0xFF, 0, 0,
                           1 + cfg.protocolVersion % 16 * 4, 0, 0xFC, 0xFF, 0, 0, 1, nwkSeq, 0x08, 0x60 + |neighbours|]
            && (k < |neighbours| ==>
                  b[19 + 3 * k..19 + 3 * k + 3] == [Lo(neighbours[k]), Hi(neighbours[k]), 0x11])
  {
    hide MacBytes, NwkBytes, MacOf, NwkOf, Good, LinkEntries;
    MacIs(false, macSeq, cfg.panId, ADDR_BROADCAST);
    NwkIs(cfg, 1, false, ADDR_ALL_ROUTERS, 1, nwkSeq);
    if k < |neighbours| {
      LinkEntryIs(neighbours, k);
    }
    var b := Bytes(LinkStatusFrame(cfg, macSeq, nwkSeq, neighbours));
    assert b[19..] == LinkEntries(neighbours);
    assert k < |neighbours| ==> b[19 + 3 * k..19 + 3 * k + 3] == b[19..][3 * k..3 * k + 3];
  }

  /** Every byte of a many-to-one route request. */
  lemma RouteRequestIs(cfg: NetworkConfig, macSeq: u8, nwkSeq: u8, id: u8)
    ensures Bytes(RouteRequestFrame(cfg, macSeq, nwkSeq, id)) ==
            [0x41, 0x88, macSeq, Lo(cfg.panId), Hi(cfg.panId), 0xFF, 0xFF, 0, 0,
             1 + cfg.protocolVersion % 16 * 4, 0, 0xFC, 0xFF, 0, 0, 30, nwkSeq, 0x01, 0x08, id, 0xFC, 0xFF, 0x00]
  {
    hide MacBytes, NwkBytes, MacOf, NwkOf, Good;
    MacIs(false, macSeq, cfg.panId, ADDR_BROADCAST);
    NwkIs(cfg, 1, false, ADDR_ALL_ROUTERS, 30, nwkSeq);
  }
}
