/** What `parse_frame` guarantees: it decodes every frame of the grammar, and it reads nothing but the received bytes,
    save for one frame shape. */
module FrameTheorems {
  import opened Words
  import opened ApsFrames

  lemma MacDecodes(m: MacHeader, a: seq<u8>, len: nat)
    requires GoodMac(m) && 5 <= len < |a|
    requires |MacBytes(m)| <= len && MacBytes(m) == a[..|MacBytes(m)|]
    ensures ParseMac(a, len) == (true, MacFields(m), |MacBytes(m)|) && Get16(a, 0) == m.fcf
  {
    var h := MacBytes(m);
    assert forall k | 0 <= k < |h| :: a[k] == h[k];
    assert Get16(a, 0) == m.fcf;
    assert a[2] == m.seqNo;
    var i := 3 + |AddrBytes(m.dst)| + (if m.dst.Absent? then 0 else 2);
    if !m.dst.Absent? {
      assert h[3] == Put16(m.dstPan)[0] && h[4] == Put16(m.dstPan)[1];
      if m.dst.Short? {
        assert h[5] == Put16(m.dst.addr)[0] && h[6] == Put16(m.dst.addr)[1];
      }
    }
    if !m.src.Absent? {
      var p := if Flag(m.fcf, 0x40) then 0 else 2;
      if p == 2 {
        assert h[i] == Put16(m.srcPan)[0] && h[i + 1] == Put16(m.srcPan)[1];
      }
      if m.src.Short? {
        assert h[i + p] == Put16(m.src.addr)[0] && h[i + p + 1] == Put16(m.src.addr)[1];
      }
    }
  }

  lemma NwkDecodes(n: NwkHeader, a: seq<u8>, len: nat, i: nat)
    requires GoodNwk(n)
    requires i + |NwkBytes(n)| <= len < |a| && NwkBytes(n) == a[i..i + |NwkBytes(n)|]
    ensures var end := i + |NwkBytes(n)|;
            ParseNwk(a, len, i) ==
              if Flag(n.fc, 0x200) then (NwkFields(n, 0), None)
              else if n.fc % 4 == 1 then (NwkFields(n, if end < len then a[end] else 0), None)
              else (NwkFields(n, 0), if n.fc % 4 != 0 || end >= len then None else Some(end))
  {
    var h := NwkBytes(n);
    assert forall k | 0 <= k < |h| :: a[i + k] == h[k];
    assert a[i] == h[0] && a[i + 1] == h[1] && a[i + 2] == h[2] && a[i + 3] == h[3];
    assert a[i + 4] == h[4] && a[i + 5] == h[5] && a[i + 6] == h[6];
    assert Get16(a, i) == n.fc && Get16(a, i + 2) == n.dst && Get16(a, i + 4) == n.src && a[i + 6] == n.radius;
    if Flag(n.fc, 0x400) {
      var j := 8 + |n.multicast| + |n.dstIeee| + |n.srcIeee|;
      assert h[j] == |n.relays| / 2;
      assert a[i + j] == h[j];
    }
  }

  lemma ApsDecodes(x: ApsHeader, a: seq<u8>, len: nat, i: nat)
    requires x.fc % 4 == 0 || (x.fc % 4 == 2 && !Flag(x.fc, 0x10))
    requires !Flag(x.fc, 0x20)
    requires i + |ApsBytes(x)| <= len < |a| && ApsBytes(x) == a[i..i + |ApsBytes(x)|]
    ensures var end := i + |ApsBytes(x)|;
            ParseAps(a, len, i) == (ApsFields(x, if x.fc % 4 == 0 then Some(a[end..len]) else None), end)
  {
    var h := ApsBytes(x);
    assert forall k | 0 <= k < |h| :: a[i + k] == h[k];
    var g := if Delivery(x.fc) == 3 then 3 else 2;
    assert a[i] == h[0] == x.fc;
    if g == 2 {
      assert a[i + 1] == h[1] == x.dstEp;
    }
    assert a[i + g] == h[g] == Put16(x.cluster)[0] && a[i + g + 1] == h[g + 1] == Put16(x.cluster)[1];
    assert a[i + g + 2] == h[g + 2] == Put16(x.profile)[0] && a[i + g + 3] == h[g + 3] == Put16(x.profile)[1];
    assert a[i + g + 4] == h[g + 4] == x.srcEp && a[i + g + 5] == h[g + 5] == x.counter;
    if Flag(x.fc, 0x80) && x.fc % 4 == 0 {
      assert a[i + g + 6] == h[g + 6] == x.extFc;
      if x.extFc % 4 != 0 {
        assert a[i + g + 7] == h[g + 7] == x.block;
      }
    }
  }

  /** The parts of a concatenation, found again at their places. */
  lemma Parts(x: seq<u8>, y: seq<u8>, z: seq<u8>, a: seq<u8>, len: nat)
    requires len <= |a| && a[..len] == x + y + z
    ensures len == |x| + |y| + |z|
    ensures x == a[..|x|] && y == a[|x|..|x| + |y|] && z == a[|x| + |y|..len]
  {
    var s := x + y + z;
    assert len == |s|;
    assert a[..|x|] == s[..|x|] == x;
    assert a[|x|..|x| + |y|] == s[|x|..|x| + |y|] == y;
    assert a[|x| + |y|..len] == s[|x| + |y|..] == z;
  }

  /** Decoding: whatever frame of the grammar the received bytes carry, the parser reports its fields and payload. */
  lemma ParseDecodes(f: Frame, a: seq<u8>, len: nat)
    requires Good(f) && len == |Bytes(f)| < |a| && Bytes(f) == a[..len]
    ensures Parse(a, len) == (true, Fields(f))
  {
    var h := MacBytes(f.mac);
    match f
    case MacOnly(m, rest) =>
      Parts(h, [], rest, a, len);
      MacDecodes(m, a, len);
    case NwkSecured(m, n, rest) =>
      HeadersDecode(m, n, rest, a, len);
    case NwkCommand(m, n, body) =>
      HeadersDecode(m, n, body, a, len);
      if body != [] {
        assert a[|h| + |NwkBytes(n)|..len][0] == body[0];
      }
    case ApsData(m, n, x, payload) =>
      ApsFrameDecodes(m, n, x, payload, a, len);
    case ApsAck(m, n, x, rest) =>
      ApsFrameDecodes(m, n, x, rest, a, len);
  }

  lemma HeaderSizes(m: MacHeader, n: NwkHeader)
    requires GoodMac(m) && GoodNwk(n)
    ensures |MacBytes(m)| >= 3 && |NwkBytes(n)| >= 8
  {
  }

  lemma HeadersDecode(m: MacHeader, n: NwkHeader, rest: seq<u8>, a: seq<u8>, len: nat)
    requires GoodMac(m) && GoodNwk(n) && CarriesNwk(m)
    requires len < |a| && a[..len] == MacBytes(m) + NwkBytes(n) + rest
    ensures var i := |MacBytes(m)|; var end := i + |NwkBytes(n)|;
            len == end + |rest| && len >= 11 && rest == a[end..len] &&
            ParseMac(a, len) == (true, MacFields(m), i) && Get16(a, 0) == m.fcf &&
            ParseNwk(a, len, i) ==
              if Flag(n.fc, 0x200) then (NwkFields(n, 0), None)
              else if n.fc % 4 == 1 then (NwkFields(n, if end < len then a[end] else 0), None)
              else (NwkFields(n, 0), if n.fc % 4 != 0 || end >= len then None else Some(end))
  {
    HeaderSizes(m, n);
    hide MacBytes, NwkBytes, ParseMac, ParseNwk, MacFields, NwkFields, Get16;
    Parts(MacBytes(m), NwkBytes(n), rest, a, len);
    MacDecodes(m, a, len);
    NwkDecodes(n, a, len, |MacBytes(m)|);
  }

  lemma ApsSize(x: ApsHeader)
    ensures |ApsBytes(x)| >= 8
  {
  }

  lemma ApsFrameDecodes(m: MacHeader, n: NwkHeader, x: ApsHeader, rest: seq<u8>, a: seq<u8>, len: nat)
    requires GoodMac(m) && GoodNwk(n) && CarriesAps(m, n)
    requires x.fc % 4 == 0 || (x.fc % 4 == 2 && !Flag(x.fc, 0x10))
    requires !Flag(x.fc, 0x20)
    requires len < |a| && a[..len] == MacBytes(m) + NwkBytes(n) + ApsBytes(x) + rest
    ensures Parse(a, len) == (true, RxFrame(MacFields(m), NwkFields(n, 0),
                                            ApsFields(x, if x.fc % 4 == 0 then Some(rest) else None)))
  {
    hide MacBytes, NwkBytes, ApsBytes, GoodMac, GoodNwk, ParseMac, ParseNwk, ParseAps, NwkFields, ApsFields;
    HeaderSizes(m, n);
    ApsSize(x);
    assert a[..len] == MacBytes(m) + NwkBytes(n) + (ApsBytes(x) + rest);
    HeadersDecode(m, n, ApsBytes(x) + rest, a, len);
    Parts(MacBytes(m) + NwkBytes(n), ApsBytes(x), rest, a, len);
    ApsDecodes(x, a, len, |MacBytes(m)| + |NwkBytes(n)|);
  }

  /** Where the APS header of a received frame starts, if the parser gets that far. */
  function ApsStart(a: seq<u8>, len: nat): Option<nat>
    requires len < |a|
  {
    if len < 5 then None else
    var (ok, mac, i) := ParseMac(a, len);
    if !ok || mac.kind != 1 || Flag(Get16(a, 0), 0x08) then None else ParseNwk(a, len, i).1
  }

  /** An APS acknowledgement to a group address that ends one byte before its APS counter. */
  predicate GroupAckCutShort(a: seq<u8>, len: nat)
    requires len < |a|
  {
    var i := ApsStart(a, len);
    i.Some? && i.value + 8 == len && i.value < len &&
    var fc := a[i.value];
    fc % 4 == 2 && Delivery(fc) == 3 && !Flag(fc, 0x10) && !Flag(fc, 0x20)
  }

  /** A MAC and a NWK data header, and an APS acknowledgement to group 1 that ends before its counter. */
  const GROUP_ACK: seq<u8> := [0x41, 0x88, 0x07, 0x34, 0x12, 0xFF, 0xFF, 0x01, 0x00] +
                              [0x08, 0x00, 0xFD, 0xFF, 0x01, 0x00, 0x1E, 0x09] +
                              [0x0E, 0x01, 0x00, 0x06, 0x00, 0x05, 0x0F, 0x14]

  /** Such a frame is taken for a complete one, and the counter reported is the byte that happens to follow it. */
  lemma CounterFromBehind(next: u8)
    ensures var a := GROUP_ACK + [next];
            GroupAckCutShort(a, |GROUP_ACK|) && Parse(a, |GROUP_ACK|).0 &&
            Parse(a, |GROUP_ACK|).1.aps.ok && Parse(a, |GROUP_ACK|).1.aps.counter == next
  {
    var a := GROUP_ACK + [next];
    assert ParseMac(a, 25).0 && ParseMac(a, 25).1.kind == 1 && ParseMac(a, 25).2 == 9;
    assert ParseNwk(a, 25, 9).1 == Some(17);
    assert a[17] == 14 && a[25] == next;
  }

  lemma MacReads(a: seq<u8>, b: seq<u8>, len: nat)
    requires 5 <= len < |a| && len < |b| && a[..len] == b[..len]
    ensures ParseMac(a, len) == ParseMac(b, len)
  {
    assert forall k | 0 <= k < len :: a[k] == a[..len][k] == b[k];
  }

  lemma NwkReads(a: seq<u8>, b: seq<u8>, len: nat, i: nat)
    requires i <= len < |a| && len < |b| && a[..len] == b[..len]
    ensures ParseNwk(a, len, i) == ParseNwk(b, len, i)
  {
    assert forall k | 0 <= k < len :: a[k] == a[..len][k] == b[k];
  }

  lemma ApsReads(a: seq<u8>, b: seq<u8>, len: nat, i: nat)
    requires i < len < |a| && len < |b| && a[..len] == b[..len]
    requires var fc := a[i]; !(i + 8 == len && fc % 4 == 2 && Delivery(fc) == 3 && !Flag(fc, 0x10) && !Flag(fc, 0x20))
    ensures ParseAps(a, len, i) == ParseAps(b, len, i)
  {
    assert forall k | 0 <= k < len :: a[k] == a[..len][k] == b[k];
    assert forall k | 0 <= k <= len :: a[k..len] == b[k..len];
  }

  /** The result of the parser depends on the byte after the received frame exactly for a group acknowledgement that is
      one byte short: its length check asks for one byte less than the fields take. */
  lemma ReadsOnlyReceivedBytes(a: seq<u8>, len: nat)
    requires len < |a|
    ensures GroupAckCutShort(a, len) <==>
            exists b: seq<u8> :: |b| == |a| && a[..len] == b[..len] && Parse(a, len) != Parse(b, len)
  {
    hide Parse, GroupAckCutShort;
    if GroupAckCutShort(a, len) {
      var b := a[len := (a[len] as int + 1) % 0x100];
      NextByteShows(a, b, len);
    }
    forall b: seq<u8> | |b| == |a| && a[..len] == b[..len] && !GroupAckCutShort(a, len)
      ensures Parse(a, len) == Parse(b, len)
    {
      ReadsTheSame(a, b, len);
    }
  }

  lemma NextByteShows(a: seq<u8>, b: seq<u8>, len: nat)
    requires len < |a| && GroupAckCutShort(a, len) && b == a[len := (a[len] as int + 1) % 0x100]
    ensures Parse(a, len) != Parse(b, len)
  {
    var i := ApsStart(a, len).value;
    MacReads(a, b, len);
    NwkReads(a, b, len, ParseMac(a, len).2);
    assert ParseAps(a, len, i).0.counter == a[len] && ParseAps(b, len, i).0.counter == b[len];
  }

  lemma ReadsTheSame(a: seq<u8>, b: seq<u8>, len: nat)
    requires len < |a| == |b| && a[..len] == b[..len] && !GroupAckCutShort(a, len)
    ensures Parse(a, len) == Parse(b, len)
  {
    hide ParseAps;
    if len >= 5 {
      MacReads(a, b, len);
      assert a[0] == a[..len][0] == b[0] && a[1] == a[..len][1] == b[1];
      var (ok, mac, i) := ParseMac(a, len);
      if ok && mac.kind == 1 && !Flag(Get16(a, 0), 0x08) {
        NwkReads(a, b, len, i);
        var start := ParseNwk(a, len, i).1;
        if start.Some? {
          ApsReads(a, b, len, start.value);
        }
      }
    }
  }

  /** A reported payload is the tail of the received frame, and belongs to an unsecured APS data frame. */
  lemma PayloadIsTail(a: seq<u8>, len: nat)
    requires len < |a| && Parse(a, len).1.aps.payload.Some?
    ensures var o := Parse(a, len).1;
            var n := |o.aps.payload.value|;
            n <= len && o.aps.payload.value == a[len - n..len] && n + 19 <= len &&
            o.aps.ok && o.aps.kind == 0 && !o.aps.secured && o.nwk.ok && o.nwk.kind == 0 && !o.nwk.secured &&
            o.mac.ok && o.mac.kind == 1
  {
    var start := ApsStart(a, len).value;
    var (info, end) := ParseAps(a, len, start);
    assert info.payload == Some(a[end..len]);
  }
}
