/** `handle_rx_`: from the bytes of a received frame to an acknowledgement and a complete APS payload, over the parser,
    the frame factory and the reassembly. */
module ReceivePath {
  import opened Words
  import opened ApsFrames
  import opened FrameTheorems
  import opened Factory
  import opened Reassembly
  import opened ReassemblyTheorems

  /** A frame as the radio hands it over; the buffer is longer than the frame. */
  datatype Raw = Raw(bytes: seq<u8>, len: nat, now: u32)

  predicate GoodRaw(r: Raw) {
    r.len < |r.bytes|
  }

  predicate Heard(r: Raw)
    requires GoodRaw(r)
  {
    Parse(r.bytes, r.len).0 && Accepted(Parse(r.bytes, r.len).1)
  }

  function EventOf(r: Raw): Event
    requires GoodRaw(r)
  {
    Event(Parse(r.bytes, r.len).1, r.now)
  }

  /** One call: the state of the reassembly and what is passed on. */
  function Receive(s: State, r: Raw): (result: (State, Option<seq<u8>>))
    requires Bounded(s) && GoodRaw(r)
    ensures Bounded(result.0)
  {
    if Heard(r) then Step(s, EventOf(r)) else (s, None)
  }

  class Receiver {
    const factory: FrameFactory
    const reassembler: Reassembler

    ghost predicate Valid()
      reads this, reassembler, reassembler.buf
    {
      reassembler.Valid()
    }

    constructor (cfg: NetworkConfig)
      ensures Valid() && fresh(factory) && fresh(reassembler) && fresh(reassembler.buf) && factory.cfg == cfg
    {
      factory := new FrameFactory(cfg);
      reassembler := new Reassembler();
    }

    /** `ack` is the frame an acknowledgement is built in. */
    method HandleRx(p: array<u8>, len: nat, now: u32, ack: TxFrame) returns (acked: bool, asdu: Option<seq<u8>>)
      requires Valid() && len < p.Length && ack.Valid()
      requires p != ack.buf && p != reassembler.buf && ack.buf != reassembler.buf
      modifies factory, ack, ack.buf, reassembler, reassembler.buf
      ensures Valid() && p[..] == old(p[..])
      ensures (reassembler.View(), asdu) == Receive(old(reassembler.View()), Raw(p[..], len, now))
      ensures acked <==> Parse(p[..], len).0 && Acknowledged(Parse(p[..], len).1)
      ensures acked ==> ack.ackRequest && ack.Holds(AckFrame(factory.cfg, old(factory.macSeq), old(factory.nwkSeq),
                                                             Parse(p[..], len).1))
    {
      hide Parse, Step, AckFrame;
      var ok, f := ParseFrame(p, len);
      if !ok {
        return false, None;
      }
      if !f.mac.ok || f.mac.kind != 1 {
        return false, None;
      }
      if f.nwk.ok && f.nwk.secured {
        return false, None;
      }
      if !f.nwk.ok {
        return false, None;
      }
      if f.nwk.kind == 1 {
        return false, None;
      }
      if !f.aps.ok || f.aps.kind != 0 || f.aps.payload.None? {
        return false, None;
      }
      if f.nwk.src == ADDR_COORDINATOR {
        return false, None;
      }
      if f.nwk.dst != ADDR_COORDINATOR && f.nwk.dst < 0xFFF8 {
        return false, None;
      }
      acked := false;
      if f.aps.ackRequest && f.aps.delivery == 0 && f.nwk.dst == ADDR_COORDINATOR {
        acked := factory.BuildApsAck(ack, f);
      }
      asdu := reassembler.Feed(f, now);
    }
  }

  // ------------------------------------------------------------------------------------------------------------------
  // Whole runs, from the bytes on
  // ------------------------------------------------------------------------------------------------------------------

  function ReceiveAll(s: State, raws: seq<Raw>): (r: State)
    requires Bounded(s) && forall k | 0 <= k < |raws| :: GoodRaw(raws[k])
    ensures Bounded(r)
  {
    if raws == [] then s else Receive(ReceiveAll(s, raws[..|raws| - 1]), raws[|raws| - 1]).0
  }

  /** What of the frames in the air reaches the reassembly. */
  function Events(raws: seq<Raw>): seq<Event>
    requires forall k | 0 <= k < |raws| :: GoodRaw(raws[k])
  {
    if raws == [] then []
    else
      var last := raws[|raws| - 1];
      Events(raws[..|raws| - 1]) + if Heard(last) then [EventOf(last)] else []
  }

  lemma {:induction false} ReceivedIsAfter(s: State, raws: seq<Raw>)
    requires Bounded(s) && forall k | 0 <= k < |raws| :: GoodRaw(raws[k])
    ensures ReceiveAll(s, raws) == After(s, Events(raws))
  {
    hide Step, Heard;
    if raws != [] {
      var before, last := raws[..|raws| - 1], raws[|raws| - 1];
      ReceivedIsAfter(s, before);
      if Heard(last) {
        var events := Events(before) + [EventOf(last)];
        assert events[..|events| - 1] == Events(before);
      } else {
        assert Events(raws) == Events(before);
      }
    }
  }

  /** End to end: from any state, if what is accepted of the frames in the air is the traffic of a message, then the
      call with the last missing block passes on the whole message, and no other call with a fragment passes on
      anything. Frames that are not accepted (acknowledgements, commands, frames for others, frames that do not
      parse) do no harm, nor do unfragmented messages and refused first fragments; what other fragments do is said
      below. */
  lemma MessageComesThrough(s: State, raws: seq<Raw>, r: Raw, m: Message)
    requires Bounded(s) && GoodMessage(m) && GoodRaw(r) && forall k | 0 <= k < |raws| :: GoodRaw(raws[k])
    requires Heard(r) && !Ignored(EventOf(r).rx) && Traffic(Events(raws) + [EventOf(r)], m)
    ensures Receive(ReceiveAll(s, raws), r).1
         == if !Complete(Events(raws), m) && Complete(Events(raws) + [EventOf(r)], m) then Some(Join(m.blocks))
            else None
  {
    hide Step, Heard, Complete, Traffic, Join;
    var events := Events(raws) + [EventOf(r)];
    var n := |Events(raws)|;
    ReceivedIsAfter(s, raws);
    ReportedWhenComplete(s, events, m, n);
    assert events[..n] == Events(raws) && events[..n + 1] == events;
  }

  /** Any other accepted fragment of another node or cluster, and any continuation that does not fit, ends the
      collection: no fragment of the message passes on anything any more until its sender has begun again. */
  lemma MessageDestroyed(s: State, raws: seq<Raw>, r: Raw, later: seq<Raw>, last: Raw, m: Message)
    requires Bounded(s) && GoodMessage(m) && (forall k | 0 <= k < |raws| :: GoodRaw(raws[k])) && GoodRaw(r)
    requires (forall k | 0 <= k < |later| :: GoodRaw(later[k])) && GoodRaw(last)
    requires Traffic(Events(raws), m) && !Complete(Events(raws), m)
    requires Heard(r) && Destroys(EventOf(r), m, StartOf(Events(raws), m))
    requires Heard(last) && !Ignored(EventOf(last).rx) && !Foreign(EventOf(last).rx, m)
    requires NotBegun(Events(later) + [EventOf(last)], m)
    ensures Receive(ReceiveAll(Receive(ReceiveAll(s, raws), r).0, later), last).1 == None
  {
    hide Step, Heard, Complete, Traffic, Destroys, Foreign;
    ReceivedIsAfter(s, raws);
    InterferenceMeans(s, Events(raws), EventOf(r), m);
    var t := After(s, Events(raws) + [EventOf(r)]);
    assert (Events(raws) + [EventOf(r)])[..|Events(raws)|] == Events(raws);
    ReceivedIsAfter(t, later);
    var events := Events(later) + [EventOf(last)];
    assert events[..|Events(later)|] == Events(later);
    LostUntilBegunAgain(t, events, |Events(later)|, m);
  }

  /** Which frames of the grammar are taken up: APS data that is not the own one and goes to the coordinator or to all.
      The unicasts among them that ask for it are acknowledged. */
  lemma AcceptedIs(f: Frame)
    requires Good(f)
    ensures Accepted(Fields(f)) <==>
              f.ApsData? && f.nwk.src != 0x0000 && (f.nwk.dst == 0x0000 || f.nwk.dst >= 0xFFF8)
    ensures Acknowledged(Fields(f)) <==>
              f.ApsData? && f.nwk.src != 0x0000 && f.nwk.dst == 0x0000 &&
              f.aps.fc / 0x40 % 2 == 1 && f.aps.fc / 4 % 4 == 0
  {
  }

  /** End to end for a message in one piece: its payload is passed on at once, and a collection goes on undisturbed. */
  lemma SinglePieceComesThrough(s: State, r: Raw, f: Frame)
    requires Bounded(s) && GoodRaw(r) && Good(f) && f.ApsData? && Received(f, r.bytes, r.len)
    requires f.nwk.src != 0x0000 && (f.nwk.dst == 0x0000 || f.nwk.dst >= 0xFFF8)
    requires f.aps.fc < 0x80 || f.aps.extFc % 4 == 0
    ensures Receive(s, r) == (s, Some(f.payload))
  {
    hide Parse, Accepted, Bytes;
    ParseDecodes(f, r.bytes, r.len);
    AcceptedIs(f);
  }

  /** An acknowledgement this code sends is not taken up by a receiver of the same kind: it changes nothing there. */
  lemma AckIsHarmless(s: State, cfg: NetworkConfig, macSeq: u8, nwkSeq: u8, rx: RxFrame, r: Raw)
    requires Bounded(s) && GoodRaw(r) && Received(AckFrame(cfg, macSeq, nwkSeq, rx), r.bytes, r.len)
    ensures Receive(s, r) == (s, None)
  {
    hide Parse, Step, AckFrame, Accepted;
    AckRoundTrip(cfg, macSeq, nwkSeq, rx, r.bytes, r.len);
  }
}
