/** `Reassembler::feed`: puts the fragments of a big APS answer together again (ZigBee 05-3474, section 2.2.8.4.5). */
module Reassembly {
  import opened Words
  import opened ApsFrames

  const REASSEMBLY_MAX := 256
  const WINDOW_MS := 5000

  /** The fields of the class; `mask` has bit k set when block k has arrived. */
  datatype State = State(buf: seq<u8>, firstLen: nat, lastLen: nat, mask: bv8, total: u8, src: u16, cluster: u16,
                         started: u32)

  /** A frame handed to feed, and the clock at that moment. */
  datatype Event = Event(rx: RxFrame, now: u32)

  function MessageLen(s: State): int {
    (s.total - 1) * s.firstLen + s.lastLen
  }

  /** What every call keeps: a message whose last block is known fits the buffer. */
  predicate Bounded(s: State) {
    |s.buf| == REASSEMBLY_MAX && (s.total == 0 || 2 <= s.total <= 8) &&
    (s.total != 0 && s.lastLen != 0 ==> MessageLen(s) <= REASSEMBLY_MAX)
  }

  predicate Has(mask: bv8, k: nat)
    requires k < 8
  {
    (mask >> k) & 1 == 1
  }

  /** `mask | uint8_t(1u << k)`. */
  function WithBit(mask: bv8, k: nat): bv8
    requires k < 8
  {
    mask | ((1 as bv8) << k)
  }

  /** `uint8_t((1u << total) - 1u)`. */
  function Full(total: nat): bv8
    requires total <= 8
  {
    ((((1 as bv16) << total) - 1) & 0xFF) as bv8
  }

  predicate Ignored(rx: RxFrame) {
    rx.aps.payload.None? || rx.aps.frag == 0
  }

  predicate GoodFirst(rx: RxFrame) {
    rx.aps.payload.Some? && rx.aps.frag == 1 && 2 <= rx.aps.block <= 8 && 1 <= |rx.aps.payload.value| <= REASSEMBLY_MAX
  }

  function Overlay(buf: seq<u8>, offset: nat, data: seq<u8>): (r: seq<u8>)
    requires offset + |data| <= |buf|
    ensures |r| == |buf|
  {
    buf[..offset] + data + buf[offset + |data|..]
  }

  /** A continuation that belongs to the message being collected and fits the buffer. */
  predicate Fits(s: State, e: Event)
    requires !Ignored(e.rx)
  {
    s.total != 0 && e.rx.nwk.src == s.src && e.rx.aps.cluster == s.cluster && Sub32(e.now, s.started) <= WINDOW_MS &&
    0 < e.rx.aps.block < s.total && e.rx.aps.block * s.firstLen + |e.rx.aps.payload.value| <= REASSEMBLY_MAX
  }

  /** The state after the frame is stored, before completion is looked at; None when the frame is refused. */
  function Store(s: State, e: Event): (r: Option<State>)
    requires Bounded(s) && !Ignored(e.rx)
    ensures r.Some? ==> Bounded(r.value) && r.value.total != 0
  {
    var rx := e.rx;
    var data := rx.aps.payload.value;
    if rx.aps.frag == 1 then
      if !GoodFirst(rx) then None
      else Some(State(Overlay(s.buf, 0, data), |data|, 0, 0x01, rx.aps.block, rx.nwk.src, rx.aps.cluster, e.now))
    else if !Fits(s, e) then None
    else
      Some(s.(buf := Overlay(s.buf, rx.aps.block * s.firstLen, data), mask := WithBit(s.mask, rx.aps.block),
              lastLen := if rx.aps.block == s.total - 1 then |data| else s.lastLen))
  }

  predicate Finished(s: State)
    requires Bounded(s)
  {
    s.mask == Full(s.total) && s.lastLen != 0
  }

  /** One call of feed: the new state and the message reported, if any. */
  function Step(s: State, e: Event): (r: (State, Option<seq<u8>>))
    requires Bounded(s)
    ensures Bounded(r.0)
  {
    hide Store, Full;
    if Ignored(e.rx) then (s, e.rx.aps.payload) else
    var stored := Store(s, e);
    if stored.None? then (if e.rx.aps.frag == 1 then s else s.(mask := 0, total := 0), None)
    else if Finished(stored.value) then
      (stored.value.(mask := 0, total := 0), Some(stored.value.buf[..MessageLen(stored.value)]))
    else (stored.value, None)
  }

  class Reassembler {
    const buf: array<u8>
    var firstLen: nat
    var lastLen: nat
    var mask: bv8
    var total: u8
    var src: u16
    var cluster: u16
    var started: u32

    ghost function View(): State
      reads this, buf
    {
      State(buf[..], firstLen, lastLen, mask, total, src, cluster, started)
    }

    ghost predicate Valid()
      reads this, buf
    {
      Bounded(View())
    }

    constructor ()
      ensures Valid() && fresh(buf) && total == 0
    {
      buf := new u8[REASSEMBLY_MAX](_ => 0);
      firstLen, lastLen, mask, total, src, cluster, started := 0, 0, 0, 0, 0, 0, 0;
    }

    method Reset()
      modifies this`mask, this`total
      ensures mask == 0 && total == 0
    {
      mask := 0;
      total := 0;
    }

    method Copy(offset: nat, data: seq<u8>)
      requires offset + |data| <= buf.Length
      modifies buf
      ensures buf[..] == Overlay(old(buf[..]), offset, data)
    {
      forall k | 0 <= k < |data| {
        buf[offset + k] := data[k];
      }
    }

    /** Takes the fragment in. False when it is refused; a refused continuation ends the collection. Every write
        into the buffer is in bounds. */
    method Collect(rx: RxFrame, now: u32) returns (taken: bool)
      requires Valid() && !Ignored(rx)
      modifies this, buf
      ensures Valid()
      ensures Store(old(View()), Event(rx, now)) == if taken then Some(View()) else None
      ensures !taken ==> View() == if rx.aps.frag == 1 then old(View()) else old(View()).(mask := 0, total := 0)
    {
      hide Full, WithBit, Overlay;
      var payload := rx.aps.payload.value;
      if rx.aps.frag == 1 {
        if rx.aps.block < 2 || rx.aps.block > 8 || |payload| == 0 || |payload| > REASSEMBLY_MAX {
          return false;
        }
        total := rx.aps.block;
        mask := 0x01;
        firstLen := |payload|;
        lastLen := 0;
        src := rx.nwk.src;
        cluster := rx.aps.cluster;
        started := now;
        Copy(0, payload);
      } else {
        if total == 0 || rx.nwk.src != src || rx.aps.cluster != cluster || Sub32(now, started) > WINDOW_MS ||
           rx.aps.block >= total || rx.aps.block == 0
        {
          Reset();
          return false;
        }
        var offset := rx.aps.block * firstLen;
        if offset + |payload| > REASSEMBLY_MAX {
          Reset();
          return false;
        }
        Copy(offset, payload);
        mask := WithBit(mask, rx.aps.block);
        if rx.aps.block == total - 1 {
          lastLen := |payload|;
        }
      }
      return true;
    }

    /** Returns the message that is complete now, if there is one. */
    method Feed(rx: RxFrame, now: u32) returns (out: Option<seq<u8>>)
      requires Valid()
      modifies this, buf
      ensures Valid()
      ensures (View(), out) == Step(old(View()), Event(rx, now))
    {
      hide Full, Store;
      if rx.aps.payload.None? {
        return None;
      }
      if rx.aps.frag == 0 {
        return rx.aps.payload;
      }
      var taken := Collect(rx, now);
      if !taken {
        return None;
      }
      var full := Full(total);
      if mask == full && lastLen != 0 {
        var n := (total - 1) * firstLen + lastLen;
        out := Some(buf[..n]);
        mask := 0;
        total := 0;
        return;
      }
      return None;
    }
  }
}
