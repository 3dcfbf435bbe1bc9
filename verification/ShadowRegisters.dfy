/** The hub's copies of the inverter registers that several entities share, and the hold-off after a write. */
module ShadowRegisters {
  import opened Words

  datatype RegisterState = RegisterState(reg: u16, value: bv16, holdUntil: u32, valid: bool, hold: bool)

  /** A poll result is ignored for as long as this holds. */
  predicate Held(s: RegisterState, now: u32) {
    s.hold && Signed32(Sub32(now, s.holdUntil)) < 0
  }

  function ReadState(s: RegisterState, now: u32, value: bv16): RegisterState {
    if Held(s, now) then s else s.(value := value, valid := true, hold := false)
  }

  /** The very value that was just written need not be sent again. */
  predicate Repeats(s: RegisterState, now: u32, value: bv16) {
    Held(s, now) && s.value == value
  }

  function WrittenState(s: RegisterState, holdMs: u32, later: u32, value: bv16): RegisterState {
    s.(value := value, valid := true, hold := holdMs != 0, holdUntil := Add32(later, holdMs))
  }

  function Merge(value: bv16, mask: bv16, bits: bv16): bv16 {
    (value & !mask) | (bits & mask)
  }

  predicate DistinctRegisters(registers: seq<RegisterState>) {
    forall i, j :: 0 <= i < j < |registers| ==> registers[i].reg != registers[j].reg
  }

  /** The index of the register, `None` when it is not tracked. */
  function IndexOf(registers: seq<RegisterState>, reg: u16): (i: Option<nat>)
    ensures i.Some? ==> i.value < |registers| && registers[i.value].reg == reg
    ensures i.None? ==> forall j :: 0 <= j < |registers| ==> registers[j].reg != reg
  {
    if registers == [] then None
    else if registers[|registers| - 1].reg == reg then Some(|registers| - 1)
    else IndexOf(registers[..|registers| - 1], reg)
  }

  class DeyeLvHyHub {
    const writeHoldMs: u32
    var registers: seq<RegisterState>
    /** The frames handed to the bus, oldest first. */
    ghost var sent: seq<(u16, bv16)>

    ghost predicate Valid()
      reads this
    {
      DistinctRegisters(registers)
    }

    constructor (writeHoldMs: u32)
      ensures Valid() && registers == [] && sent == [] && this.writeHoldMs == writeHoldMs
    {
      this.writeHoldMs := writeHoldMs;
      registers, sent := [], [];
    }

    method Find(reg: u16) returns (index: Option<nat>)
      requires Valid()
      ensures index == IndexOf(registers, reg)
    {
      for i := 0 to |registers|
        invariant forall j :: 0 <= j < i ==> registers[j].reg != reg
      {
        if registers[i].reg == reg {
          return Some(i);
        }
      }
      return None;
    }

    /** Starts a copy, unknown and not held, of a register that has none. */
    method TrackRegister(reg: u16)
      requires Valid()
      modifies `registers
      ensures Valid() && IndexOf(registers, reg).Some?
      ensures registers == if IndexOf(old(registers), reg).Some? then old(registers)
                           else old(registers) + [RegisterState(reg, 0, 0, false, false)]
    {
      var index := Find(reg);
      if index.None? {
        registers := registers + [RegisterState(reg, 0, 0, false, false)];
      }
    }

    /** A polled value: ignored while the register is held, otherwise the new copy. */
    method AcceptRead(reg: u16, value: bv16, now: u32) returns (accepted: bool)
      requires Valid()
      modifies `registers
      ensures Valid()
      ensures var i := IndexOf(old(registers), reg);
              && accepted == (i.None? || !Held(old(registers)[i.value], now))
              && registers == (if i.None? then old(registers)
                               else old(registers)[i.value := ReadState(old(registers)[i.value], now, value)])
    {
      var index := Find(reg);
      if index.None? {
        return true;
      }
      var i := index.value;
      if registers[i].hold {
        if Signed32(Sub32(now, registers[i].holdUntil)) < 0 {
          return false;
        }
        registers := registers[i := registers[i].(hold := false)];
      }
      registers := registers[i := registers[i].(value := value)];
      registers := registers[i := registers[i].(valid := true)];
      return true;
    }

    /** Sends a whole register, unless it was just written with that value; `queued` is whether the bus takes the frame,
        `now` and `later` are the clock before and after that. */
    method WriteRegister(reg: u16, value: bv16, now: u32, queued: bool, later: u32) returns (ok: bool)
      requires Valid()
      modifies `registers, `sent
      ensures Valid()
      ensures var i := IndexOf(old(registers), reg);
              var repeats := i.Some? && Repeats(old(registers)[i.value], now, value);
              && ok == (repeats || queued)
              && sent == (if !repeats && queued then old(sent) + [(reg, value)] else old(sent))
              && registers == (if i.Some? && !repeats && queued
                               then old(registers)[i.value := WrittenState(old(registers)[i.value], writeHoldMs, later,
                                                                           value)]
                               else old(registers))
    {
      var index := Find(reg);
      if index.Some? && registers[index.value].hold && registers[index.value].value == value
         && Signed32(Sub32(now, registers[index.value].holdUntil)) < 0 {
        return true;
      }
      if !queued {
        return false;
      }
      sent := sent + [(reg, value)];
      if index.Some? {
        KeepWritten(index.value, value, later);
      }
      return true;
    }

    /** What is remembered of a frame that was sent. */
    method KeepWritten(i: nat, value: bv16, later: u32)
      requires Valid() && i < |registers|
      modifies `registers
      ensures Valid() && registers == old(registers)[i := WrittenState(old(registers)[i], writeHoldMs, later, value)]
    {
      registers := registers[i := registers[i].(value := value)];
      registers := registers[i := registers[i].(valid := true)];
      registers := registers[i := registers[i].(hold := writeHoldMs != 0)];
      registers := registers[i := registers[i].(holdUntil := Add32(later, writeHoldMs))];
    }

    /** Changes some bits of a register that was read before; the others stay as in the copy. */
    method WriteMasked(reg: u16, mask: bv16, bits: bv16, now: u32, queued: bool, later: u32) returns (ok: bool)
      requires Valid()
      modifies `registers, `sent
      ensures Valid()
      ensures var i := IndexOf(old(registers), reg);
              if i.None? || !old(registers)[i.value].valid
              then !ok && registers == old(registers) && sent == old(sent)
              else
                var s := old(registers)[i.value];
                var value := Merge(s.value, mask, bits);
                && ok == (Repeats(s, now, value) || queued)
                && sent == (if !Repeats(s, now, value) && queued then old(sent) + [(reg, value)] else old(sent))
                && registers == (if !Repeats(s, now, value) && queued
                                 then old(registers)[i.value := WrittenState(s, writeHoldMs, later, value)]
                                 else old(registers))
    {
      var index := Find(reg);
      if index.None? || !registers[index.value].valid {
        return false;
      }
      ok := WriteRegister(reg, Merge(registers[index.value].value, mask, bits), now, queued, later);
    }
  }

  // ---------------------------------------------------------------------------------------------------------------
  // The hold window, in real time
  // ---------------------------------------------------------------------------------------------------------------

  /** With the hold set at the real time `t` (the 32-bit clock may wrap in between): the register is held up to `holdMs`
      later and no longer, as long as it is looked at within 2^31 ms of the end of the hold. */
  lemma HoldWindow(s: RegisterState, t: nat, holdMs: u32, u: nat)
    requires s.hold && s.holdUntil == Add32(Millis(t), holdMs) && holdMs <= 0x8000_0000
    requires t <= u < t + holdMs + 0x8000_0000
    ensures Held(s, Millis(u)) <==> u < t + holdMs
  {
    var late := u - (t + holdMs);
    Modulo(u, t, holdMs);
    if late >= 0 {
      assert Sub32(Millis(u), s.holdUntil) == late;
    } else {
      assert Sub32(Millis(u), s.holdUntil) == late + TWO32;
    }
  }

  lemma Modulo(u: nat, t: nat, holdMs: u32)
    ensures Sub32(Millis(u), Add32(Millis(t), holdMs)) == (u - (t + holdMs)) % TWO32
  {
    var a, b := u / TWO32, (t + holdMs) / TWO32;
    assert Add32(Millis(t), holdMs) == (t + holdMs) % TWO32 by {
      assert t == TWO32 * (t / TWO32) + Millis(t);
      AddMultiple(Millis(t) as int + holdMs, t / TWO32);
    }
    assert u == TWO32 * a + Millis(u);
    assert t + holdMs == TWO32 * b + (t + holdMs) % TWO32;
    AddMultiple(Millis(u) as int - (t + holdMs) % TWO32, a - b);
  }

  /** A hold longer than 2^31 ms would not even start: the register is held right after the write exactly for these. */
  lemma HoldStarts(s: RegisterState, t: nat, holdMs: u32)
    requires s == WrittenState(s, holdMs, Millis(t), s.value)
    ensures Held(s, Millis(t)) <==> 0 < holdMs <= 0x8000_0000
  {
    Modulo(t, t, holdMs);
  }

  // ---------------------------------------------------------------------------------------------------------------
  // Masked writes are not lost
  // ---------------------------------------------------------------------------------------------------------------

  /** What happens to one register, at real times; `queued` is whether the bus takes the frame, if one is offered. */
  datatype Event = Poll(t: nat, value: bv16) | Masked(t: nat, mask: bv16, bits: bv16, queued: bool)

  /** The copy, when the last frame was sent and what was in the frames. */
  datatype Track = Track(s: RegisterState, sentAt: Option<nat>, frames: seq<bv16>)

  function After(track: Track, holdMs: u32, e: Event): Track {
    match e
    case Poll(t, value) => track.(s := ReadState(track.s, Millis(t), value))
    case Masked(t, mask, bits, queued) =>
      var value := Merge(track.s.value, mask, bits);
      if !track.s.valid || Repeats(track.s, Millis(t), value) || !queued then track
      else Track(WrittenState(track.s, holdMs, Millis(t), value), Some(t), track.frames + [value])
  }

  function Run(track: Track, holdMs: u32, events: seq<Event>): Track {
    if events == [] then track else After(Run(track, holdMs, events[..|events| - 1]), holdMs, events[|events| - 1])
  }

  /** Every poll result arrives within the hold of the last frame sent before it. */
  predicate PollsInHold(track: Track, holdMs: u32, events: seq<Event>) {
    events == [] ||
    var rest, e := events[..|events| - 1], events[|events| - 1];
    var sentAt := Run(track, holdMs, rest).sentAt;
    && PollsInHold(track, holdMs, rest)
    && (e.Poll? ==> sentAt.Some? && sentAt.value <= e.t < sentAt.value + holdMs)
  }

  /** The masked writes the bus took, one after the other, and nothing else. */
  function Merged(value: bv16, events: seq<Event>): bv16 {
    if events == [] then value
    else
      var before, e := Merged(value, events[..|events| - 1]), events[|events| - 1];
      if e.Masked? && e.queued then Merge(before, e.mask, e.bits) else before
  }

  predicate AnyWrite(events: seq<Event>) {
    events != [] && ((events[|events| - 1].Masked? && events[|events| - 1].queued) || AnyWrite(events[..|events| - 1]))
  }

  /** A known register: read and nothing sent since, or held since the last frame, which has what the copy has. */
  predicate Known(track: Track, holdMs: u32) {
    && track.s.valid
    && if track.sentAt.None? then !track.s.hold && track.frames == []
       else && track.s.hold == (holdMs != 0) && track.s.holdUntil == Add32(Millis(track.sentAt.value), holdMs)
            && track.frames != [] && track.frames[|track.frames| - 1] == track.s.value
  }

  /** From the polled copy on: the copy is that value with every masked write the bus took applied in order, writes it
      refused and polls within the hold change nothing, and as soon as there was a write the last frame has the same. */
  lemma {:induction false} NoMaskedWriteLost(track: Track, holdMs: u32, events: seq<Event>)
    requires holdMs <= 0x8000_0000 && Known(track, holdMs)
    requires PollsInHold(track, holdMs, events)
    ensures var end := Run(track, holdMs, events);
            && Known(end, holdMs)
            && end.s.value == Merged(track.s.value, events)
            && (end.sentAt.Some? <==> track.sentAt.Some? || AnyWrite(events))
    decreases |events|
  {
    hide Merge;
    if events != [] {
      var rest, e := events[..|events| - 1], events[|events| - 1];
      NoMaskedWriteLost(track, holdMs, rest);
      var before := Run(track, holdMs, rest);
      if e.Poll? {
        HoldWindow(before.s, before.sentAt.value, holdMs, e.t);
      }
    }
  }

  function Bits(value: bv16, p: bv16): bv16 {
    value & p
  }

  /** What the last accepted write that covers the bit `p` asked for it, or its first value. */
  function LastBit(value: bv16, events: seq<Event>, p: bv16): bv16 {
    if events == [] then Bits(value, p)
    else
      var e := events[|events| - 1];
      if e.Masked? && e.queued && Bits(e.mask, p) != 0 then Bits(e.bits, p)
      else LastBit(value, events[..|events| - 1], p)
  }

  predicate SingleBit(p: bv16) {
    p != 0 && p & (p - 1) == 0
  }

  lemma AllOrNothing(mask: bv16, p: bv16)
    requires SingleBit(p)
    ensures Bits(mask, p) == 0 || Bits(mask, p) == p
  {
  }

  lemma MergeInside(value: bv16, mask: bv16, bits: bv16, p: bv16)
    requires Bits(mask, p) == p
    ensures Bits(Merge(value, mask, bits), p) == Bits(bits, p)
  {
  }

  lemma MergeOutside(value: bv16, mask: bv16, bits: bv16, p: bv16)
    requires Bits(mask, p) == 0
    ensures Bits(Merge(value, mask, bits), p) == Bits(value, p)
  {
  }

  /** Bit by bit: each bit is as the last write whose mask has it wants it, and untouched when no mask has it. */
  lemma {:induction false} EachBitIsLastWritten(value: bv16, events: seq<Event>, p: bv16)
    requires SingleBit(p)
    ensures Bits(Merged(value, events), p) == LastBit(value, events, p)
    decreases |events|
  {
    hide Merge, SingleBit, Bits;
    if events != [] {
      var rest, e := events[..|events| - 1], events[|events| - 1];
      EachBitIsLastWritten(value, rest, p);
      if e.Masked? && e.queued {
        AllOrNothing(e.mask, p);
        if Bits(e.mask, p) == 0 {
          MergeOutside(Merged(value, rest), e.mask, e.bits, p);
        } else {
          MergeInside(Merged(value, rest), e.mask, e.bits, p);
        }
      }
    }
  }
}
