/** The write-back cache in front of the flash store: saves wait in memory, a sync writes them out as far as the flash
    lets it. */
module Preferences {
  import opened Words

  datatype NvsData = NvsData(key: string, data: seq<u8>)

  type Store = map<string, seq<u8>>

  /** What goes wrong in the flash calls made for one waiting entry. */
  datatype Fault = Fault(sizeFails: bool, readFails: bool, writeFails: bool)

  /** Every call fails on a handle that is not open. */
  const NO_HANDLE := Fault(true, true, true)

  /** The script of the flash during a sync; beyond its end nothing goes wrong. */
  function FaultAt(faults: seq<Fault>, i: nat): Fault {
    if i < |faults| then faults[i] else Fault(false, false, false)
  }

  datatype Outcome = Cached | Written | Failed

  predicate DistinctKeys(pending: seq<NvsData>) {
    forall i, j :: 0 <= i < j < |pending| ==> pending[i].key != pending[j].key
  }

  function Find(pending: seq<NvsData>, key: string): Option<seq<u8>> {
    if pending == [] then None
    else if pending[0].key == key then Some(pending[0].data)
    else Find(pending[1..], key)
  }

  /** The data replaces what waits under the key, or joins the end of the list. */
  function SaveIn(pending: seq<NvsData>, key: string, data: seq<u8>): seq<NvsData> {
    if pending == [] then [NvsData(key, data)]
    else if pending[0].key == key then [NvsData(key, data)] + pending[1..]
    else [pending[0]] + SaveIn(pending[1..], key, data)
  }

  function Stored(flash: Store, key: string): Option<seq<u8>> {
    if key in flash then Some(flash[key]) else None
  }

  /** What a reader should get: the waiting save, and the flash where nothing waits. */
  function Lookup(flash: Store, pending: seq<NvsData>, key: string): Option<seq<u8>> {
    var waiting := Find(pending, key);
    if waiting.Some? then waiting else Stored(flash, key)
  }

  ghost predicate SameView(flash: Store, pending: seq<NvsData>, flashAfter: Store, pendingAfter: seq<NvsData>) {
    forall key :: Lookup(flashAfter, pendingAfter, key) == Lookup(flash, pending, key)
  }

  predicate Changed(flash: Store, save: NvsData, fault: Fault) {
    fault.sizeFails || save.key !in flash || fault.readFails || save.data != flash[save.key]
  }

  function OutcomeOf(flash: Store, save: NvsData, fault: Fault): Outcome {
    if !Changed(flash, save, fault) then Cached
    else if fault.writeFails then Failed
    else Written
  }

  /** The entries from `i` on whose write fails, in their order. */
  function FailedFrom(flash: Store, pending: seq<NvsData>, faults: seq<Fault>, i: nat): seq<NvsData>
    requires i <= |pending|
    decreases |pending| - i
  {
    if i == |pending| then []
    else (if OutcomeOf(flash, pending[i], FaultAt(faults, i)).Failed? then [pending[i]] else [])
         + FailedFrom(flash, pending, faults, i + 1)
  }

  /** The flash with the entries from `i` on written that can be. */
  function FlashFrom(flash: Store, pending: seq<NvsData>, faults: seq<Fault>, i: nat): Store
    requires i <= |pending|
    decreases |pending| - i
  {
    if i == |pending| then flash
    else
      var later := FlashFrom(flash, pending, faults, i + 1);
      if OutcomeOf(flash, pending[i], FaultAt(faults, i)).Written? then later[pending[i].key := pending[i].data]
      else later
  }

  lemma {:induction false} FindAppend(p: seq<NvsData>, q: seq<NvsData>, key: string)
    ensures Find(p + q, key) == if Find(p, key).Some? then Find(p, key) else Find(q, key)
  {
    if p == [] {
      assert p + q == q;
    } else {
      FindAppend(p[1..], q, key);
      assert (p + q)[1..] == p[1..] + q;
    }
  }

  lemma {:induction false} FindMisses(p: seq<NvsData>, key: string)
    requires forall i :: 0 <= i < |p| ==> p[i].key != key
    ensures Find(p, key) == None
  {
    if p != [] {
      FindMisses(p[1..], key);
    }
  }

  lemma {:induction false} FindHits(p: seq<NvsData>, i: nat)
    requires i < |p| && DistinctKeys(p)
    ensures Find(p, p[i].key) == Some(p[i].data)
  {
    if i > 0 {
      FindHits(p[1..], i - 1);
    }
  }

  lemma {:induction false} SaveInHits(p: seq<NvsData>, i: nat, data: seq<u8>)
    requires i < |p| && forall j :: 0 <= j < i ==> p[j].key != p[i].key
    ensures SaveIn(p, p[i].key, data) == p[i := p[i].(data := data)]
  {
    if i > 0 {
      SaveInHits(p[1..], i - 1, data);
      assert p[1..][i - 1] == p[i];
    }
  }

  lemma {:induction false} SaveInMisses(p: seq<NvsData>, key: string, data: seq<u8>)
    requires forall j :: 0 <= j < |p| ==> p[j].key != key
    ensures SaveIn(p, key, data) == p + [NvsData(key, data)]
  {
    if p != [] {
      SaveInMisses(p[1..], key, data);
      assert p == [p[0]] + p[1..];
    }
  }

  lemma {:induction false} SaveInDistinct(p: seq<NvsData>, key: string, data: seq<u8>)
    requires DistinctKeys(p)
    ensures DistinctKeys(SaveIn(p, key, data))
    ensures forall e :: e in SaveIn(p, key, data) ==> e.key == key || e in p
  {
    if p != [] {
      SaveInDistinct(p[1..], key, data);
    }
  }

  /** A save is what a reader of its key gets from then on, and nobody else notices it. */
  lemma {:induction false} SaveInFinds(p: seq<NvsData>, key: string, data: seq<u8>, k: string)
    ensures Find(SaveIn(p, key, data), k) == if k == key then Some(data) else Find(p, k)
  {
    if p != [] {
      SaveInFinds(p[1..], key, data, k);
    }
  }

  /** Taking an entry out of the list once the flash holds its data changes nothing for a reader. */
  lemma RemovalKeepsView(flash: Store, p: seq<NvsData>, save: NvsData, q: seq<NvsData>, flashAfter: Store)
    requires DistinctKeys(p + [save] + q)
    requires flashAfter == flash[save.key := save.data]
    ensures SameView(flash, p + [save] + q, flashAfter, p + q)
  {
    var all := p + [save] + q;
    forall key
      ensures Lookup(flashAfter, p + q, key) == Lookup(flash, all, key)
    {
      FindAppend(p, q, key);
      FindAppend(p + [save], q, key);
      FindAppend(p, [save], key);
      if key == save.key {
        assert all[|p|] == save;
        forall i | 0 <= i < |p|
          ensures p[i].key != key
        {
          assert all[i] == p[i];
        }
        forall i | 0 <= i < |q|
          ensures q[i].key != key
        {
          assert all[|p| + 1 + i] == q[i];
        }
        FindMisses(p, key);
        FindMisses(q, key);
      }
    }
  }

  /** Writing some entries leaves the keys of the others alone. */
  lemma {:induction false} FlashFromOthers(flash: Store, pending: seq<NvsData>, faults: seq<Fault>, i: nat, key: string)
    requires i <= |pending|
    requires forall j :: i <= j < |pending| ==> pending[j].key != key
    ensures Stored(FlashFrom(flash, pending, faults, i), key) == Stored(flash, key)
    decreases |pending| - i
  {
    if i < |pending| {
      FlashFromOthers(flash, pending, faults, i + 1, key);
    }
  }

  /** So it does not matter that an entry is compared with the flash as it is by then. */
  lemma OutcomeThen(flash: Store, pending: seq<NvsData>, faults: seq<Fault>, i: nat)
    requires i < |pending| && DistinctKeys(pending)
    ensures Changed(FlashFrom(flash, pending, faults, i + 1), pending[i], FaultAt(faults, i))
         == Changed(flash, pending[i], FaultAt(faults, i))
  {
    FlashFromOthers(flash, pending, faults, i + 1, pending[i].key);
  }

  lemma DistinctWithout(p: seq<NvsData>, e: NvsData, q: seq<NvsData>)
    requires DistinctKeys(p + ([e] + q))
    ensures DistinctKeys(p + q)
  {
    var all := p + ([e] + q);
    forall i, j | 0 <= i < j < |p + q|
      ensures (p + q)[i].key != (p + q)[j].key
    {
      assert (p + q)[i] == all[if i < |p| then i else i + 1];
      assert (p + q)[j] == all[if j < |p| then j else j + 1];
    }
  }

  lemma SameViewTwice(f0: Store, p0: seq<NvsData>, f1: Store, p1: seq<NvsData>, f2: Store, p2: seq<NvsData>)
    requires SameView(f0, p0, f1, p1) && SameView(f1, p1, f2, p2)
    ensures SameView(f0, p0, f2, p2)
  {
  }

  /** How far a sync has come: the entries from `i` on are settled. */
  ghost predicate SettledFrom(f0: Store, p0: seq<NvsData>, faults: seq<Fault>, i: nat, flash: Store,
                              pending: seq<NvsData>)
    requires i <= |p0|
  {
    && pending == p0[..i] + FailedFrom(f0, p0, faults, i) && DistinctKeys(pending)
    && flash == FlashFrom(f0, p0, faults, i)
    && SameView(f0, p0, flash, pending)
  }

  lemma SplitAt(p: seq<NvsData>, i: nat, rest: seq<NvsData>)
    requires i < |p|
    ensures var all := p[..i + 1] + rest;
            && all == p[..i] + [p[i]] + rest == p[..i] + ([p[i]] + rest)
            && all[..i] == p[..i] && all[i + 1..] == rest && all[i] == p[i]
  {
  }

  /** The next entry towards the front stays when its write fails ... */
  lemma FailedStays(f0: Store, p0: seq<NvsData>, faults: seq<Fault>, i: nat, flash: Store, pending: seq<NvsData>)
    requires i < |p0| && DistinctKeys(p0)
    requires SettledFrom(f0, p0, faults, i + 1, flash, pending)
    requires Changed(flash, p0[i], FaultAt(faults, i)) && FaultAt(faults, i).writeFails
    ensures SettledFrom(f0, p0, faults, i, flash, pending)
  {
    hide SameView, Changed;
    OutcomeThen(f0, p0, faults, i);
    SplitAt(p0, i, FailedFrom(f0, p0, faults, i + 1));
  }

  lemma UnchangedIsThere(flash: Store, save: NvsData, fault: Fault)
    ensures !Changed(flash, save, fault) ==> flash[save.key := save.data] == flash
  {
  }

  /** An entry that does not fail is in the flash afterwards, and not among those that failed. */
  lemma LeavesFailed(f0: Store, p0: seq<NvsData>, faults: seq<Fault>, i: nat)
    requires i < |p0| && DistinctKeys(p0)
    requires var flash := FlashFrom(f0, p0, faults, i + 1);
             !(Changed(flash, p0[i], FaultAt(faults, i)) && FaultAt(faults, i).writeFails)
    ensures FailedFrom(f0, p0, faults, i) == FailedFrom(f0, p0, faults, i + 1)
    ensures FlashFrom(f0, p0, faults, i) == FlashFrom(f0, p0, faults, i + 1)[p0[i].key := p0[i].data]
  {
    hide Changed, DistinctKeys;
    OutcomeThen(f0, p0, faults, i);
    UnchangedIsThere(FlashFrom(f0, p0, faults, i + 1), p0[i], FaultAt(faults, i));
  }

  /** ... and leaves otherwise, when the flash has its data, newly written or from before. */
  lemma SettledLeaves(f0: Store, p0: seq<NvsData>, faults: seq<Fault>, i: nat, flash: Store, pending: seq<NvsData>)
    requires i < |p0| && DistinctKeys(p0)
    requires SettledFrom(f0, p0, faults, i + 1, flash, pending)
    requires !(Changed(flash, p0[i], FaultAt(faults, i)) && FaultAt(faults, i).writeFails)
    ensures SettledFrom(f0, p0, faults, i, flash[p0[i].key := p0[i].data], pending[..i] + pending[i + 1..])
    ensures !Changed(flash, p0[i], FaultAt(faults, i)) ==> flash[p0[i].key := p0[i].data] == flash
    ensures pending[i] == p0[i]
  {
    hide SameView, Changed, DistinctKeys, FailedFrom, FlashFrom;
    var rest := FailedFrom(f0, p0, faults, i + 1);
    var flashAfter := flash[p0[i].key := p0[i].data];
    LeavesFailed(f0, p0, faults, i);
    UnchangedIsThere(flash, p0[i], FaultAt(faults, i));
    SplitAt(p0, i, rest);
    DistinctWithout(p0[..i], p0[i], rest);
    RemovalKeepsView(flash, p0[..i], p0[i], rest, flashAfter);
    SameViewTwice(f0, p0, flash, pending, flashAfter, p0[..i] + rest);
  }

  lemma {:induction false} NothingWritten(flash: Store, pending: seq<NvsData>, faults: seq<Fault>, i: nat)
    requires i <= |pending| && forall j :: i <= j < |pending| ==> FaultAt(faults, j) == NO_HANDLE
    ensures FlashFrom(flash, pending, faults, i) == flash
    ensures FailedFrom(flash, pending, faults, i) == pending[i..]
    decreases |pending| - i
  {
    if i < |pending| {
      NothingWritten(flash, pending, faults, i + 1);
    }
  }

  /** With nothing left waiting, the flash alone shows what a reader saw before the sync. */
  lemma SyncedFlashIsView(flash: Store, pending: seq<NvsData>, flashAfter: Store, key: string)
    requires SameView(flash, pending, flashAfter, [])
    ensures Stored(flashAfter, key) == Lookup(flash, pending, key)
  {
    assert Lookup(flashAfter, [], key) == Lookup(flash, pending, key);
  }

  // ---------------------------------------------------------------------------------------------------------------
  // The cache
  // ---------------------------------------------------------------------------------------------------------------

  /** `flash` is what the non-volatile storage holds; a call that fails leaves it as it is. */
  class Cache {
    var pending: seq<NvsData>
    var flash: Store
    var open: bool

    ghost predicate Valid()
      reads this
    {
      DistinctKeys(pending)
    }

    constructor (flash: Store, open: bool)
      ensures Valid() && pending == [] && this.flash == flash && this.open == open
    {
      pending, this.flash, this.open := [], flash, open;
    }

    /** Keeps the data for the next sync, in place of what already waits under the key. */
    method Save(key: string, data: seq<u8>) returns (ok: bool)
      requires Valid()
      modifies `pending
      ensures Valid() && ok && pending == SaveIn(old(pending), key, data)
    {
      SaveInDistinct(pending, key, data);
      for i := 0 to |pending|
        invariant forall j :: 0 <= j < i ==> pending[j].key != key
        invariant pending == old(pending)
      {
        if pending[i].key == key {
          SaveInHits(pending, i, data);
          pending := pending[i := pending[i].(data := data)];
          return true;
        }
      }
      SaveInMisses(pending, key, data);
      pending := pending + [NvsData(key, data)];
      return true;
    }

    /** The last data saved, if it has the asked length and, where only the flash has it, the flash can be read. */
    method Load(key: string, length: nat, fault: Fault) returns (data: Option<seq<u8>>)
      requires Valid() && (!open ==> fault == NO_HANDLE)
      ensures data.Some? ==> data == Lookup(flash, pending, key) && |data.value| == length
      ensures data.Some? == (&& Lookup(flash, pending, key).Some? && |Lookup(flash, pending, key).value| == length
                             && (Find(pending, key).Some? || !(fault.sizeFails || fault.readFails)))
    {
      for i := 0 to |pending|
        invariant forall j :: 0 <= j < i ==> pending[j].key != key
      {
        if pending[i].key == key {
          FindHits(pending, i);
          if |pending[i].data| != length {
            return None;
          }
          return Some(pending[i].data);
        }
      }
      FindMisses(pending, key);
      if fault.sizeFails || key !in flash {
        return None;
      }
      if |flash[key]| != length {
        return None;
      }
      if fault.readFails {
        return None;
      }
      return Some(flash[key]);
    }

    method IsChanged(save: NvsData, fault: Fault) returns (changed: bool)
      ensures changed == Changed(flash, save, fault)
    {
      if fault.sizeFails || save.key !in flash {
        return true;
      }
      if fault.readFails {
        return true;
      }
      return save.data != flash[save.key];
    }

    /** Writes the waiting entries out, from the last to the first, and keeps those whose write fails. */
    method Sync(faults: seq<Fault>, commitFails: bool) returns (ok: bool)
      requires Valid() && (!open ==> commitFails && forall i :: 0 <= i < |pending| ==> FaultAt(faults, i) == NO_HANDLE)
      modifies `pending, `flash
      ensures Valid()
      ensures !open ==> flash == old(flash) && pending == old(pending)
      ensures pending == FailedFrom(old(flash), old(pending), faults, 0)
      ensures flash == FlashFrom(old(flash), old(pending), faults, 0)
      ensures SameView(old(flash), old(pending), flash, pending)
      ensures ok ==> forall key :: Stored(flash, key) == Lookup(old(flash), old(pending), key)
      ensures ok == (pending == [] && (old(pending) == [] || !commitFails))
    {
      if pending == [] {
        return true;
      }
      var failed := 0;
      ghost var p0, f0 := pending, flash;
      assert p0[..|p0|] + [] == p0;
      var i := |pending| - 1;
      while i >= 0
        invariant -1 <= i < |p0| && i < |pending|
        invariant SettledFrom(f0, p0, faults, i + 1, flash, pending)
        invariant failed == |FailedFrom(f0, p0, faults, i + 1)|
        decreases i
      {
        hide SameView;
        var save := pending[i];
        SplitAt(p0, i, FailedFrom(f0, p0, faults, i + 1));
        OutcomeThen(f0, p0, faults, i);
        var changed := IsChanged(save, FaultAt(faults, i));
        if changed && FaultAt(faults, i).writeFails {
          FailedStays(f0, p0, faults, i, flash, pending);
          failed := failed + 1;
        } else {
          SettledLeaves(f0, p0, faults, i, flash, pending);
          if changed {
            flash := flash[save.key := save.data];
          }
          pending := pending[..i] + pending[i + 1..];
        }
        i := i - 1;
      }
      assert p0[..0] + FailedFrom(f0, p0, faults, 0) == FailedFrom(f0, p0, faults, 0);
      if !open {
        NothingWritten(f0, p0, faults, 0);
      }
      if commitFails {
        return false;
      }
      if failed == 0 {
        forall key
          ensures Stored(flash, key) == Lookup(f0, p0, key)
        {
          SyncedFlashIsView(f0, p0, flash, key);
        }
      }
      return failed == 0;
    }

    /** Forgets everything; the handle stays invalid until the next start. */
    method Reset() returns (ok: bool)
      modifies this
      ensures Valid() && ok && !open
      ensures forall key :: Lookup(flash, pending, key) == None
    {
      pending := [];
      flash := map[];
      open := false;
      return true;
    }
  }

  // ---------------------------------------------------------------------------------------------------------------
  // Whole runs
  // ---------------------------------------------------------------------------------------------------------------

  datatype Event = Saving(key: string, data: seq<u8>) | Syncing(faults: seq<Fault>)

  datatype State = State(flash: Store, pending: seq<NvsData>)

  function After(s: State, e: Event): State {
    match e
    case Saving(key, data) => s.(pending := SaveIn(s.pending, key, data))
    case Syncing(faults) => State(FlashFrom(s.flash, s.pending, faults, 0), FailedFrom(s.flash, s.pending, faults, 0))
  }

  function Run(s: State, events: seq<Event>): State {
    if events == [] then s else After(Run(s, events[..|events| - 1]), events[|events| - 1])
  }

  /** What was saved last under the key, or what was there before. */
  function LastSaved(before: Option<seq<u8>>, events: seq<Event>, key: string): Option<seq<u8>> {
    if events == [] then before
    else
      var e := events[|events| - 1];
      if e.Saving? && e.key == key then Some(e.data) else LastSaved(before, events[..|events| - 1], key)
  }

  lemma {:induction false} SettleAll(f0: Store, p0: seq<NvsData>, faults: seq<Fault>, i: nat)
    requires i <= |p0| && DistinctKeys(p0)
    ensures SettledFrom(f0, p0, faults, i, FlashFrom(f0, p0, faults, i), p0[..i] + FailedFrom(f0, p0, faults, i))
    decreases |p0| - i
  {
    if i == |p0| {
      assert p0[..i] + [] == p0;
    } else {
      SettleAll(f0, p0, faults, i + 1);
      var flash, pending := FlashFrom(f0, p0, faults, i + 1), p0[..i + 1] + FailedFrom(f0, p0, faults, i + 1);
      OutcomeThen(f0, p0, faults, i);
      if Changed(flash, p0[i], FaultAt(faults, i)) && FaultAt(faults, i).writeFails {
        FailedStays(f0, p0, faults, i, flash, pending);
      } else {
        SettledLeaves(f0, p0, faults, i, flash, pending);
      }
    }
  }

  /** Whatever syncs come in between, and whatever fails in them: a reader gets what was saved last. */
  lemma {:induction false} ReaderSeesLastSave(s: State, events: seq<Event>, key: string)
    requires DistinctKeys(s.pending)
    ensures var t := Run(s, events);
            && DistinctKeys(t.pending)
            && Lookup(t.flash, t.pending, key) == LastSaved(Lookup(s.flash, s.pending, key), events, key)
  {
    if events != [] {
      ReaderSeesLastSave(s, events[..|events| - 1], key);
      var t := Run(s, events[..|events| - 1]);
      match events[|events| - 1] {
        case Saving(k, data) =>
          SaveInDistinct(t.pending, k, data);
          SaveInFinds(t.pending, k, data, key);
        case Syncing(faults) =>
          SettleAll(t.flash, t.pending, faults, 0);
          var u := After(t, Syncing(faults));
          assert t.pending[..0] + u.pending == u.pending;
          assert Lookup(u.flash, u.pending, key) == Lookup(t.flash, t.pending, key);
      }
    }
  }
}
