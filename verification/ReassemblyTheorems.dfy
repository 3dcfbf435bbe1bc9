/** Reassembly over whole runs: a message is reported when its last missing block arrives, whatever the order of the
    blocks; where each reported byte comes from, and exactly when all of them were received for this message. */
module ReassemblyTheorems {
  import opened Words
  import opened ApsFrames
  import opened Reassembly

  /** The state after a run of calls. */
  function After(s: State, events: seq<Event>): (r: State)
    requires Bounded(s)
    ensures Bounded(r)
  {
    if events == [] then s else Step(After(s, events[..|events| - 1]), events[|events| - 1]).0
  }

  /** What call `i` of a run reports. */
  function Report(s: State, events: seq<Event>, i: nat): Option<seq<u8>>
    requires Bounded(s) && i < |events|
  {
    Step(After(s, events[..i]), events[i]).1
  }

  // ------------------------------------------------------------------------------------------------------------------
  // The mask as a set
  // ------------------------------------------------------------------------------------------------------------------

  lemma WithBitSets(m: bv8, k: nat, j: nat)
    requires k < 8 && j < 8
    ensures Has(WithBit(m, k), j) <==> j == k || Has(m, j)
  {
    hide WithBit, Has;
    OneBit(k, j);
    HasOr(m, (1 as bv8) << k, j);
    WithBitIs(m, k);
  }

  lemma WithBitIs(m: bv8, k: nat)
    requires k < 8
    ensures WithBit(m, k) == m | ((1 as bv8) << k)
  {
  }

  lemma OneBit(k: nat, j: nat)
    requires k < 8 && j < 8
    ensures Has((1 as bv8) << k, j) <==> j == k
  {
  }

  lemma HasOr(m: bv8, b: bv8, j: nat)
    requires j < 8
    ensures Has(m | b, j) <==> Has(m, j) || Has(b, j)
  {
  }

  lemma FullHasAll(m: bv8, n: nat)
    requires n <= 8
    ensures m == Full(n) <==> forall k | 0 <= k < 8 :: Has(m, k) <==> k < n
  {
    if forall k | 0 <= k < 8 :: Has(m, k) <==> k < n {
      assert Has(m, 0) <==> 0 < n;
      assert Has(m, 1) <==> 1 < n;
      assert Has(m, 2) <==> 2 < n;
      assert Has(m, 3) <==> 3 < n;
      assert Has(m, 4) <==> 4 < n;
      assert Has(m, 5) <==> 5 < n;
      assert Has(m, 6) <==> 6 < n;
      assert Has(m, 7) <==> 7 < n;
      assert n == 0 || n == 1 || n == 2 || n == 3 || n == 4 || n == 5 || n == 6 || n == 7 || n == 8;
    }
  }

  // ------------------------------------------------------------------------------------------------------------------
  // Order independence
  // ------------------------------------------------------------------------------------------------------------------

  /** A message cut into blocks the way a sender does it: equal blocks, a last one of any length, all of it within the
      buffer. `src` and `cluster` are those of its fragments. */
  datatype Message = Message(blocks: seq<seq<u8>>, src: u16, cluster: u16)

  predicate GoodMessage(m: Message) {
    2 <= |m.blocks| <= 8 && |m.blocks[0]| >= 1 && |m.blocks[|m.blocks| - 1]| >= 1 &&
    (forall k | 0 <= k < |m.blocks| - 1 :: |m.blocks[k]| == |m.blocks[0]|) &&
    (|m.blocks| - 1) * |m.blocks[0]| + |m.blocks[|m.blocks| - 1]| <= 256
  }

  function Join(blocks: seq<seq<u8>>): seq<u8> {
    if blocks == [] then [] else Join(blocks[..|blocks| - 1]) + blocks[|blocks| - 1]
  }

  predicate IsFirst(rx: RxFrame, m: Message)
    requires GoodMessage(m)
  {
    rx.aps.frag == 1 && rx.aps.block == |m.blocks| && rx.aps.payload == Some(m.blocks[0]) && rx.nwk.src == m.src &&
    rx.aps.cluster == m.cluster
  }

  predicate IsContinuation(rx: RxFrame, m: Message)
    requires GoodMessage(m)
  {
    rx.aps.frag != 0 && rx.aps.frag != 1 && 0 < rx.aps.block < |m.blocks| &&
    rx.aps.payload == Some(m.blocks[rx.aps.block]) && rx.nwk.src == m.src && rx.aps.cluster == m.cluster
  }

  /** Clock at the latest first fragment of a run. */
  function StartOf(events: seq<Event>, m: Message): u32
    requires GoodMessage(m)
  {
    if events == [] then 0
    else if IsFirst(events[|events| - 1].rx, m) then events[|events| - 1].now
    else StartOf(events[..|events| - 1], m)
  }

  /** The numbers of the blocks that arrived since the latest first fragment. */
  function Seen(events: seq<Event>, m: Message): set<nat>
    requires GoodMessage(m)
  {
    if events == [] then {} else
    var e := events[|events| - 1];
    var before := Seen(events[..|events| - 1], m);
    if IsFirst(e.rx, m) then {} else if IsContinuation(e.rx, m) then before + {e.rx.aps.block as nat} else before
  }

  predicate Complete(events: seq<Event>, m: Message)
    requires GoodMessage(m)
  {
    forall k: nat | 0 < k < |m.blocks| :: k in Seen(events, m)
  }

  /** A first fragment that is refused, whoever sends it. */
  predicate BadFirst(rx: RxFrame) {
    rx.aps.payload.Some? && rx.aps.frag == 1 && !GoodFirst(rx)
  }

  /** The traffic of one message: a first fragment, then in any order continuations within five seconds of the latest
      first fragment, repetitions of any fragment, refused first fragments of anybody and messages that are not
      fragmented. */
  predicate Traffic(events: seq<Event>, m: Message)
    requires GoodMessage(m)
  {
    events != [] && IsFirst(events[0].rx, m) &&
    forall i | 0 <= i < |events| ::
      var e := events[i];
      Ignored(e.rx) || BadFirst(e.rx) || IsFirst(e.rx, m) ||
      (IsContinuation(e.rx, m) && Sub32(e.now, StartOf(events[..i], m)) <= 5000)
  }

  /** The state while blocks of `m` are being collected. */
  predicate Collecting(s: State, m: Message, start: u32, seen: set<nat>)
    requires GoodMessage(m) && Bounded(s)
  {
    var n, size := |m.blocks|, |m.blocks[0]|;
    && s.total == n && s.firstLen == size && s.src == m.src && s.cluster == m.cluster && s.started == start
    && s.lastLen == (if n - 1 in seen then |m.blocks[n - 1]| else 0)
    && (forall k | 0 <= k < 8 :: Has(s.mask, k) <==> k == 0 || k in seen)
    && (forall k | k in seen :: 0 < k < n)
    && (forall k | 0 <= k < n && (k == 0 || k in seen) ::
          0 <= k * size <= k * size + |m.blocks[k]| <= REASSEMBLY_MAX &&
          s.buf[k * size..k * size + |m.blocks[k]|] == m.blocks[k])
  }

  lemma NextMultiple(j: nat, k: nat, size: nat)
    requires j < k
    ensures j * size + size <= k * size
  {
    assert k * size - (j + 1) * size == (k - (j + 1)) * size >= 0;
  }

  lemma Offsets(m: Message, j: nat, k: nat)
    requires GoodMessage(m) && j < k < |m.blocks|
    ensures j * |m.blocks[0]| + |m.blocks[j]| <= k * |m.blocks[0]|
    ensures k * |m.blocks[0]| + |m.blocks[k]| <= REASSEMBLY_MAX
  {
    var size := |m.blocks[0]|;
    NextMultiple(j, k, size);
    if k < |m.blocks| - 1 {
      NextMultiple(k, |m.blocks| - 1, size);
    }
  }

  /** Storing block `k` leaves the other blocks alone. */
  lemma OverlayKeeps(buf: seq<u8>, m: Message, k: nat, j: nat)
    requires GoodMessage(m) && |buf| == REASSEMBLY_MAX && j < |m.blocks| && 0 < k < |m.blocks|
    ensures var size := |m.blocks[0]|;
            0 <= k * size && k * size + |m.blocks[k]| <= REASSEMBLY_MAX &&
            0 <= j * size && j * size + |m.blocks[j]| <= REASSEMBLY_MAX &&
            var r := Overlay(buf, k * size, m.blocks[k]);
            r[j * size..j * size + |m.blocks[j]|] ==
              if j == k then m.blocks[k] else buf[j * size..j * size + |m.blocks[j]|]
  {
    Offsets(m, k - 1, k);
    if j < k {
      Offsets(m, j, k);
    } else if k < j {
      Offsets(m, k, j);
    }
    OverlaySlices(buf, k * |m.blocks[0]|, m.blocks[k], j * |m.blocks[0]|, j * |m.blocks[0]| + |m.blocks[j]|);
  }

  lemma OverlaySlices(buf: seq<u8>, at: nat, data: seq<u8>, lo: nat, hi: nat)
    requires at + |data| <= |buf| && lo <= hi <= |buf|
    ensures Overlay(buf, at, data)[at..at + |data|] == data
    ensures hi <= at || at + |data| <= lo ==> Overlay(buf, at, data)[lo..hi] == buf[lo..hi]
  {
    var r := Overlay(buf, at, data);
    if hi <= at || at + |data| <= lo {
      forall k | lo <= k < hi ensures r[k] == buf[k] {
        if at + |data| <= k {
          assert r[k] == buf[at + |data|..][k - (at + |data|)];
        }
      }
    }
  }

  lemma FirstBegins(s: State, e: Event, m: Message)
    requires Bounded(s) && GoodMessage(m) && IsFirst(e.rx, m)
    ensures Step(s, e).1 == None && Collecting(Step(s, e).0, m, e.now, {})
  {
    var size := |m.blocks[0]|;
    Offsets(m, 0, 1);
    var r := Step(s, e).0;
    assert r.buf[0..size] == m.blocks[0];
    assert r.lastLen == 0;
    forall k | 0 <= k < 8 ensures Has(0x01, k) <==> k == 0 {
      assert k == 0 || k == 1 || k == 2 || k == 3 || k == 4 || k == 5 || k == 6 || k == 7;
    }
  }

  lemma ContinuationStored(s: State, e: Event, m: Message, start: u32, seen: set<nat>)
    requires Bounded(s) && GoodMessage(m) && IsContinuation(e.rx, m) && Sub32(e.now, start) <= WINDOW_MS
    requires Collecting(s, m, start, seen)
    ensures var stored := Store(s, e);
            stored.Some? && Collecting(stored.value, m, start, seen + {e.rx.aps.block as nat})
  {
    hide Has, WithBit;
    var k: nat := e.rx.aps.block;
    var size := |m.blocks[0]|;
    Offsets(m, k - 1, k);
    var t := Store(s, e).value;
    forall j | 0 <= j < 8 ensures Has(t.mask, j) <==> j == 0 || j in seen + {k} {
      WithBitSets(s.mask, k, j);
    }
    forall j | 0 <= j < |m.blocks| && (j == 0 || j in seen + {k})
      ensures 0 <= j * size <= j * size + |m.blocks[j]| <= REASSEMBLY_MAX &&
              t.buf[j * size..j * size + |m.blocks[j]|] == m.blocks[j]
    {
      OverlayKeeps(s.buf, m, k, j);
    }
  }

  /** Completion is exactly "every block has been seen", and then the buffer starts with the message. */
  lemma FinishedWhenSeen(s: State, m: Message, start: u32, seen: set<nat>)
    requires Bounded(s) && GoodMessage(m) && Collecting(s, m, start, seen)
    ensures Finished(s) <==> forall k: nat | 0 < k < |m.blocks| :: k in seen
    ensures Finished(s) ==> s.buf[..MessageLen(s)] == Join(m.blocks)
  {
    hide Has, Full;
    var n := |m.blocks|;
    FullHasAll(s.mask, n);
    if Finished(s) {
      assert forall k: nat | 0 < k < n :: Has(s.mask, k);
      forall k: nat | k < n
        ensures Placed(s.buf, m, k)
      {
        assert k == 0 || Has(s.mask, k);
      }
      JoinIsPrefix(s.buf, m, n);
      assert m.blocks[..n] == m.blocks;
    }
  }

  /** Block `k` lies at its place in the buffer. */
  predicate Placed(buf: seq<u8>, m: Message, k: nat)
    requires GoodMessage(m) && k < |m.blocks|
  {
    var at := k * |m.blocks[0]|;
    0 <= at <= at + |m.blocks[k]| <= |buf| && buf[at..at + |m.blocks[k]|] == m.blocks[k]
  }

  lemma {:induction false} JoinIsPrefix(buf: seq<u8>, m: Message, n: nat)
    requires GoodMessage(m) && 1 <= n <= |m.blocks| && forall k: nat | k < n :: Placed(buf, m, k)
    ensures var end := (n - 1) * |m.blocks[0]| + |m.blocks[n - 1]|;
            0 <= end <= |buf| && buf[..end] == Join(m.blocks[..n])
  {
    var size, k := |m.blocks[0]|, n - 1;
    assert Placed(buf, m, k);
    assert m.blocks[..n][..k] == m.blocks[..k];
    if n == 1 {
      assert Join(m.blocks[..0]) == [];
    } else {
      JoinIsPrefix(buf, m, k);
      assert (k - 1) * size + size == k * size;
      assert buf[..k * size + |m.blocks[k]|] == buf[..k * size] + m.blocks[k];
    }
  }

  /** The state during the traffic of a message: collecting, or idle once it was reported. */
  predicate InTraffic(s: State, events: seq<Event>, m: Message)
    requires Bounded(s) && GoodMessage(m)
  {
    if Complete(events, m) then s.total == 0 else Collecting(s, m, StartOf(events, m), Seen(events, m))
  }

  lemma SeenSteps(before: seq<Event>, e: Event, m: Message)
    requires GoodMessage(m)
    ensures Seen(before + [e], m) == if IsFirst(e.rx, m) then {}
                                     else if IsContinuation(e.rx, m) then Seen(before, m) + {e.rx.aps.block as nat}
                                     else Seen(before, m)
    ensures StartOf(before + [e], m) == if IsFirst(e.rx, m) then e.now else StartOf(before, m)
  {
    var all := before + [e];
    assert all[..|all| - 1] == before && all[|all| - 1] == e;
  }

  lemma ContinuationStep(s: State, before: seq<Event>, e: Event, m: Message)
    requires Bounded(s) && GoodMessage(m) && InTraffic(s, before, m)
    requires IsContinuation(e.rx, m) && Sub32(e.now, StartOf(before, m)) <= WINDOW_MS
    ensures InTraffic(Step(s, e).0, before + [e], m)
    ensures Step(s, e).1 == if !Complete(before, m) && Complete(before + [e], m) then Some(Join(m.blocks)) else None
  {
    SeenSteps(before, e, m);
    if !Complete(before, m) {
      ContinuationStored(s, e, m, StartOf(before, m), Seen(before, m));
      FinishedWhenSeen(Store(s, e).value, m, StartOf(before, m), Seen(before + [e], m));
    }
  }

  lemma FirstStep(s: State, before: seq<Event>, e: Event, m: Message)
    requires Bounded(s) && GoodMessage(m) && IsFirst(e.rx, m)
    ensures InTraffic(Step(s, e).0, before + [e], m) && !Complete(before + [e], m) && Step(s, e).1 == None
  {
    SeenSteps(before, e, m);
    FirstBegins(s, e, m);
    assert 1 !in Seen(before + [e], m) && 0 < 1 < |m.blocks|;
  }

  lemma {:induction false} StateInTraffic(s: State, events: seq<Event>, m: Message)
    requires Bounded(s) && GoodMessage(m) && Traffic(events, m)
    ensures InTraffic(After(s, events), events, m)
  {
    var n := |events| - 1;
    var e, before := events[n], events[..n];
    assert events == before + [e];
    if IsFirst(e.rx, m) {
      FirstStep(After(s, before), before, e, m);
    } else {
      TrafficPrefix(events, m, n);
      StateInTraffic(s, before, m);
      if Ignored(e.rx) || BadFirst(e.rx) {
        SeenSteps(before, e, m);
      } else {
        ContinuationStep(After(s, before), before, e, m);
      }
    }
  }

  lemma TrafficPrefix(events: seq<Event>, m: Message, n: nat)
    requires GoodMessage(m) && Traffic(events, m) && 0 < n <= |events|
    ensures Traffic(events[..n], m)
  {
    assert forall k | 0 <= k < n :: events[..n][..k] == events[..k];
  }

  /** Order independence: over any traffic of a message, from any state, a call reports the whole message exactly when
      the block it was given is the last one missing, and no other call reports anything but an unfragmented payload. */
  lemma ReportedWhenComplete(s: State, events: seq<Event>, m: Message, i: nat)
    requires Bounded(s) && GoodMessage(m) && Traffic(events, m) && i < |events|
    ensures Report(s, events, i) ==
              if Ignored(events[i].rx) then events[i].rx.aps.payload
              else if !Complete(events[..i], m) && Complete(events[..i + 1], m) then Some(Join(m.blocks))
              else None
  {
    var e, before := events[i], events[..i];
    assert events[..i + 1] == before + [e];
    if IsFirst(e.rx, m) {
      FirstStep(After(s, before), before, e, m);
    } else if BadFirst(e.rx) {
      SeenSteps(before, e, m);
    } else if !Ignored(e.rx) {
      TrafficPrefix(events, m, i);
      StateInTraffic(s, before, m);
      ContinuationStep(After(s, before), before, e, m);
    }
  }

  /** A message is complete at most once between two of its first fragments: blocks that arrive later change nothing. */
  lemma {:induction false} CompleteStays(events: seq<Event>, m: Message, i: nat)
    requires GoodMessage(m) && i <= |events| && Complete(events[..i], m)
    requires forall k | i <= k < |events| :: !IsFirst(events[k].rx, m)
    ensures Complete(events, m)
  {
    if i < |events| {
      var n := |events| - 1;
      assert events[..n][..i] == events[..i];
      CompleteStays(events[..n], m, i);
      assert Seen(events[..n], m) <= Seen(events, m);
    } else {
      assert events[..i] == events;
    }
  }

  /** Exactly once: after a first fragment that is not repeated, two different calls never both report the message. */
  lemma ReportedOnce(s: State, events: seq<Event>, m: Message, i: nat, j: nat)
    requires Bounded(s) && GoodMessage(m) && Traffic(events, m)
    requires forall k | 0 < k < |events| :: !IsFirst(events[k].rx, m)
    requires i < j < |events| && !Ignored(events[i].rx) && !Ignored(events[j].rx)
    ensures Report(s, events, i).None? || Report(s, events, j).None?
  {
    ReportedWhenComplete(s, events, m, i);
    ReportedWhenComplete(s, events, m, j);
    if Complete(events[..i + 1], m) {
      assert events[..j][..i + 1] == events[..i + 1];
      CompleteStays(events[..j], m, i + 1);
    }
  }

  // ------------------------------------------------------------------------------------------------------------------
  // Interference
  // ------------------------------------------------------------------------------------------------------------------

  /** A fragment of another node or another cluster. */
  predicate Foreign(rx: RxFrame, m: Message) {
    rx.nwk.src != m.src || rx.aps.cluster != m.cluster
  }

  /** A continuation that can be taken for one of `m`, begun at `start`. */
  predicate FitsMessage(e: Event, m: Message, start: u32)
    requires GoodMessage(m) && !Ignored(e.rx)
  {
    !Foreign(e.rx, m) && Sub32(e.now, start) <= 5000 && 0 < e.rx.aps.block < |m.blocks| &&
    e.rx.aps.block * |m.blocks[0]| + |e.rx.aps.payload.value| <= 256
  }

  /** The fragments that end the collection of `m`: one that begins a foreign message, and every continuation that does
      not fit, whoever sends it. */
  predicate Destroys(e: Event, m: Message, start: u32)
    requires GoodMessage(m)
  {
    !Ignored(e.rx) && if e.rx.aps.frag == 1 then Foreign(e.rx, m) && GoodFirst(e.rx) else !FitsMessage(e, m, start)
  }

  /** Nothing of `m` is being collected. */
  predicate Lost(s: State, m: Message) {
    s.total == 0 || s.src != m.src || s.cluster != m.cluster
  }

  lemma DestroyedIsLost(s: State, e: Event, m: Message, start: u32, seen: set<nat>)
    requires Bounded(s) && GoodMessage(m) && Collecting(s, m, start, seen) && Destroys(e, m, start)
    ensures Lost(Step(s, e).0, m)
  {
    hide Full, Overlay, WithBit, Has;
  }

  /** While a message is being collected, a foreign frame either destroys the collection or belongs to its traffic, and
      is then without any effect on it; whatever destroys it leaves nothing of it. */
  lemma InterferenceMeans(s: State, events: seq<Event>, e: Event, m: Message)
    requires Bounded(s) && GoodMessage(m) && Traffic(events, m) && !Complete(events, m)
    ensures Destroys(e, m, StartOf(events, m)) ==> Lost(After(s, events + [e]), m)
    ensures Foreign(e.rx, m) ==>
              (!Destroys(e, m, StartOf(events, m)) <==> Traffic(events + [e], m)) &&
              (!Destroys(e, m, StartOf(events, m)) <==> After(s, events + [e]) == After(s, events))
  {
    hide Full, Overlay, WithBit, Has, Complete, Seen;
    var all := events + [e];
    assert all[..|all| - 1] == events && all[|events|] == e;
    StateInTraffic(s, events, m);
    if Destroys(e, m, StartOf(events, m)) {
      DestroyedIsLost(After(s, events), e, m, StartOf(events, m), Seen(events, m));
    } else if Foreign(e.rx, m) {
      TrafficGoesOn(events, e, m);
    }
  }

  lemma TrafficGoesOn(events: seq<Event>, e: Event, m: Message)
    requires GoodMessage(m) && Traffic(events, m) && (Ignored(e.rx) || BadFirst(e.rx))
    ensures Traffic(events + [e], m)
  {
    var all := events + [e];
    forall k | 0 <= k < |events| ensures all[..k] == events[..k] && all[k] == events[k] {
    }
  }

  /** No good first fragment of the sender of `m` in its cluster. */
  predicate NotBegun(events: seq<Event>, m: Message) {
    forall k | 0 <= k < |events| :: GoodFirst(events[k].rx) ==> Foreign(events[k].rx, m)
  }

  lemma {:induction false} LostStays(s: State, events: seq<Event>, m: Message)
    requires Bounded(s) && Lost(s, m) && NotBegun(events, m)
    ensures Lost(After(s, events), m)
  {
    hide Full, Overlay, WithBit;
    if events != [] {
      var before := events[..|events| - 1];
      assert forall k | 0 <= k < |before| :: before[k] == events[k];
      LostStays(s, before, m);
    }
  }

  /** Once a collection is lost, no fragment of its sender in its cluster completes anything before a new first fragment
      of that sender has come. From that one on, `ReportedWhenComplete` holds again, whatever the state. */
  lemma LostUntilBegunAgain(s: State, events: seq<Event>, i: nat, m: Message)
    requires Bounded(s) && Lost(s, m) && NotBegun(events, m) && i < |events|
    requires !Ignored(events[i].rx) && !Foreign(events[i].rx, m)
    ensures Report(s, events, i) == None
  {
    hide Full, Overlay, WithBit;
    LostStays(s, events[..i], m);
  }

  // ------------------------------------------------------------------------------------------------------------------
  // Soundness
  // ------------------------------------------------------------------------------------------------------------------

  predicate ContinuesFirst(first: Event, e: Event, k: nat) {
    !Ignored(e.rx) && e.rx.aps.frag != 1 && e.rx.aps.block == k && e.rx.nwk.src == first.rx.nwk.src &&
    e.rx.aps.cluster == first.rx.aps.cluster && Sub32(e.now, first.now) <= 5000
  }

  /** `f` is the call whose first fragment the state collects for; every block marked as present came after it. */
  predicate Collects(s: State, events: seq<Event>, f: nat) {
    f < |events| && GoodFirst(events[f].rx) &&
    s.total == events[f].rx.aps.block && s.firstLen == |events[f].rx.aps.payload.value| && s.total <= 8 &&
    s.src == events[f].rx.nwk.src && s.cluster == events[f].rx.aps.cluster && s.started == events[f].now &&
    (forall k: nat | 0 < k < s.total && Has(s.mask, k) :: Arrived(events, f, k)) &&
    (s.lastLen != 0 ==>
      exists j :: f < j < |events| && ContinuesFirst(events[f], events[j], s.total - 1) &&
                  s.lastLen == |events[j].rx.aps.payload.value|)
  }

  predicate Arrived(events: seq<Event>, f: nat, k: nat)
    requires f < |events|
  {
    exists j :: f < j < |events| && ContinuesFirst(events[f], events[j], k)
  }

  lemma CollectsStored(s: State, events: seq<Event>, f: nat, e: Event)
    requires Bounded(s) && !Ignored(e.rx) && e.rx.aps.frag != 1 && Fits(s, e)
    requires Collects(s, events, f)
    ensures Collects(Store(s, e).value, events + [e], f)
  {
    var all := events + [e];
    var t := Store(s, e).value;
    var n := |events|;
    assert ContinuesFirst(all[f], all[n], e.rx.aps.block);
    forall k: nat | 0 < k < t.total && Has(t.mask, k) ensures Arrived(all, f, k) {
      WithBitSets(s.mask, e.rx.aps.block, k);
      if k != e.rx.aps.block {
        assert Arrived(events, f, k);
        var j :| f < j < n && ContinuesFirst(events[f], events[j], k);
        assert ContinuesFirst(all[f], all[j], k);
      }
    }
    if t.lastLen != 0 && e.rx.aps.block != s.total - 1 {
      var j :| f < j < n && ContinuesFirst(events[f], events[j], s.total - 1) &&
               s.lastLen == |events[j].rx.aps.payload.value|;
      assert ContinuesFirst(all[f], all[j], t.total - 1) && t.lastLen == |all[j].rx.aps.payload.value|;
    }
  }

  lemma CollectsWeakens(s: State, events: seq<Event>, f: nat, e: Event)
    requires Collects(s, events, f)
    ensures Collects(s, events + [e], f)
  {
    var all := events + [e];
    forall k: nat | 0 < k < s.total && Has(s.mask, k) ensures Arrived(all, f, k) {
      assert Arrived(events, f, k);
      var j :| f < j < |events| && ContinuesFirst(events[f], events[j], k);
      assert ContinuesFirst(all[f], all[j], k);
    }
    if s.lastLen != 0 {
      var j :| f < j < |events| && ContinuesFirst(events[f], events[j], s.total - 1) &&
               s.lastLen == |events[j].rx.aps.payload.value|;
      assert ContinuesFirst(all[f], all[j], s.total - 1) && s.lastLen == |all[j].rx.aps.payload.value|;
    }
  }

  lemma FirstCollects(s: State, events: seq<Event>, e: Event)
    requires Bounded(s) && !Ignored(e.rx) && GoodFirst(e.rx)
    ensures Collects(Store(s, e).value, events + [e], |events|)
  {
    forall k: nat | 0 < k < 8 ensures !Has(0x01, k) {
      assert k == 1 || k == 2 || k == 3 || k == 4 || k == 5 || k == 6 || k == 7;
    }
  }

  /** A fragment that is not a first one. */
  predicate Continues(e: Event) {
    !Ignored(e.rx) && e.rx.aps.frag != 1
  }

  /** Where call `j` stores its fragment, for the message begun by call `f`. */
  function Place(events: seq<Event>, f: nat, j: nat): nat
    requires f < |events| && GoodFirst(events[f].rx) && j < |events|
  {
    events[j].rx.aps.block * |events[f].rx.aps.payload.value|
  }

  /** Call `j` brings a byte for position `p`. */
  predicate Brings(events: seq<Event>, f: nat, j: nat, p: nat)
    requires f < |events| && GoodFirst(events[f].rx) && j < |events|
  {
    if j == f then p < |events[f].rx.aps.payload.value|
    else Continues(events[j]) && Place(events, f, j) <= p < Place(events, f, j) + |events[j].rx.aps.payload.value|
  }

  /** The byte that was brought last for position `p` since the message began with call `f`, if any was. */
  function Brought(events: seq<Event>, f: nat, p: nat): Option<u8>
    requires f < |events| && GoodFirst(events[f].rx)
    decreases |events|
  {
    var n := |events| - 1;
    if Brings(events, f, n, p) then
      Some(events[n].rx.aps.payload.value[if n == f then p else p - Place(events, f, n)])
    else if n == f then None
    else Brought(events[..n], f, p)
  }

  lemma {:induction false} BroughtByOne(events: seq<Event>, f: nat, p: nat)
    requires f < |events| && GoodFirst(events[f].rx)
    ensures Brought(events, f, p).Some? <==> exists j :: f <= j < |events| && Brings(events, f, j, p)
    decreases |events|
  {
    var n := |events| - 1;
    if n > f {
      BroughtByOne(events[..n], f, p);
      forall j | f <= j < n
        ensures Brings(events[..n], f, j, p) == Brings(events, f, j, p)
      {
      }
    }
  }

  /** Position by position, the buffer has what was brought last for this message, or what it had before. */
  ghost predicate Keeps(buf: seq<u8>, before: seq<u8>, events: seq<Event>, f: nat)
    requires |buf| == |before| == REASSEMBLY_MAX && f < |events| && GoodFirst(events[f].rx)
  {
    forall p: nat | p < REASSEMBLY_MAX ::
      buf[p] == if Brought(events, f, p).Some? then Brought(events, f, p).value else before[p]
  }

  lemma BroughtOnwards(events: seq<Event>, f: nat, e: Event, p: nat)
    requires f < |events| && GoodFirst(events[f].rx)
    ensures var all, n := events + [e], |events|;
            Brought(all, f, p) == if Brings(all, f, n, p) then Some(e.rx.aps.payload.value[p - Place(all, f, n)])
                                  else Brought(events, f, p)
  {
    assert (events + [e])[..|events|] == events;
  }

  lemma KeepsWeakens(buf: seq<u8>, before: seq<u8>, events: seq<Event>, f: nat, e: Event)
    requires |buf| == |before| == REASSEMBLY_MAX && f < |events| && GoodFirst(events[f].rx)
    requires Keeps(buf, before, events, f) && !Continues(e)
    ensures Keeps(buf, before, events + [e], f)
  {
    forall p: nat | p < REASSEMBLY_MAX
      ensures Brought(events + [e], f, p) == Brought(events, f, p)
    {
      BroughtOnwards(events, f, e, p);
    }
  }

  lemma KeepsStored(s: State, before: seq<u8>, events: seq<Event>, f: nat, e: Event)
    requires Bounded(s) && |before| == REASSEMBLY_MAX && Collects(s, events, f)
    requires Continues(e) && Fits(s, e) && Keeps(s.buf, before, events, f)
    ensures Keeps(Store(s, e).value.buf, before, events + [e], f)
  {
    hide WithBit, Has;
    var all, n := events + [e], |events|;
    assert Place(all, f, n) == e.rx.aps.block * s.firstLen;
    forall p: nat | p < REASSEMBLY_MAX
      ensures Store(s, e).value.buf[p]
           == if Brought(all, f, p).Some? then Brought(all, f, p).value else before[p]
    {
      BroughtOnwards(events, f, e, p);
    }
  }

  lemma KeepsFirst(s: State, events: seq<Event>, e: Event)
    requires Bounded(s) && !Ignored(e.rx) && GoodFirst(e.rx)
    ensures Keeps(Store(s, e).value.buf, s.buf, events + [e], |events|)
  {
  }

  /** In every reachable state that collects a message, there is the call that began it, and the buffer is as the calls
      since then left it. */
  lemma {:induction false} CollectsForFirst(s: State, events: seq<Event>) returns (f: nat)
    requires Bounded(s) && s.total == 0
    ensures var t := After(s, events);
            t.total != 0 ==> Collects(t, events, f) && Keeps(t.buf, After(s, events[..f]).buf, events, f)
    decreases |events|
  {
    hide Has, Keeps;
    f := 0;
    if events != [] {
      var n := |events| - 1;
      var e, before := events[n], events[..n];
      assert events == before + [e];
      var g := CollectsForFirst(s, before);
      var t := After(s, before);
      if After(s, events).total != 0 {
        if !Ignored(e.rx) && GoodFirst(e.rx) {
          f := n;
          FirstCollects(t, before, e);
          KeepsFirst(t, before, e);
        } else {
          f := g;
          assert events[..f] == before[..f];
          if Ignored(e.rx) || e.rx.aps.frag == 1 {
            CollectsWeakens(t, before, f, e);
            KeepsWeakens(t.buf, After(s, events[..f]).buf, before, f, e);
          } else {
            CollectsStored(t, before, f, e);
            KeepsStored(t, After(s, events[..f]).buf, before, f, e);
          }
        }
      }
    }
  }

  /** A report of `size` bytes at the end of `events` is explained by the fragments since call `f`: call `f` announced
      the message, every block of it arrived after that from the same node and cluster within five seconds, and the
      size is the one the first and the last block say. */
  predicate Explains(events: seq<Event>, f: nat, size: nat) {
    f < |events| && GoodFirst(events[f].rx) &&
    var total: nat := events[f].rx.aps.block;
    (forall k: nat | 0 < k < total :: Arrived(events, f, k)) &&
    exists j :: f < j < |events| && ContinuesFirst(events[f], events[j], total - 1) &&
                size == (total - 1) * |events[f].rx.aps.payload.value| + |events[j].rx.aps.payload.value|
  }

  lemma FinishedExplained(s: State, events: seq<Event>, f: nat)
    requires Bounded(s) && Collects(s, events, f) && Finished(s)
    ensures MessageLen(s) >= 0 && Explains(events, f, MessageLen(s))
  {
    hide Has, Full;
    FullHasAll(s.mask, s.total);
    forall k: nat | 0 < k < s.total ensures Arrived(events, f, k) {
      assert Has(s.mask, k);
    }
  }

  lemma ReportMeansFinished(s: State, e: Event)
    requires Bounded(s) && !Ignored(e.rx) && Step(s, e).1.Some?
    ensures e.rx.aps.frag != 1 && Fits(s, e) && Finished(Store(s, e).value)
    ensures |Step(s, e).1.value| == MessageLen(Store(s, e).value)
  {
    hide Full, Overlay, WithBit;
  }

  /** Over every run from an idle state: a reported message was begun by a call `f`, all its blocks arrived since then,
      and each of its bytes is the one that was brought last for its position since then, or, where none was, what the
      buffer had before the message began. */
  lemma ReportExplained(s: State, events: seq<Event>, i: nat) returns (f: nat)
    requires Bounded(s) && s.total == 0 && i < |events|
    requires !Ignored(events[i].rx) && Report(s, events, i).Some?
    ensures var report := Report(s, events, i).value;
            && Explains(events[..i + 1], f, |report|) && |report| <= REASSEMBLY_MAX
            && forall p: nat | p < |report| ::
                 report[p] == if Brought(events[..i + 1], f, p).Some? then Brought(events[..i + 1], f, p).value
                              else After(s, events[..f]).buf[p]
  {
    hide Has;
    var e, before := events[i], events[..i];
    assert events[..i + 1] == before + [e];
    var t := After(s, before);
    ReportMeansFinished(t, e);
    f := CollectsForFirst(s, before);
    assert before[..f] == events[..f];
    CollectsStored(t, before, f, e);
    KeepsStored(t, After(s, events[..f]).buf, before, f, e);
    FinishedExplained(Store(t, e).value, before + [e], f);
  }

  // ------------------------------------------------------------------------------------------------------------------
  // When every reported byte was received
  // ------------------------------------------------------------------------------------------------------------------

  /** Some fragment since call `f`, of block `k` or an earlier one, reaches the end of block `k`. */
  predicate Reached(events: seq<Event>, f: nat, k: nat)
    requires f < |events| && GoodFirst(events[f].rx)
  {
    exists j :: f < j < |events| && Reaches(events, f, j, k)
  }

  predicate Reaches(events: seq<Event>, f: nat, j: nat, k: nat)
    requires f < |events| && GoodFirst(events[f].rx) && j < |events|
  {
    && Continues(events[j]) && events[j].rx.aps.block <= k
    && Place(events, f, j) + |events[j].rx.aps.payload.value| >= (k + 1) * |events[f].rx.aps.payload.value|
  }

  /** The end of a block shows whether it was reached. */
  lemma EndBrought(events: seq<Event>, f: nat, k: nat)
    requires f < |events| && GoodFirst(events[f].rx) && k > 0
    requires var end := (k + 1) * |events[f].rx.aps.payload.value|;
             end >= 1 && Brought(events, f, end - 1).Some?
    ensures Reached(events, f, k)
  {
    var size := |events[f].rx.aps.payload.value|;
    var end := (k + 1) * size;
    BroughtByOne(events, f, end - 1);
    var j :| f <= j < |events| && Brings(events, f, j, end - 1);
    NextMultiple(1, k + 1, size);
    assert end == k * size + size;
    var block: nat := events[j].rx.aps.block;
    if block > k {
      NextMultiple(k, block, size);
    }
    assert Reaches(events, f, j, k);
  }

  lemma InBlock(p: nat, size: nat)
    requires size > 0
    ensures (p / size) * size <= p < (p / size + 1) * size
  {
    assert p == (p / size) * size + p % size;
  }

  lemma BlockBrought(events: seq<Event>, f: nat, k: nat, p: nat)
    requires f < |events| && GoodFirst(events[f].rx) && Reached(events, f, k)
    requires k * |events[f].rx.aps.payload.value| <= p < (k + 1) * |events[f].rx.aps.payload.value|
    ensures Brought(events, f, p).Some?
  {
    var size := |events[f].rx.aps.payload.value|;
    var j :| f < j < |events| && Reaches(events, f, j, k);
    var block: nat := events[j].rx.aps.block;
    if block < k {
      NextMultiple(block, k, size);
    }
    assert Brings(events, f, j, p);
    BroughtByOne(events, f, p);
  }

  lemma BlockReached(events: seq<Event>, f: nat, size: nat, k: nat)
    requires Explains(events, f, size) && 0 < k < events[f].rx.aps.block - 1
    requires forall p: nat | p < size :: Brought(events, f, p).Some?
    ensures Reached(events, f, k)
  {
    hide Brought, Reached, Arrived;
    var total, first := events[f].rx.aps.block as nat, |events[f].rx.aps.payload.value|;
    NextMultiple(k, total - 1, first);
    NextMultiple(0, k + 1, first);
    assert k * first + first == (k + 1) * first;
    EndBrought(events, f, k);
  }

  /** Every byte of a report of this size was received for its message. */
  predicate AllReceived(events: seq<Event>, f: nat, size: nat)
    requires f < |events| && GoodFirst(events[f].rx)
  {
    forall p: nat | p < size :: Brought(events, f, p).Some?
  }

  /** Each block between the first and the last one was reached to its end. */
  predicate AllReached(events: seq<Event>, f: nat)
    requires f < |events| && GoodFirst(events[f].rx)
  {
    forall k: nat | 0 < k < events[f].rx.aps.block - 1 :: Reached(events, f, k)
  }

  /** The exact condition, on the lengths of the fragments, under which a report holds received bytes only. */
  lemma AllBytesReceived(events: seq<Event>, f: nat, size: nat)
    requires Explains(events, f, size)
    ensures AllReceived(events, f, size) <==> AllReached(events, f)
  {
    hide Arrived, ContinuesFirst, Brought;
    if AllReceived(events, f, size) {
      forall k: nat | 0 < k < events[f].rx.aps.block - 1
        ensures Reached(events, f, k)
      {
        BlockReached(events, f, size, k);
      }
    } else if AllReached(events, f) {
      forall p: nat | p < size
        ensures Brought(events, f, p).Some?
      {
        AnyByteReceived(events, f, size, p);
      }
    }
  }

  lemma LastBlockBrought(events: seq<Event>, f: nat, j: nat, p: nat)
    requires f < j < |events| && GoodFirst(events[f].rx)
    requires ContinuesFirst(events[f], events[j], events[f].rx.aps.block - 1)
    requires var start := (events[f].rx.aps.block - 1) * |events[f].rx.aps.payload.value|;
             start <= p < start + |events[j].rx.aps.payload.value|
    ensures Brought(events, f, p).Some?
  {
    hide Brought;
    assert Brings(events, f, j, p);
    BroughtByOne(events, f, p);
  }

  lemma AnyByteReceived(events: seq<Event>, f: nat, size: nat, p: nat)
    requires Explains(events, f, size) && p < size
    requires forall k: nat | 0 < k < events[f].rx.aps.block - 1 :: Reached(events, f, k)
    ensures Brought(events, f, p).Some?
  {
    var total, first := events[f].rx.aps.block as nat, |events[f].rx.aps.payload.value|;
    hide Brought, Reached, Arrived;
    var k := p / first;
    InBlock(p, first);
    if k == 0 {
      assert Brings(events, f, f, p);
      BroughtByOne(events, f, p);
    } else if k < total - 1 {
      BlockBrought(events, f, k, p);
    } else {
      var j :| f < j < |events| && ContinuesFirst(events[f], events[j], total - 1) &&
               size == (total - 1) * first + |events[j].rx.aps.payload.value|;
      if total - 1 < k {
        NextMultiple(total - 1, k, first);
      }
      LastBlockBrought(events, f, j, p);
    }
  }

  /** It holds for senders that make no block between shorter than the first one. */
  lemma WholeBlocksSuffice(events: seq<Event>, f: nat, size: nat)
    requires Explains(events, f, size)
    requires forall j | f < j < |events| && Continues(events[j]) &&
                        events[j].rx.aps.block < events[f].rx.aps.block - 1 ::
               |events[j].rx.aps.payload.value| >= |events[f].rx.aps.payload.value|
    ensures AllReceived(events, f, size)
  {
    var first := |events[f].rx.aps.payload.value|;
    forall k: nat | 0 < k < events[f].rx.aps.block - 1
      ensures Reached(events, f, k)
    {
      assert Arrived(events, f, k);
      var j :| f < j < |events| && ContinuesFirst(events[f], events[j], k);
      assert k * first + first == (k + 1) * first;
      assert Reaches(events, f, j, k);
    }
    AllBytesReceived(events, f, size);
  }

  function Fragment(frag: u8, block: u8, payload: seq<u8>): RxFrame {
    RxFrame(NO_MAC, NO_NWK, NO_APS.(frag := frag, block := block, payload := Some(payload)))
  }

  /** The state of a collection by such fragments. */
  function Begun(buf: seq<u8>, lastLen: nat, mask: bv8, now: u32): State {
    State(buf, 2, lastLen, mask, 3, 0, 0, now)
  }

  lemma MasksOfThree()
    ensures WithBit(0x01, 1) == 0x03 && WithBit(0x03, 2) == 0x07 && Full(3) == 0x07
  {
  }

  lemma TwoBytesBegin(s: State, now: u32)
    requires Bounded(s)
    ensures Step(s, Event(Fragment(1, 3, [1, 2]), now)) == (Begun([1, 2] + s.buf[2..], 0, 0x01, now), None)
  {
    hide Full;
    MasksOfThree();
    assert Overlay(s.buf, 0, [1, 2]) == [1, 2] + s.buf[2..];
  }

  lemma ShortBlockStored(s: State, now: u32)
    requires |s.buf| == REASSEMBLY_MAX && s == Begun(s.buf, 0, 0x01, now)
    ensures Step(s, Event(Fragment(2, 1, [3]), now)) == (Begun(s.buf[..2] + [3] + s.buf[3..], 0, 0x03, now), None)
  {
    hide Full, WithBit;
    MasksOfThree();
  }

  lemma LastBlockReports(s: State, now: u32)
    requires |s.buf| == REASSEMBLY_MAX && s == Begun(s.buf, 0, 0x03, now)
    ensures Step(s, Event(Fragment(2, 2, [4]), now)).1 == Some(s.buf[..4] + [4])
  {
    hide Full, WithBit;
    MasksOfThree();
    var stored := Store(s, Event(Fragment(2, 2, [4]), now)).value;
    assert stored.buf[..5] == s.buf[..4] + [4];
  }

  /** Without it, a report can hold a byte that nobody sent for it: here block 1 is a byte shorter than the first block,
      and its place is filled by what the buffer had there. */
  lemma StaleByteReported(s: State, now: u32)
    requires Bounded(s)
    ensures var events := [Event(Fragment(1, 3, [1, 2]), now), Event(Fragment(2, 1, [3]), now),
                           Event(Fragment(2, 2, [4]), now)];
            Report(s, events, 2) == Some([1, 2, 3, s.buf[3], 4])
  {
    hide Step;
    var e0, e1 := Event(Fragment(1, 3, [1, 2]), now), Event(Fragment(2, 1, [3]), now);
    var e2 := Event(Fragment(2, 2, [4]), now);
    var events := [e0, e1, e2];
    assert events[..2] == [e0, e1] && [e0, e1][..1] == [e0] && [e0][..0] == [];
    TwoBytesBegin(s, now);
    var t0 := Step(s, e0).0;
    ShortBlockStored(t0, now);
    var t1 := Step(t0, e1).0;
    LastBlockReports(t1, now);
    assert After(s, []) == s && After(s, [e0]) == t0 && After(s, [e0, e1]) == t1;
    assert t1.buf[..4] + [4] == [1, 2, 3, s.buf[3], 4];
  }
}
