/** The life of a frame in the transmit engine over whole runs, told from what the radio reported for it: how often
    it is tried, how it ends, and what its sender finds out. */
module TxTheorems {
  import opened Words
  import opened TxEngine

  // ------------------------------------------------------------------------------------------------------------------
  // What can be seen of a run
  // ------------------------------------------------------------------------------------------------------------------

  /** A job was handed to the radio between these two states. */
  ghost predicate HandedOver(t: Tx, u: Tx) {
    |u.tried| > |t.tried|
  }

  /** The clock when the latest job was handed to the radio. */
  ghost function LaunchedAt(tx: Tx, events: seq<Event>): u32 {
    if events == [] then 0
    else
      var before, e := events[..|events| - 1], events[|events| - 1];
      if e.Process? && HandedOver(Run(tx, before), Run(tx, events)) then e.now else LaunchedAt(tx, before)
  }

  datatype Report = NoReport | Sent | Unsent

  /** What is reported for the job in flight: success is 0 and -1 is nothing yet, which counts as a failure once 300 ms
      have gone by. */
  function ReportOf(e: Event, launchedAt: u32): Report {
    if !e.Process? then NoReport
    else if e.r.result == 0 then Sent
    else if e.r.result != -1 || Sub32(e.now, launchedAt) >= 300 then Unsent
    else NoReport
  }

  /** The report of event `e` after `events` is about job `n`. */
  ghost predicate Reported(tx: Tx, events: seq<Event>, e: Event, n: nat, what: Report) {
    Run(tx, events).active && Run(tx, events).cur.number == n && ReportOf(e, LaunchedAt(tx, events)) == what
  }

  /** The radio did not even take job `n`. */
  ghost predicate Refused(tx: Tx, events: seq<Event>, e: Event, n: nat) {
    var t, u := Run(tx, events), Next(Run(tx, events), e);
    e.Process? && HandedOver(t, u) && u.tried[|u.tried| - 1] == n && !e.r.accepts
  }

  /** The full queue lost job `n`, which was its oldest. */
  ghost predicate Overflowed(tx: Tx, events: seq<Event>, e: Event, n: nat) {
    var q := Run(tx, events).queue;
    e.QueueFrame? && |q| > 16 && q[0].number == n
  }

  /** How often each of these happened to job `n`. */
  datatype Tally = Tally(sent: nat, failed: nat, refused: nat, lost: nat)

  function One(b: bool): nat {
    if b then 1 else 0
  }

  ghost function TallyOf(tx: Tx, events: seq<Event>, n: nat): Tally
    decreases |events|, 0
  {
    if events == [] then Tally(0, 0, 0, 0)
    else
      TallyAfter(tx, events[..|events| - 1], events[|events| - 1], n)
  }

  ghost function TallyAfter(tx: Tx, before: seq<Event>, e: Event, n: nat): Tally
    decreases |before|, 1
  {
    var t := TallyOf(tx, before, n);
    Tally(t.sent + One(Reported(tx, before, e, n, Sent)), t.failed + One(Reported(tx, before, e, n, Unsent)),
          t.refused + One(Refused(tx, before, e, n)), t.lost + One(Overflowed(tx, before, e, n)))
  }

  // ------------------------------------------------------------------------------------------------------------------
  // The fate of a job
  // ------------------------------------------------------------------------------------------------------------------

  ghost predicate InFlight(t: Tx, n: nat) {
    t.active && t.cur.number == n
  }

  ghost predicate Waits(t: Tx, n: nat) {
    exists k :: 0 <= k < |t.queue| && t.queue[k].number == n
  }

  /** A job not queued yet has seen nothing; one that waits has failed as often as it was tried, and fewer than
      three times; one in flight was tried once more than that; and any other one ended in exactly one way: sent,
      refused, lost, or failed three times. */
  ghost predicate Fate(t: Tx, n: nat, y: Tally) {
    var tries := Count(t.tried, n);
    if n == 0 || n > t.issued then y == Tally(0, 0, 0, 0)
    else if InFlight(t, n) then 1 <= tries <= 3 && y == Tally(0, tries - 1, 0, 0) && t.cur.attempts == tries
    else if Waits(t, n) then y == Tally(0, tries, 0, 0) && tries < 3
    else
      || (tries > 0 && y == Tally(1, tries - 1, 0, 0))
      || (tries > 0 && y == Tally(0, tries - 1, 1, 0))
      || (y == Tally(0, tries, 0, 1) && tries < 3)
      || (y == Tally(0, 3, 0, 0) && tries == 3)
  }

  /** The waiting jobs but the first have not been tried, nor has the first while another is in flight. */
  predicate RetryInFront(t: Tx) {
    forall k | (if t.active then 0 else 1) <= k < |t.queue| :: t.queue[k].attempts == 0
  }

  lemma NextKeepsFront(t: Tx, e: Event)
    requires RetryInFront(t)
    ensures RetryInFront(Next(t, e))
  {
    match e
    case QueueFrame(f) =>
    case Process(now, r) => assert RetryInFront(Settle(t, now, r));
  }

  lemma PendingNumbers(t: Tx, k: nat)
    requires TxInv(t) && k < |t.queue|
    ensures t.done < t.queue[k].number <= t.issued && t.queue[k].attempts == Count(t.tried, t.queue[k].number)
    ensures t.queue[k].attempts < 3 && (t.active ==> t.cur.number < t.queue[k].number)
    ensures k > 0 ==> t.queue[0].number < t.queue[k].number
  {
    var p := Pending(t);
    var at := if t.active then k + 1 else k;
    assert p[at] == t.queue[k];
    assert t.active ==> p[0] == t.cur;
    assert p[at - k] == t.queue[0];
  }

  lemma FlightNumber(t: Tx)
    requires TxInv(t) && t.active
    ensures t.done < t.cur.number <= t.issued && t.cur.attempts == Count(t.tried, t.cur.number)
    ensures 1 <= t.cur.attempts <= 3
  {
    assert Pending(t)[0] == t.cur;
  }

  lemma UntriedAbove(t: Tx, n: nat)
    requires TxInv(t) && n > t.issued
    ensures Count(t.tried, n) == 0
  {
  }

  lemma QueueFate(t: Tx, f: Outgoing, n: nat, y: Tally)
    requires TxInv(t) && Fate(t, n, y)
    ensures Fate(QueueTx(t, f), n, y.(lost := y.lost + One(|t.queue| > 16 && t.queue[0].number == n)))
  {
    hide TxInv, Count;
    var u := QueueTx(t, f);
    var kept := if |t.queue| > MAX_QUEUED then t.queue[1..] else t.queue;
    assert u.queue[|kept|].number == t.issued + 1;
    if n == t.issued + 1 {
      UntriedAbove(t, n);
      assert Waits(u, n);
      if |t.queue| > 0 {
        PendingNumbers(t, 0);
      }
      if t.active {
        FlightNumber(t);
      }
    } else {
      KeptWaits(t, kept, n);
      assert forall k | 0 <= k < |kept| :: u.queue[k] == kept[k];
      assert Waits(u, n) <==> exists k :: 0 <= k < |kept| && kept[k].number == n;
    }
  }

  lemma KeptWaits(t: Tx, kept: seq<TxJob>, n: nat)
    requires TxInv(t) && kept == if |t.queue| > MAX_QUEUED then t.queue[1..] else t.queue
    ensures (exists k :: 0 <= k < |kept| && kept[k].number == n)
       <==> Waits(t, n) && !(|t.queue| > 16 && t.queue[0].number == n)
    ensures |t.queue| > 16 ==> Waits(t, t.queue[0].number) && !InFlight(t, t.queue[0].number)
    ensures |t.queue| > 16 ==> 0 < t.queue[0].number <= t.issued
  {
    hide TxInv;
    if |t.queue| > 16 {
      PendingNumbers(t, 0);
      if Waits(t, n) && t.queue[0].number != n {
        var k :| 0 <= k < |t.queue| && t.queue[k].number == n;
        assert kept[k - 1] == t.queue[k];
      }
      forall k | 0 <= k < |kept| ensures kept[k].number != t.queue[0].number {
        PendingNumbers(t, k + 1);
      }
      forall k | 0 <= k < |kept| ensures kept[k] == t.queue[k + 1] {
      }
    }
  }

  lemma SettleFate(t: Tx, now: u32, r: Radio, n: nat, y: Tally)
    requires TxInv(t) && Fate(t, n, y)
    ensures var what := if t.active then Result(t, now, r) else None;
            Fate(Settle(t, now, r), n,
                 y.(sent := y.sent + One(InFlight(t, n) && what == Some(0)),
                    failed := y.failed + One(InFlight(t, n) && what.Some? && what.value != 0)))
  {
    hide TxInv, Count;
    var u := Settle(t, now, r);
    if t.active && Result(t, now, r).Some? {
      FlightNumber(t);
      NotWaiting(t);
      RequeuedWaits(t, n);
    }
  }

  lemma NotWaiting(t: Tx)
    requires TxInv(t) && t.active
    ensures !Waits(t, t.cur.number)
  {
    hide TxInv;
    forall k | 0 <= k < |t.queue| ensures t.queue[k].number != t.cur.number {
      PendingNumbers(t, k);
    }
  }

  lemma RequeuedWaits(t: Tx, n: nat)
    ensures Waits(t.(queue := [t.cur] + t.queue), n) <==> t.cur.number == n || Waits(t, n)
  {
    var q := [t.cur] + t.queue;
    assert q[0] == t.cur;
    if Waits(t, n) {
      var k :| 0 <= k < |t.queue| && t.queue[k].number == n;
      assert q[k + 1].number == n;
    }
  }

  lemma LaunchFate(t: Tx, now: u32, r: Radio, n: nat, y: Tally)
    requires TxInv(t) && Fate(t, n, y)
    ensures Fate(Launch(t, now, r), n,
                 y.(refused := y.refused + One(Launches(t, now, r) && t.queue[0].number == n && !r.accepts)))
  {
    hide TxInv, Count;
    var u := Launch(t, now, r);
    if Launches(t, now, r) {
      PendingNumbers(t, 0);
      CountSteps(t.tried, t.queue[0].number);
      FirstGone(t, n);
    }
  }

  lemma FirstGone(t: Tx, n: nat)
    requires TxInv(t) && t.queue != []
    ensures (exists k :: 0 <= k < |t.queue[1..]| && t.queue[1..][k].number == n)
       <==> Waits(t, n) && t.queue[0].number != n
  {
    hide TxInv;
    if Waits(t, n) && t.queue[0].number != n {
      var k :| 0 <= k < |t.queue| && t.queue[k].number == n;
      assert t.queue[1..][k - 1].number == n;
    }
    forall k | 0 <= k < |t.queue[1..]| ensures t.queue[1..][k].number != t.queue[0].number {
      PendingNumbers(t, k + 1);
    }
  }

  // ------------------------------------------------------------------------------------------------------------------
  // Over whole runs
  // ------------------------------------------------------------------------------------------------------------------

  lemma HandedOverIs(t: Tx, now: u32, r: Radio)
    ensures var m, u := Settle(t, now, r), ProcessTx(t, now, r);
            && m.tried == t.tried && m.issued == t.issued
            && (HandedOver(t, u) <==> Launches(m, now, r))
            && (Launches(m, now, r) ==>
                  m.queue != [] && u.tried == t.tried + [m.queue[0].number] && u.cur.number == m.queue[0].number &&
                  u.cur.frame == m.queue[0].frame && u.active == r.accepts && (u.active ==> u.started == now))
            && (!Launches(m, now, r) ==> u == m)
  {
  }

  lemma SettleKeepsStart(t: Tx, now: u32, r: Radio)
    ensures Settle(t, now, r).active ==> t.active && Settle(t, now, r).started == t.started
  {
  }

  lemma {:induction false} StartedIs(tx: Tx, events: seq<Event>)
    requires Initial(tx)
    ensures Run(tx, events).active ==> Run(tx, events).started == LaunchedAt(tx, events)
  {
    if events != [] {
      hide Settle, Launch;
      var n := |events| - 1;
      StartedIs(tx, events[..n]);
      var t := Run(tx, events[..n]);
      match events[n]
      case QueueFrame(f) =>
      case Process(now, r) =>
        HandedOverIs(t, now, r);
        SettleKeepsStart(t, now, r);
    }
  }

  lemma ReportIsResult(tx: Tx, events: seq<Event>, now: u32, r: Radio, n: nat)
    requires Initial(tx)
    ensures var t, e := Run(tx, events), Process(now, r);
            var what := if t.active then Result(t, now, r) else None;
            && (Reported(tx, events, e, n, Sent) <==> InFlight(t, n) && what == Some(0))
            && (Reported(tx, events, e, n, Unsent) <==> InFlight(t, n) && what.Some? && what.value != 0)
  {
    StartedIs(tx, events);
  }

  lemma CallFate(tx: Tx, before: seq<Event>, now: u32, r: Radio, n: nat)
    requires Initial(tx) && Fate(Run(tx, before), n, TallyOf(tx, before, n))
    ensures Fate(ProcessTx(Run(tx, before), now, r), n, TallyAfter(tx, before, Process(now, r), n))
  {
    hide Settle, Launch, Fate, TxInv, Run, TallyOf, Reported;
    var t, y := Run(tx, before), TallyOf(tx, before, n);
    RunKeepsInv(tx, before);
    ReportIsResult(tx, before, now, r, n);
    SettleFate(t, now, r, n, y);
    SettleKeepsInv(t, now, r);
    HandedOverIs(t, now, r);
    var what := if t.active then Result(t, now, r) else None;
    LaunchFate(Settle(t, now, r), now, r, n,
               y.(sent := y.sent + One(InFlight(t, n) && what == Some(0)),
                  failed := y.failed + One(InFlight(t, n) && what.Some? && what.value != 0)));
  }

  /** Over every run: every job has the fate its reports say. */
  lemma {:induction false} JobsHaveTheirFate(tx: Tx, events: seq<Event>, n: nat)
    requires Initial(tx)
    ensures Fate(Run(tx, events), n, TallyOf(tx, events, n))
    decreases |events|
  {
    hide ProcessTx, Fate, TxInv, QueueTx, Reported, Refused;
    if events == [] {
      NoFate(tx, n);
    } else {
      var m := |events| - 1;
      var before, e := events[..m], events[m];
      JobsHaveTheirFate(tx, before, n);
      match e
      case QueueFrame(f) =>
        RunKeepsInv(tx, before);
        QueueFate(Run(tx, before), f, n, TallyOf(tx, before, n));
        OnlyCallsReport(tx, before, f, n);
      case Process(now, r) =>
        CallFate(tx, before, now, r, n);
    }
  }

  lemma OnlyCallsReport(tx: Tx, before: seq<Event>, f: Outgoing, n: nat)
    ensures !Reported(tx, before, QueueFrame(f), n, Sent) && !Reported(tx, before, QueueFrame(f), n, Unsent)
    ensures !Refused(tx, before, QueueFrame(f), n)
  {
  }

  lemma NoFate(tx: Tx, n: nat)
    requires Initial(tx)
    ensures Fate(Run(tx, []), n, TallyOf(tx, [], n))
  {
  }

  /** Job `n` is still to be sent. */
  ghost predicate IsPending(t: Tx, n: nat) {
    exists k :: 0 <= k < |Pending(t)| && Pending(t)[k].number == n
  }

  lemma PendingMeans(t: Tx, n: nat)
    ensures IsPending(t, n) <==> InFlight(t, n) || Waits(t, n)
  {
    hide Pending;
    var p, skip := Pending(t), if t.active then 1 else 0;
    PendingIs(t);
    if Waits(t, n) {
      var k :| 0 <= k < |t.queue| && t.queue[k].number == n;
      assert p[k + skip].number == n;
    }
    if InFlight(t, n) {
      assert p[0].number == n;
    }
    if IsPending(t, n) {
      var k :| 0 <= k < |p| && p[k].number == n;
      if k >= skip {
        assert t.queue[k - skip] == p[k];
      }
    }
  }

  lemma PendingIs(t: Tx)
    ensures var p, skip := Pending(t), if t.active then 1 else 0;
            |p| == |t.queue| + skip && (t.active ==> p[0] == t.cur) &&
            forall k | 0 <= k < |t.queue| :: p[k + skip] == t.queue[k]
  {
  }

  /** Over every run: a job that is over has ended in exactly one of four ways. The radio reported it sent; or it
      did not take it; or the full queue lost it; or the radio reported three failures. It was handed over once for
      each report and refusal, so that the third failure, and no earlier one, ends it. */
  lemma HowJobsEnd(tx: Tx, events: seq<Event>, n: nat)
    requires Initial(tx) && 0 < n <= Run(tx, events).issued && !IsPending(Run(tx, events), n)
    ensures var y, tries := TallyOf(tx, events, n), Count(Run(tx, events).tried, n);
            && tries == y.sent + y.failed + y.refused
            && y.sent + y.refused + y.lost + One(y.failed == 3) == 1
            && y.failed <= 3
  {
    hide Run, TallyOf, Pending, Count;
    JobsHaveTheirFate(tx, events, n);
    TriedAtMostThrice(tx, events, n);
    PendingMeans(Run(tx, events), n);
  }

  /** Over every run: a job that is still to be sent has failed fewer than three times and seen nothing else, and
      was handed over once for each failure and once more if it is in flight. If it has failed and is not in flight,
      it is the first to be handed over next. */
  lemma RetriedUntilThen(tx: Tx, events: seq<Event>, n: nat)
    requires Initial(tx) && IsPending(Run(tx, events), n)
    ensures var t, y := Run(tx, events), TallyOf(tx, events, n);
            && y == Tally(0, y.failed, 0, 0) && y.failed < 3
            && Count(t.tried, n) == y.failed + One(InFlight(t, n))
            && (y.failed > 0 && !InFlight(t, n) ==> Pending(t)[0].number == n)
  {
    hide Run, TallyOf, Count;
    var t := Run(tx, events);
    JobsHaveTheirFate(tx, events, n);
    RunKeepsInv(tx, events);
    FrontOverRun(tx, events);
    PendingMeans(t, n);
    if !InFlight(t, n) {
      var k :| 0 <= k < |t.queue| && t.queue[k].number == n;
      PendingNumbers(t, k);
    } else {
      FlightNumber(t);
    }
  }

  lemma {:induction false} FrontOverRun(tx: Tx, events: seq<Event>)
    requires Initial(tx)
    ensures RetryInFront(Run(tx, events))
  {
    if events != [] {
      FrontOverRun(tx, events[..|events| - 1]);
      NextKeepsFront(Run(tx, events[..|events| - 1]), events[|events| - 1]);
    }
  }

  // ------------------------------------------------------------------------------------------------------------------
  // What the sender finds out
  // ------------------------------------------------------------------------------------------------------------------

  lemma TallyNext(tx: Tx, before: seq<Event>, e: Event, n: nat)
    ensures TallyOf(tx, before + [e], n) == TallyAfter(tx, before, e, n)
    ensures Run(tx, before + [e]) == Next(Run(tx, before), e)
  {
    assert (before + [e])[..|before|] == before;
  }

  /** Only jobs that are pending, or are being queued, have anything happen to them. */
  lemma DoneIsOver(tx: Tx, events: seq<Event>)
    requires Initial(tx)
    ensures !IsPending(Run(tx, events), Run(tx, events).done) && Run(tx, events).done <= Run(tx, events).issued
  {
    RunKeepsInv(tx, events);
  }

  lemma OverIsOver(tx: Tx, before: seq<Event>, e: Event, n: nat)
    requires Initial(tx) && 0 < n <= Run(tx, before).issued && !IsPending(Run(tx, before), n)
    ensures TallyOf(tx, before + [e], n) == TallyOf(tx, before, n)
  {
    hide Run, TallyOf, Count, Fate, TxInv;
    TallyNext(tx, before, e, n);
    PendingMeans(Run(tx, before), n);
    RunKeepsInv(tx, before);
    if e.QueueFrame? {
      KeptWaits(Run(tx, before), if |Run(tx, before).queue| > MAX_QUEUED then Run(tx, before).queue[1..]
                                 else Run(tx, before).queue, n);
    } else {
      NothingRefused(tx, before, e, n);
    }
  }

  lemma NothingRefused(tx: Tx, before: seq<Event>, e: Event, n: nat)
    requires Initial(tx) && e.Process? && TxInv(Run(tx, before)) && !InFlight(Run(tx, before), n)
    requires !Waits(Run(tx, before), n)
    ensures !Refused(tx, before, e, n)
  {
    hide Run, Count, TxInv, Launch;
    var t := Run(tx, before);
    HandedOverIs(t, e.now, e.r);
    if t.active {
      RequeuedWaits(t, n);
    }
    var m := Settle(t, e.now, e.r);
    assert Waits(m, n) ==> Waits(t, n);
    assert m.queue != [] && m.queue[0].number == n ==> Waits(m, n);
  }

  /** The two ways the last done job changes in one call: the job in flight ends, then another is refused. */
  lemma DoneChanges(t: Tx, now: u32, r: Radio)
    ensures var m, u := Settle(t, now, r), ProcessTx(t, now, r);
            var what := if t.active then Result(t, now, r) else None;
            && ((m.done == t.done && m.lastOk == t.lastOk)
                || (t.active && m.done == t.cur.number && what.Some? && (m.lastOk <==> what == Some(0))))
            && (if Launches(m, now, r) && !r.accepts then u.done == m.queue[0].number && !u.lastOk
                else u.done == m.done && u.lastOk == m.lastOk)
  {
  }

  lemma SentNow(tx: Tx, before: seq<Event>, now: u32, r: Radio)
    requires Initial(tx)
    ensures var t, u, e := Run(tx, before), Next(Run(tx, before), Process(now, r)), Process(now, r);
            if u.done == t.done then u.lastOk == t.lastOk
            else (InFlight(t, u.done) || Waits(t, u.done)) && (u.lastOk <==> Reported(tx, before, e, u.done, Sent))
  {
    hide Run, Count, Launch, Settle;
    var t := Run(tx, before);
    RunKeepsInv(tx, before);
    var m := Settle(t, now, r);
    SettleKeepsInv(t, now, r);
    DoneChanges(t, now, r);
    ReportIsResult(tx, before, now, r, ProcessTx(t, now, r).done);
    SettleMoves(t, now, r);
    if t.active {
      FlightNumber(t);
      RequeuedWaits(t, ProcessTx(t, now, r).done);
      NotWaiting(t);
    }
    if m.queue != [] {
      PendingNumbers(m, 0);
      assert Waits(m, m.queue[0].number);
    }
  }

  lemma SettleMoves(t: Tx, now: u32, r: Radio)
    ensures var m := Settle(t, now, r);
            var what := if t.active then Result(t, now, r) else None;
            (m.queue == t.queue || (m.queue == [t.cur] + t.queue && t.active && what.Some? && what.value != 0)) &&
            (!m.active && m.queue == t.queue && t.active ==> m.done == t.cur.number)
  {
  }

  lemma PendingIsFresh(tx: Tx, before: seq<Event>, n: nat)
    requires Initial(tx) && n > 0 && (InFlight(Run(tx, before), n) || Waits(Run(tx, before), n))
    ensures TallyOf(tx, before, n).sent == 0 && TallyOf(tx, before, n).lost == 0
  {
    hide Run, TallyOf, Count;
    JobsHaveTheirFate(tx, before, n);
    RunKeepsInv(tx, before);
    var t := Run(tx, before);
    if InFlight(t, n) {
      FlightNumber(t);
    } else {
      var k :| 0 <= k < |t.queue| && t.queue[k].number == n;
      PendingNumbers(t, k);
    }
  }

  lemma FlagStep(tx: Tx, before: seq<Event>, e: Event)
    requires Initial(tx)
    requires var t := Run(tx, before);
             t.done > 0 ==>
                (t.lastOk <==> TallyOf(tx, before, t.done).sent == 1) && TallyOf(tx, before, t.done).lost == 0
    ensures var u := Run(tx, before + [e]);
            u.done > 0 ==>
              && (u.lastOk <==> TallyOf(tx, before + [e], u.done).sent == 1)
              && TallyOf(tx, before + [e], u.done).lost == 0
  {
    hide ProcessTx, TxInv, Run, TallyOf, Pending, IsPending, Count, Waits, Reported, Refused;
    var t, u := Run(tx, before), Run(tx, before + [e]);
    TallyNext(tx, before, e, u.done);
    DoneIsOver(tx, before);
    match e
    case QueueFrame(f) =>
      if t.done > 0 {
        OverIsOver(tx, before, e, t.done);
      }
    case Process(now, r) =>
      SentNow(tx, before, now, r);
      if u.done != t.done {
        if u.done > 0 {
          PendingIsFresh(tx, before, u.done);
        }
      } else if t.done > 0 {
        OverIsOver(tx, before, e, t.done);
      }
  }

  /** Over every run: the test `tx_done_id_` answers with is about a job that is over, which was not lost, and the
      flag that goes with it is whether the radio reported it sent. */
  lemma {:induction false} FlagIsOutcome(tx: Tx, events: seq<Event>)
    requires Initial(tx)
    ensures var t := Run(tx, events);
            t.done > 0 ==>
              && !IsPending(t, t.done) && t.done <= t.issued
              && (t.lastOk <==> TallyOf(tx, events, t.done).sent == 1)
              && TallyOf(tx, events, t.done).lost == 0
  {
    DoneIsOver(tx, events);
    if events == [] {
      assert Run(tx, events) == tx;
    } else {
      hide Next, Fate, TxInv, Run, TallyOf, Pending, IsPending;
      var m := |events| - 1;
      var before, e := events[..m], events[m];
      assert events == before + [e];
      FlagIsOutcome(tx, before);
      FlagStep(tx, before, e);
    }
  }

  // ------------------------------------------------------------------------------------------------------------------
  // Which frames, and in which order
  // ------------------------------------------------------------------------------------------------------------------

  /** The frames queued in a run, in order. */
  function QueuedFrames(events: seq<Event>): seq<Outgoing> {
    if events == [] then []
    else
      var e := events[|events| - 1];
      QueuedFrames(events[..|events| - 1]) + if e.QueueFrame? then [e.f] else []
  }

  /** Every job holds the frame it was queued with. */
  ghost predicate Genuine(t: Tx, frames: seq<Outgoing>) {
    && |frames| == t.issued
    && (t.active ==> 0 < t.cur.number <= |frames| && t.cur.frame == frames[t.cur.number - 1])
    && forall k | 0 <= k < |t.queue| ::
         0 < t.queue[k].number <= |frames| && t.queue[k].frame == frames[t.queue[k].number - 1]
  }

  lemma SettleGenuine(t: Tx, now: u32, r: Radio, frames: seq<Outgoing>)
    requires Genuine(t, frames)
    ensures Genuine(Settle(t, now, r), frames)
  {
  }

  lemma LaunchGenuine(t: Tx, now: u32, r: Radio, frames: seq<Outgoing>)
    requires Genuine(t, frames)
    ensures Genuine(Launch(t, now, r), frames)
    ensures var u := Launch(t, now, r);
            HandedOver(t, u) ==> 0 < u.cur.number <= |frames| && u.cur.frame == frames[u.cur.number - 1] &&
                                 u.tried[|u.tried| - 1] == u.cur.number
  {
  }

  lemma QueueGenuine(t: Tx, f: Outgoing, frames: seq<Outgoing>)
    requires Genuine(t, frames)
    ensures Genuine(QueueTx(t, f), frames + [f])
  {
    var u := QueueTx(t, f);
    var kept := if |t.queue| > MAX_QUEUED then t.queue[1..] else t.queue;
    forall k | 0 <= k < |u.queue|
      ensures 0 < u.queue[k].number <= |frames| + 1 && u.queue[k].frame == (frames + [f])[u.queue[k].number - 1]
    {
      if k < |kept| {
        assert u.queue[k] == kept[k];
      }
    }
  }

  lemma {:induction false} AllGenuine(tx: Tx, events: seq<Event>)
    requires Initial(tx)
    ensures Genuine(Run(tx, events), QueuedFrames(events))
  {
    if events != [] {
      hide Settle, Launch;
      var n := |events| - 1;
      AllGenuine(tx, events[..n]);
      var t, frames := Run(tx, events[..n]), QueuedFrames(events[..n]);
      match events[n]
      case QueueFrame(f) =>
        QueueGenuine(t, f, frames);
      case Process(now, r) =>
        assert frames + [] == frames;
        SettleGenuine(t, now, r, frames);
        LaunchGenuine(Settle(t, now, r), now, r, frames);
    }
  }

  /** Over every run: what is handed to the radio is the frame that was queued under the number of the job, and the
      numbers of the jobs handed over never go back: frames go out in the order they were queued in, retries before
      anything newer. */
  lemma HandedOverInOrder(tx: Tx, events: seq<Event>, now: u32, r: Radio)
    requires Initial(tx) && HandedOver(Run(tx, events), Run(tx, events + [Process(now, r)]))
    ensures var t, u := Run(tx, events), Run(tx, events + [Process(now, r)]);
            var n := u.tried[|u.tried| - 1];
            && u.tried[..|t.tried|] == t.tried && |u.tried| == |t.tried| + 1
            && 0 < n <= |QueuedFrames(events)| && u.cur.frame == QueuedFrames(events)[n - 1]
            && (forall k | 0 <= k < |t.tried| :: t.tried[k] <= n)
  {
    hide Settle, Launch, Run;
    var t, m := Run(tx, events), Settle(Run(tx, events), now, r);
    TallyNext(tx, events, Process(now, r), 0);
    AllGenuine(tx, events);
    HandedOverIs(t, now, r);
    SettleGenuine(t, now, r, QueuedFrames(events));
    TriedBelow(tx, events);
    RunKeepsInv(tx, events);
    SettleKeepsInv(t, now, r);
    SettleBelow(t, now, r);
  }

  /** Nothing newer than what is pending has been tried. */
  ghost predicate Below(t: Tx) {
    forall k, j | 0 <= k < |t.tried| && 0 <= j < |Pending(t)| :: t.tried[k] <= Pending(t)[j].number
  }

  lemma SettleBelow(t: Tx, now: u32, r: Radio)
    requires Below(t)
    ensures Below(Settle(t, now, r))
    ensures var m := Settle(t, now, r);
            !m.active && m.queue != [] ==> forall k | 0 <= k < |m.tried| :: m.tried[k] <= m.queue[0].number
  {
    hide Settle;
    SettlePending(t, now, r);
    var m := Settle(t, now, r);
    if !m.active && m.queue != [] {
      assert Pending(m)[0] == m.queue[0];
    }
  }

  lemma LaunchBelow(t: Tx, now: u32, r: Radio)
    requires Below(t) && TxInv(t)
    ensures Below(Launch(t, now, r))
  {
    hide Launch;
    if Launches(t, now, r) {
      LaunchPending(t, now, r);
      HandedBelow(t, Launch(t, now, r), r.accepts);
    } else {
      NoLaunch(t, now, r);
    }
  }

  lemma HandedBelow(t: Tx, u: Tx, accepts: bool)
    requires Below(t) && TxInv(t) && Handed(Pending(t), t.done, accepts, Pending(u), u.done)
    requires u.tried == t.tried + [Pending(t)[0].number]
    ensures Below(u)
  {
    hide Pending;
    var p, q := Pending(t), Pending(u);
    forall k, j | 0 <= k < |u.tried| && 0 <= j < |q| ensures u.tried[k] <= q[j].number {
      var i := if accepts then j else j + 1;
      assert q[j].number == p[i].number;
      assert i > 0 ==> p[0].number < p[i].number;
    }
  }

  lemma NoLaunch(t: Tx, now: u32, r: Radio)
    requires !Launches(t, now, r)
    ensures Launch(t, now, r) == t
  {
  }

  lemma QueueBelow(t: Tx, f: Outgoing)
    requires Below(t) && TxInv(t)
    ensures Below(QueueTx(t, f))
  {
    hide QueueTx, Pending;
    var lost := QueuePending(t, f);
    TriedIssued(t);
    QueueTries(t, f);
    var p, q := Pending(t), Pending(QueueTx(t, f));
    forall k, j | 0 <= k < |t.tried| && 0 <= j < |q| ensures t.tried[k] <= q[j].number {
      if j < |q| - 1 {
        assert q[j] == p[if lost == -1 || j < lost then j else j + 1];
      }
    }
  }

  lemma QueueTries(t: Tx, f: Outgoing)
    ensures QueueTx(t, f).tried == t.tried
  {
  }

  lemma TriedIssued(t: Tx)
    requires TxInv(t)
    ensures forall k | 0 <= k < |t.tried| :: t.tried[k] <= t.issued
  {
    forall k | 0 <= k < |t.tried| ensures t.tried[k] <= t.issued {
      CountIsPositive(t.tried, k);
    }
  }

  lemma {:induction false} CountIsPositive(numbers: seq<nat>, k: nat)
    requires k < |numbers|
    ensures Count(numbers, numbers[k]) > 0
    decreases |numbers|
  {
    var n := |numbers| - 1;
    if k < n {
      CountIsPositive(numbers[..n], k);
    }
  }

  lemma {:induction false} TriedBelow(tx: Tx, events: seq<Event>)
    requires Initial(tx)
    ensures Below(Run(tx, events))
  {
    if events != [] {
      hide Settle, Launch, QueueTx, Below, TxInv;
      var n := |events| - 1;
      TriedBelow(tx, events[..n]);
      RunKeepsInv(tx, events[..n]);
      var t := Run(tx, events[..n]);
      match events[n]
      case QueueFrame(f) => QueueBelow(t, f);
      case Process(now, r) =>
        SettleBelow(t, now, r);
        SettleKeepsInv(t, now, r);
        LaunchBelow(Settle(t, now, r), now, r);
    } else {
      NothingTried(tx);
    }
  }

  lemma NothingTried(tx: Tx)
    requires Initial(tx)
    ensures Below(Run(tx, []))
  {
  }

  lemma AddIs(a: u32, b: u32)
    ensures Add32(a, b) == if a + b < TWO32 then a + b else a + b - TWO32
  {
  }

  lemma SubIs(a: u32, b: u32)
    ensures Sub32(a, b) == if a >= b then a - b else a - b + TWO32
  {
  }

  lemma NotDueYet(now: u32, d: nat, jitter: Jitter)
    requires d < 4
    ensures !Due(Add32(now, d), Add32(Add32(now, 4), jitter))
  {
    hide Add32, Sub32;
    AddIs(now, d);
    AddIs(now, 4);
    AddIs(Add32(now, 4), jitter);
    SubIs(Add32(now, d), Add32(Add32(now, 4), jitter));
  }

  /** A job that failed and is to be tried again is not handed over in the first 4 ms, nor is any other one. */
  lemma RetryWaits(t: Tx, now: u32, r: Radio, d: nat, r2: Radio)
    requires t.active && t.cur.attempts < 3 && r.result != -1 && r.result != 0 && d < 4
    ensures var u := ProcessTx(t, now, r);
            u.tried == t.tried && ProcessTx(u, Add32(now, d), r2).tried == t.tried
  {
    hide Due, Add32;
    NotDueYet(now, 0, r.jitter);
    NothingAdded(now);
    NotDueYet(now, d, r.jitter);
  }

  lemma NothingAdded(now: u32)
    ensures Add32(now, 0) == now
  {
  }
}
