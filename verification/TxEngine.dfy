/** The transmit engine of `APSZBComponent`: one radio, one job in flight, retries, and waiters that compare job ids. */
module TxEngine {
  import opened Words

  const MAX_TX_ATTEMPTS := 3
  const MAX_QUEUED := 16
  const TX_TIMEOUT_MS := 300
  /** The most jobs there can be: 17 in the queue and one in flight or back in the queue. */
  const MAX_PENDING := 18

  /** The application payloads; their bytes are not part of this model. */
  datatype Payload = Poll | Query | QueryFlush | Throttle(watts: int) | Reboot | NormalOps | Pairing(step: nat) | Other

  datatype Outgoing = Outgoing(broadcast: bool, dst: u16, pan: u16, cluster: u16, ackRequest: bool, payload: Payload)

  /** `number` counts the jobs ever queued, from 1 on; the id of a job shows it modulo 2^32. */
  datatype TxJob = TxJob(frame: Outgoing, id: u32, attempts: nat, ghost number: nat)

  /** The fields of the source, then what only an observer knows: how many jobs have been queued, the number of the job
      that ended last, and the numbers of the jobs handed to the radio so far. */
  datatype Tx = Tx(queue: seq<TxJob>, cur: TxJob, active: bool, started: u32, notBefore: u32, counter: u32,
                   doneId: u32, lastOk: bool, ghost issued: nat, ghost done: nat, ghost tried: seq<nat>)

  /** `random_uint32() % 12` */
  type Jitter = j: int | 0 <= j < 12

  /** What the radio says while process_tx_ runs: the result of the job in flight (-1: none yet), whether it is ready,
      whether it takes the next frame; and the random part of the retry delay. */
  datatype Radio = Radio(result: int, ready: bool, accepts: bool, jitter: Jitter)

  // ------------------------------------------------------------------------------------------------------------------
  // The steps as functions
  // ------------------------------------------------------------------------------------------------------------------

  function NewId(tx: Tx): u32 {
    Add32(tx.counter, 1)
  }

  /** queue_tx_: a full queue loses its oldest job. */
  function QueueTx(tx: Tx, f: Outgoing): Tx {
    var kept := if |tx.queue| > MAX_QUEUED then tx.queue[1..] else tx.queue;
    tx.(queue := kept + [TxJob(f, NewId(tx), 0, tx.issued + 1)], counter := NewId(tx), issued := tx.issued + 1)
  }

  /** The result of the job in flight as process_tx_ sees it: None while there is nothing to do. */
  function Result(tx: Tx, now: u32, r: Radio): Option<int> {
    if r.result != -1 then Some(r.result)
    else if Sub32(now, tx.started) < TX_TIMEOUT_MS then None
    else Some(98)
  }

  /** First half of process_tx_: the job in flight ends, or goes back to the front of the queue. */
  function Settle(tx: Tx, now: u32, r: Radio): Tx {
    var result := Result(tx, now, r);
    if !tx.active || result.None? then tx
    else if result.value == 0 then tx.(active := false, doneId := tx.cur.id, lastOk := true, done := tx.cur.number)
    else if tx.cur.attempts < MAX_TX_ATTEMPTS then
      tx.(active := false, notBefore := Add32(Add32(now, 4), r.jitter), queue := [tx.cur] + tx.queue)
    else tx.(active := false, doneId := tx.cur.id, lastOk := false, done := tx.cur.number)
  }

  /** Second half: the next job is handed to the radio. */
  function Launch(tx: Tx, now: u32, r: Radio): Tx {
    if tx.active || tx.queue == [] || !Due(now, tx.notBefore) || !r.ready then tx else
    var job := tx.queue[0].(attempts := tx.queue[0].attempts + 1);
    var t := tx.(cur := job, queue := tx.queue[1..], tried := tx.tried + [job.number]);
    if r.accepts then t.(active := true, started := now) else t.(doneId := job.id, lastOk := false, done := job.number)
  }

  function ProcessTx(tx: Tx, now: u32, r: Radio): Tx {
    Launch(Settle(tx, now, r), now, r)
  }

  datatype Event = QueueFrame(f: Outgoing) | Process(now: u32, r: Radio)

  function Next(tx: Tx, e: Event): Tx {
    match e
    case QueueFrame(f) => QueueTx(tx, f)
    case Process(now, r) => ProcessTx(tx, now, r)
  }

  function Run(tx: Tx, events: seq<Event>): Tx {
    if events == [] then tx else Next(Run(tx, events[..|events| - 1]), events[|events| - 1])
  }

  // ------------------------------------------------------------------------------------------------------------------
  // Invariant
  // ------------------------------------------------------------------------------------------------------------------

  /** The jobs not ended yet: the one in flight, then the queue. */
  function Pending(tx: Tx): seq<TxJob> {
    (if tx.active then [tx.cur] else []) + tx.queue
  }

  /** Bounds that hold however many jobs there were. */
  predicate Bounds(tx: Tx) {
    |Pending(tx)| <= MAX_PENDING &&
    (forall k | 0 <= k < |tx.queue| :: tx.queue[k].attempts < MAX_TX_ATTEMPTS) &&
    (tx.active ==> 1 <= tx.cur.attempts <= MAX_TX_ATTEMPTS)
  }

  function Count(numbers: seq<nat>, n: nat): nat {
    if numbers == [] then 0 else Count(numbers[..|numbers| - 1], n) + if numbers[|numbers| - 1] == n then 1 else 0
  }

  /** The numbers of the pending jobs rise, all beyond the last one done; the newest job is pending or done. */
  ghost predicate Sorted(p: seq<TxJob>, done: nat, issued: nat) {
    done <= issued &&
    (forall i, j | 0 <= i < j < |p| :: p[i].number < p[j].number) &&
    (forall k | 0 <= k < |p| :: done < p[k].number <= issued) &&
    (if p == [] then done == issued else p[|p| - 1].number == issued)
  }

  /** Each pending job was handed to the radio as often as its attempts say, and no job more than three times. */
  ghost predicate Counted(p: seq<TxJob>, tried: seq<nat>, issued: nat) {
    (forall k | 0 <= k < |p| :: Count(tried, p[k].number) == p[k].attempts) &&
    (forall n: nat :: Count(tried, n) <= MAX_TX_ATTEMPTS) &&
    (forall n: nat | n > issued :: Count(tried, n) == 0)
  }

  /** What shows of a number: the id. */
  function Id(n: nat): (id: u32)
    ensures n < TWO32 ==> id == n
  {
    n % TWO32
  }

  /** The 32-bit words of the source show the numbers. */
  ghost predicate Shown(p: seq<TxJob>, tx: Tx) {
    tx.counter == Id(tx.issued) && tx.doneId == Id(tx.done) && forall k | 0 <= k < |p| :: p[k].id == Id(p[k].number)
  }

  /** Numbers, ids and attempts. */
  ghost predicate Ordered(tx: Tx) {
    Sorted(Pending(tx), tx.done, tx.issued) && Counted(Pending(tx), tx.tried, tx.issued) && Shown(Pending(tx), tx)
  }

  ghost predicate TxInv(tx: Tx) {
    Bounds(tx) && Ordered(tx)
  }

  lemma CountSteps(numbers: seq<nat>, x: nat)
    ensures forall n: nat :: Count(numbers + [x], n) == Count(numbers, n) + if x == n then 1 else 0
  {
    assert (numbers + [x])[..|numbers|] == numbers;
  }

  /** `q` is `p` with a new job at the end, and with the older job at position `lost` missing, if there is one. */
  ghost predicate QueuedLast(p: seq<TxJob>, job: TxJob, lost: int, q: seq<TxJob>) {
    -1 <= lost < |p| && q == (if lost == -1 then p else p[..lost] + p[lost + 1..]) + [job]
  }

  lemma QueueSorted(p: seq<TxJob>, done: nat, issued: nat, job: TxJob, lost: int, q: seq<TxJob>)
    requires Sorted(p, done, issued) && job.number == issued + 1 && QueuedLast(p, job, lost, q)
    ensures Sorted(q, done, issued + 1)
  {
  }

  lemma QueueCounted(p: seq<TxJob>, tried: seq<nat>, issued: nat, job: TxJob, lost: int, q: seq<TxJob>)
    requires Counted(p, tried, issued) && job.number == issued + 1 && job.attempts == 0 && QueuedLast(p, job, lost, q)
    ensures Counted(q, tried, issued + 1)
  {
  }

  lemma QueueBounds(tx: Tx, f: Outgoing)
    requires Bounds(tx)
    ensures Bounds(QueueTx(tx, f))
  {
  }

  ghost function NewJob(tx: Tx, f: Outgoing): TxJob {
    TxJob(f, NewId(tx), 0, tx.issued + 1)
  }

  lemma QueuePending(tx: Tx, f: Outgoing) returns (lost: int)
    ensures QueuedLast(Pending(tx), NewJob(tx, f), lost, Pending(QueueTx(tx, f)))
  {
    lost := if |tx.queue| <= MAX_QUEUED then -1 else if tx.active then 1 else 0;
  }

  lemma NextId(n: nat)
    ensures Add32(Id(n), 1) == Id(n + 1)
  {
  }

  lemma QueueShown(tx: Tx, f: Outgoing, lost: int)
    requires Shown(Pending(tx), tx) && QueuedLast(Pending(tx), NewJob(tx, f), lost, Pending(QueueTx(tx, f)))
    ensures Shown(Pending(QueueTx(tx, f)), QueueTx(tx, f))
  {
    hide Id, Pending;
    NextId(tx.issued);
  }

  lemma QueueKeepsInv(tx: Tx, f: Outgoing)
    requires TxInv(tx)
    ensures TxInv(QueueTx(tx, f))
  {
    hide Bounds, Sorted, Counted, Shown, Pending, QueuedLast;
    var t, job := QueueTx(tx, f), NewJob(tx, f);
    QueueBounds(tx, f);
    var lost := QueuePending(tx, f);
    QueueSorted(Pending(tx), tx.done, tx.issued, job, lost, Pending(t));
    QueueCounted(Pending(tx), tx.tried, tx.issued, job, lost, Pending(t));
    QueueShown(tx, f, lost);
  }

  /** The first pending job ends. */
  lemma FirstEnds(p: seq<TxJob>, done: nat, issued: nat, tried: seq<nat>)
    requires p != [] && Sorted(p, done, issued) && Counted(p, tried, issued)
    ensures Sorted(p[1..], p[0].number, issued) && Counted(p[1..], tried, issued)
  {
  }

  lemma SettleBounds(tx: Tx, now: u32, r: Radio)
    requires Bounds(tx)
    ensures Bounds(Settle(tx, now, r))
  {
    assert tx.active ==> Pending(tx)[1..] == tx.queue;
  }

  /** A job that goes back to the queue is where it was among the pending ones; one that ends was the first. */
  lemma SettlePending(tx: Tx, now: u32, r: Radio)
    ensures var t, p := Settle(tx, now, r), Pending(tx);
            t.issued == tx.issued && t.tried == tx.tried && t.counter == tx.counter &&
            ((Pending(t) == p && t.done == tx.done && t.doneId == tx.doneId) ||
             (p != [] && Pending(t) == p[1..] && t.done == p[0].number && t.doneId == p[0].id))
  {
    assert tx.active ==> Pending(tx)[1..] == tx.queue;
  }

  lemma SettleKeepsInv(tx: Tx, now: u32, r: Radio)
    requires TxInv(tx)
    ensures TxInv(Settle(tx, now, r))
  {
    hide Settle, Bounds, Sorted, Counted, Pending;
    SettleBounds(tx, now, r);
    SettlePending(tx, now, r);
    if Pending(tx) != [] {
      FirstEnds(Pending(tx), tx.done, tx.issued, tx.tried);
    }
  }

  /** The first pending job is handed to the radio, which takes it or not: `q` is pending then, number `after` done. */
  ghost predicate Handed(p: seq<TxJob>, done: nat, accepts: bool, q: seq<TxJob>, after: nat) {
    p != [] && if accepts then q == [p[0].(attempts := p[0].attempts + 1)] + p[1..] && after == done
               else q == p[1..] && after == p[0].number
  }

  lemma HandedSorted(p: seq<TxJob>, done: nat, issued: nat, accepts: bool, q: seq<TxJob>, after: nat)
    requires Sorted(p, done, issued) && Handed(p, done, accepts, q, after)
    ensures Sorted(q, after, issued)
  {
  }

  lemma HandedCounted(p: seq<TxJob>, done: nat, issued: nat, tried: seq<nat>, accepts: bool, q: seq<TxJob>, after: nat)
    requires Sorted(p, done, issued) && Counted(p, tried, issued) && Handed(p, done, accepts, q, after)
    requires p[0].attempts < MAX_TX_ATTEMPTS
    ensures Counted(q, tried + [p[0].number], issued)
  {
    CountSteps(tried, p[0].number);
  }

  predicate Launches(tx: Tx, now: u32, r: Radio) {
    !tx.active && tx.queue != [] && Due(now, tx.notBefore) && r.ready
  }

  lemma LaunchBounds(tx: Tx, now: u32, r: Radio)
    requires Bounds(tx)
    ensures Bounds(Launch(tx, now, r))
  {
  }

  lemma LaunchPending(tx: Tx, now: u32, r: Radio)
    requires Launches(tx, now, r)
    ensures var t, p := Launch(tx, now, r), Pending(tx);
            p == tx.queue && p != [] && t.issued == tx.issued && t.tried == tx.tried + [p[0].number] &&
            t.counter == tx.counter && (if r.accepts then t.doneId == tx.doneId else t.doneId == p[0].id) &&
            Handed(p, tx.done, r.accepts, Pending(t), t.done)
  {
  }

  lemma HandedShown(tx: Tx, t: Tx, accepts: bool)
    requires var p, q := Pending(tx), Pending(t);
             Shown(p, tx) && Handed(p, tx.done, accepts, q, t.done) && t.counter == tx.counter &&
             t.issued == tx.issued && t.doneId == if accepts then tx.doneId else p[0].id
    ensures Shown(Pending(t), t)
  {
    hide Pending, Id;
  }

  lemma LaunchOrdered(tx: Tx, now: u32, r: Radio)
    requires Bounds(tx) && Ordered(tx) && Launches(tx, now, r)
    ensures Ordered(Launch(tx, now, r))
  {
    hide Launch, Pending, Sorted, Counted, Shown, Handed;
    var t, p := Launch(tx, now, r), Pending(tx);
    LaunchPending(tx, now, r);
    HandedSorted(p, tx.done, tx.issued, r.accepts, Pending(t), t.done);
    HandedCounted(p, tx.done, tx.issued, tx.tried, r.accepts, Pending(t), t.done);
    HandedShown(tx, t, r.accepts);
  }

  lemma LaunchKeepsInv(tx: Tx, now: u32, r: Radio)
    requires TxInv(tx)
    ensures TxInv(Launch(tx, now, r))
  {
    LaunchBounds(tx, now, r);
    if Launches(tx, now, r) {
      LaunchOrdered(tx, now, r);
    }
  }

  lemma NextKeepsInv(tx: Tx, e: Event)
    requires TxInv(tx)
    ensures TxInv(Next(tx, e))
  {
    match e
    case QueueFrame(f) => QueueKeepsInv(tx, f);
    case Process(now, r) =>
      SettleKeepsInv(tx, now, r);
      LaunchKeepsInv(Settle(tx, now, r), now, r);
  }

  ghost predicate Initial(tx: Tx) {
    tx.queue == [] && !tx.active && tx.counter == 0 && tx.doneId == 0 && tx.issued == 0 && tx.done == 0 &&
    tx.tried == []
  }

  lemma {:induction false} RunKeepsInv(tx: Tx, events: seq<Event>)
    requires Initial(tx)
    ensures TxInv(Run(tx, events))
  {
    if events == [] {
      assert forall n: nat :: Count([], n) == 0;
    } else {
      RunKeepsInv(tx, events[..|events| - 1]);
      NextKeepsInv(Run(tx, events[..|events| - 1]), events[|events| - 1]);
    }
  }

  // ------------------------------------------------------------------------------------------------------------------
  // Waiters
  // ------------------------------------------------------------------------------------------------------------------

  /** The test a waiter makes, on the ids. */
  predicate Released(tx: Tx, id: u32) {
    tx.doneId >= id
  }

  /** What it means to find out: job number `n`, or one queued after it, has ended. */
  ghost predicate Ended(tx: Tx, n: nat) {
    tx.done >= n
  }

  /** Ids count in rounds of 2^32 jobs. */
  function Round(n: nat): nat {
    n / TWO32
  }

  /** Comparing the ids is comparing the numbers, but for the rounds between them. */
  lemma IdsCompare(done: nat, n: nat)
    ensures Id(done) >= Id(n) <==> done - n >= TWO32 * (Round(done) - Round(n))
  {
    assert done == TWO32 * Round(done) + Id(done);
    assert n == TWO32 * Round(n) + Id(n);
  }

  /** The exact condition for the test of the source to be right: for numbers less than a round apart, that they are of
      the same round; and for any numbers of the same round it is right. */
  lemma TestIsRight(done: nat, n: nat)
    ensures Round(done) == Round(n) ==> (Id(done) >= Id(n) <==> done >= n)
    ensures -TWO32 < done - n < TWO32 ==> ((Id(done) >= Id(n) <==> done >= n) <==> Round(done) == Round(n))
  {
    hide Id, Round;
    IdsCompare(done, n);
    NearRounds(done, n);
  }

  lemma NearRounds(done: nat, n: nat)
    ensures -TWO32 < done - n < TWO32 ==> -1 <= Round(done) - Round(n) <= 1
    ensures done >= n ==> Round(done) >= Round(n)
    ensures done <= n ==> Round(done) <= Round(n)
  {
  }

  lemma RunShows(tx: Tx, events: seq<Event>, n: nat)
    requires Initial(tx)
    ensures var t := Run(tx, events);
            Released(t, Id(n)) <==> Id(t.done) >= Id(n)
  {
    RunKeepsInv(tx, events);
  }

  /** Over every run: a job that is pending has not ended, nor has any that was queued after it; the test of its waiter
      succeeds too early exactly when, of numbers less than a round apart, a round ended between. */
  lemma ReleasedIsGone(tx: Tx, events: seq<Event>, k: nat)
    requires Initial(tx) && k < |Pending(Run(tx, events))|
    ensures var t := Run(tx, events); var job := Pending(t)[k];
            job.id == Id(job.number) && !Ended(t, job.number) &&
            (Round(t.done) == Round(job.number) ==> !Released(t, job.id)) &&
            (job.number - t.done < TWO32 ==> (Released(t, job.id) <==> Round(t.done) != Round(job.number)))
  {
    hide Run, Pending, Id, Round;
    RunKeepsInv(tx, events);
    var t := Run(tx, events);
    TestIsRight(t.done, Pending(t)[k].number);
  }

  /** Over every run: whatever happened to job `n`, also when the full queue lost it, it or a newer one has ended,
      or some job at least as new is pending. `ReleasedInTime` says when it ends. */
  lemma WaiterHasSomethingComing(tx: Tx, events: seq<Event>, n: nat)
    requires Initial(tx) && n <= Run(tx, events).issued
    ensures var t := Run(tx, events);
            Ended(t, n) || (Pending(t) != [] && Pending(t)[|Pending(t)| - 1].number >= n)
  {
    RunKeepsInv(tx, events);
  }

  lemma {:induction false} IssuedGrows(tx: Tx, events: seq<Event>, n: nat)
    requires n <= |events|
    ensures Run(tx, events[..n]).issued <= Run(tx, events).issued
  {
    hide QueueTx, ProcessTx;
    if n < |events| {
      var m := |events| - 1;
      assert events[..m][..n] == events[..n];
      IssuedGrows(tx, events[..m], n);
      NextIssued(Run(tx, events[..m]), events[m]);
    } else {
      assert events[..n] == events;
    }
  }

  lemma NextIssued(tx: Tx, e: Event)
    ensures Next(tx, e).issued == tx.issued + if e.QueueFrame? then 1 else 0
  {
  }

  lemma FirstIsBeyond(tx: Tx)
    requires TxInv(tx) && Pending(tx) != []
    ensures tx.done < Pending(tx)[0].number
  {
  }

  /** One call of process_tx_ ends at most the first pending job, and then the next one: done numbers only grow. */
  lemma DoneGrows(tx: Tx, e: Event)
    requires TxInv(tx)
    ensures Next(tx, e).done >= tx.done
  {
    match e
    case QueueFrame(_) =>
    case Process(now, r) =>
      hide TxInv, Settle, Launch, Pending;
      var t := Settle(tx, now, r);
      SettleKeepsInv(tx, now, r);
      SettlePending(tx, now, r);
      if Pending(tx) != [] {
        FirstIsBeyond(tx);
      }
      LaunchDone(t, now, r);
  }

  lemma LaunchDone(tx: Tx, now: u32, r: Radio)
    requires TxInv(tx)
    ensures Launch(tx, now, r).done >= tx.done
  {
    if Launches(tx, now, r) {
      FirstIsBeyond(tx);
      LaunchPending(tx, now, r);
    }
  }

  /** Over every run: what has ended stays so, and the waiter finds it so as long as the last job done is of the
      round of its own. */
  lemma ReleasedStays(tx: Tx, events: seq<Event>, m: nat, n: nat)
    requires Initial(tx) && m <= |events| && Ended(Run(tx, events[..m]), n)
    ensures Ended(Run(tx, events), n)
    ensures Round(Run(tx, events).done) == Round(n) ==> Released(Run(tx, events), Id(n))
  {
    EndedStays(tx, events, m, n);
    RunShows(tx, events, n);
    TestIsRight(Run(tx, events).done, n);
  }

  lemma {:induction false} EndedStays(tx: Tx, events: seq<Event>, m: nat, n: nat)
    requires Initial(tx) && m <= |events| && Ended(Run(tx, events[..m]), n)
    ensures Ended(Run(tx, events), n)
  {
    hide QueueTx, ProcessTx;
    if m < |events| {
      var l := |events| - 1;
      assert events[..l][..m] == events[..m];
      EndedStays(tx, events[..l], m, n);
      RunKeepsInv(tx, events[..l]);
      DoneGrows(Run(tx, events[..l]), events[l]);
    } else {
      assert events[..m] == events;
    }
  }

  /** Over every run: at most 18 jobs are pending, and no job is handed to the radio more than three times. */
  lemma TriedAtMostThrice(tx: Tx, events: seq<Event>, n: nat)
    requires Initial(tx)
    ensures var t := Run(tx, events);
            |Pending(t)| <= MAX_PENDING && Count(t.tried, n) <= MAX_TX_ATTEMPTS
  {
    RunKeepsInv(tx, events);
  }

  // ------------------------------------------------------------------------------------------------------------------
  // Where the test is wrong
  // ------------------------------------------------------------------------------------------------------------------

  lemma Snoc(tx: Tx, events: seq<Event>, e: Event)
    ensures Run(tx, events + [e]) == Next(Run(tx, events), e)
  {
    assert (events + [e])[..|events|] == events;
  }

  function Frames(f: Outgoing, n: nat): seq<Event> {
    if n == 0 then [] else Frames(f, n - 1) + [QueueFrame(f)]
  }

  lemma {:induction false} FramesRun(tx: Tx, f: Outgoing, n: nat)
    requires Initial(tx)
    ensures var t := Run(tx, Frames(f, n));
            t.issued == n && t.done == 0 && t.doneId == 0 && !t.active && t.counter == Id(n)
  {
    hide Id;
    if n > 0 {
      FramesRun(tx, f, n - 1);
      Snoc(tx, Frames(f, n - 1), QueueFrame(f));
      NextId(n - 1);
    }
  }

  /** Released too early: the job that gets id 0 is pending, and its waiter takes it for done. */
  lemma ReleasedTooEarly(tx: Tx, f: Outgoing)
    requires Initial(tx)
    ensures var t := Run(tx, Frames(f, TWO32)); var p := Pending(t);
            p != [] && p[|p| - 1].number == TWO32 && p[|p| - 1].id == 0 && Released(t, 0) && !Ended(t, TWO32)
  {
    hide Frames, Run, Next;
    RunKeepsInv(tx, Frames(f, TWO32));
    FramesRun(tx, f, TWO32);
  }

  const IN_FLIGHT := Radio(-1, true, true, 0)
  const SENT := Radio(0, false, false, 0)
  const SENT_THEN_REFUSED := Radio(0, true, false, 0)

  /** `n` frames, each sent before the next is queued, in one and the same millisecond. */
  function OneByOne(f: Outgoing, n: nat, now: u32): seq<Event> {
    if n == 0 then [] else OneByOne(f, n - 1, now) + [QueueFrame(f)] + [Process(now, IN_FLIGHT)] + [Process(now, SENT)]
  }

  /** Nothing pending after `n` jobs. */
  ghost predicate Quiet(t: Tx, n: nat, now: u32) {
    t.queue == [] && !t.active && t.issued == n && t.counter == Id(n) && t.notBefore == now
  }

  /** Job `n` in flight, and nothing waiting. */
  ghost predicate Flying(t: Tx, n: nat, now: u32) {
    t.queue == [] && t.active && t.cur.number == n && t.cur.id == Id(n) && t.issued == n && t.counter == Id(n) &&
    t.notBefore == now
  }

  lemma OneFlies(t: Tx, f: Outgoing, n: nat, now: u32)
    requires Quiet(t, n, now)
    ensures Flying(Next(Next(t, QueueFrame(f)), Process(now, IN_FLIGHT)), n + 1, now)
  {
    hide Id;
    NextId(n);
  }

  lemma {:induction false} OneByOneRun(tx: Tx, f: Outgoing, n: nat)
    requires Initial(tx)
    ensures Quiet(Run(tx, OneByOne(f, n, tx.notBefore)), n, tx.notBefore)
  {
    hide Next;
    if n > 0 {
      var now, before := tx.notBefore, OneByOne(f, n - 1, tx.notBefore);
      OneByOneRun(tx, f, n - 1);
      OneFlies(Run(tx, before), f, n - 1, now);
      Snoc(tx, before, QueueFrame(f));
      Snoc(tx, before + [QueueFrame(f)], Process(now, IN_FLIGHT));
      Snoc(tx, before + [QueueFrame(f)] + [Process(now, IN_FLIGHT)], Process(now, SENT));
      OneLands(Run(tx, before + [QueueFrame(f)] + [Process(now, IN_FLIGHT)]), n, now);
    }
  }

  lemma OneLands(t: Tx, n: nat, now: u32)
    requires Flying(t, n, now)
    ensures Quiet(Next(t, Process(now, SENT)), n, now)
  {
  }

  lemma RefusedLast(t: Tx, f: Outgoing, n: nat, now: u32)
    requires Flying(t, n, now)
    ensures var r := Next(Next(t, QueueFrame(f)), Process(now, SENT_THEN_REFUSED));
            Pending(r) == [] && r.done == n + 1 && r.doneId == Id(n + 1)
  {
    hide Id;
    NextId(n);
  }

  /** Left waiting: job 0xFFFFFFFF is sent and the radio refuses the next one in the same call; nothing is pending then,
      and the waiter of job 0xFFFFFFFF is not released. */
  lemma NeverReleased(tx: Tx, f: Outgoing)
    requires Initial(tx)
    ensures var now := tx.notBefore;
            var t := Run(tx, OneByOne(f, TWO32 - 2, now) + [QueueFrame(f)] + [Process(now, IN_FLIGHT)] +
                             [QueueFrame(f)] + [Process(now, SENT_THEN_REFUSED)]);
            Pending(t) == [] && Ended(t, TWO32 - 1) && Id(TWO32 - 1) == 0xFFFF_FFFF && !Released(t, 0xFFFF_FFFF)
  {
    hide Next, Run, Pending, OneByOne;
    var now, e1 := tx.notBefore, OneByOne(f, TWO32 - 2, tx.notBefore);
    var e2 := e1 + [QueueFrame(f)];
    var e3 := e2 + [Process(now, IN_FLIGHT)];
    OneByOneRun(tx, f, TWO32 - 2);
    OneFlies(Run(tx, e1), f, TWO32 - 2, now);
    Snoc(tx, e1, QueueFrame(f));
    Snoc(tx, e2, Process(now, IN_FLIGHT));
    Snoc(tx, e3, QueueFrame(f));
    Snoc(tx, e3 + [QueueFrame(f)], Process(now, SENT_THEN_REFUSED));
    RefusedLast(Run(tx, e3), f, TWO32 - 1, now);
  }

  // ------------------------------------------------------------------------------------------------------------------
  // How long a waiter waits
  // ------------------------------------------------------------------------------------------------------------------

  /** Twice the attempts a job has left. */
  function Left(job: TxJob): nat {
    if job.attempts < MAX_TX_ATTEMPTS then 2 * (MAX_TX_ATTEMPTS - job.attempts) else 0
  }

  function AllLeft(p: seq<TxJob>): nat {
    if p == [] then 0 else Left(p[0]) + AllLeft(p[1..])
  }

  /** How many calls of process_tx_ that do something there can be until nothing is pending. */
  function Effort(tx: Tx): nat {
    AllLeft(Pending(tx)) + if tx.active then 1 else 0
  }

  /** A call that can do something: the job in flight has its result or its 300 ms are over; or there is none, the retry
      delay is over and the radio ready. */
  predicate Productive(tx: Tx, e: Event) {
    e.Process? && if tx.active then Result(tx, e.now, e.r).Some? else Due(e.now, tx.notBefore) && e.r.ready
  }

  lemma {:induction false} LeftOfBoth(a: seq<TxJob>, b: seq<TxJob>)
    ensures AllLeft(a + b) == AllLeft(a) + AllLeft(b)
  {
    if a == [] {
      assert a + b == b;
    } else {
      assert (a + b)[1..] == a[1..] + b;
      LeftOfBoth(a[1..], b);
    }
  }

  lemma {:induction false} LeftBound(p: seq<TxJob>)
    ensures AllLeft(p) <= 2 * MAX_TX_ATTEMPTS * |p|
  {
    if p != [] {
      LeftBound(p[1..]);
    }
  }

  lemma EffortBound(tx: Tx)
    requires Bounds(tx)
    ensures Effort(tx) <= 2 * MAX_TX_ATTEMPTS * MAX_PENDING
    ensures Effort(tx) == 0 <==> Pending(tx) == []
  {
    if tx.active {
      assert Pending(tx)[1..] == tx.queue;
      LeftBound(tx.queue);
    } else {
      LeftBound(Pending(tx));
    }
  }

  lemma QueueEffort(tx: Tx, f: Outgoing)
    ensures Effort(QueueTx(tx, f)) <= Effort(tx) + 2 * MAX_TX_ATTEMPTS
  {
    var p, q, job := Pending(tx), Pending(QueueTx(tx, f)), NewJob(tx, f);
    var lost := QueuePending(tx, f);
    assert AllLeft([job]) == 2 * MAX_TX_ATTEMPTS + AllLeft([job][1..]);
    if lost == -1 {
      LeftOfBoth(p, [job]);
    } else {
      LeftOfBoth(p[..lost] + p[lost + 1..], [job]);
      LeftOfBoth(p[..lost], p[lost + 1..]);
      assert p == p[..lost] + p[lost..] && p[lost..][1..] == p[lost + 1..];
      LeftOfBoth(p[..lost], p[lost..]);
    }
  }

  lemma SettleEffort(tx: Tx, now: u32, r: Radio)
    ensures var t := Settle(tx, now, r);
            if tx.active && Result(tx, now, r).Some? then Effort(t) < Effort(tx) else t == tx
  {
    if tx.active && Result(tx, now, r).Some? {
      FirstLeft(tx.cur, tx.queue);
      var t := Settle(tx, now, r);
      assert Pending(t) == t.queue;
    }
  }

  lemma FirstLeft(job: TxJob, rest: seq<TxJob>)
    ensures AllLeft([job] + rest) == Left(job) + AllLeft(rest)
  {
    assert ([job] + rest)[1..] == rest;
  }

  lemma LaunchEffort(tx: Tx, now: u32, r: Radio)
    requires Bounds(tx)
    ensures var t := Launch(tx, now, r);
            if Launches(tx, now, r) then Effort(t) < Effort(tx) else t == tx
  {
    if Launches(tx, now, r) {
      var job := tx.queue[0].(attempts := tx.queue[0].attempts + 1);
      assert Pending(tx) == tx.queue;
      assert AllLeft(tx.queue) == Left(tx.queue[0]) + AllLeft(tx.queue[1..]);
      assert Left(tx.queue[0]) == Left(job) + 2;
      if r.accepts {
        FirstLeft(job, tx.queue[1..]);
      } else {
        assert Pending(Launch(tx, now, r)) == tx.queue[1..];
      }
    }
  }

  lemma NextEffort(tx: Tx, e: Event)
    requires Bounds(tx)
    ensures e.QueueFrame? ==> Effort(Next(tx, e)) <= Effort(tx) + 2 * MAX_TX_ATTEMPTS
    ensures e.Process? ==> Effort(Next(tx, e)) <= Effort(tx)
    ensures Productive(tx, e) && Pending(tx) != [] ==> Effort(Next(tx, e)) < Effort(tx)
  {
    hide Effort, Settle, Launch, Due;
    match e
    case QueueFrame(f) => QueueEffort(tx, f);
    case Process(now, r) =>
      SettleEffort(tx, now, r);
      SettleBounds(tx, now, r);
      LaunchEffort(Settle(tx, now, r), now, r);
  }

  /** The productive calls of a run after its first `n` events. */
  function Served(tx: Tx, events: seq<Event>, n: nat): nat {
    if |events| <= n then 0
    else
      var m := |events| - 1;
      Served(tx, events[..m], n) + if Productive(Run(tx, events[..m]), events[m]) then 1 else 0
  }

  /** The frames queued after the first `n` events. */
  function QueuedSince(events: seq<Event>, n: nat): nat {
    if |events| <= n then 0
    else QueuedSince(events[..|events| - 1], n) + if events[|events| - 1].QueueFrame? then 1 else 0
  }

  lemma {:induction false} EndedOrCloser(tx: Tx, events: seq<Event>, m: nat, n: nat)
    requires Initial(tx) && m <= |events| && n <= Run(tx, events[..m]).issued
    ensures Ended(Run(tx, events), n) ||
            Effort(Run(tx, events)) + Served(tx, events, m) <=
              2 * MAX_TX_ATTEMPTS * (MAX_PENDING + QueuedSince(events, m))
  {
    hide Productive, Effort, Ended, Run;
    if m == |events| {
      assert events[..m] == events;
      RunBound(tx, events);
    } else {
      var l := |events| - 1;
      var before := events[..l];
      assert before[..m] == events[..m];
      IssuedGrows(tx, before, m);
      EndedOrCloser(tx, before, m, n);
      EndedAfter(tx, events, n);
    }
  }

  lemma EndedAfter(tx: Tx, events: seq<Event>, n: nat)
    requires Initial(tx) && events != [] && n <= Run(tx, events[..|events| - 1]).issued
    ensures var t, before, e := Run(tx, events), Run(tx, events[..|events| - 1]), events[|events| - 1];
            if Ended(before, n) then Ended(t, n)
            else Effort(t) <= Effort(before) + (if e.QueueFrame? then 2 * MAX_TX_ATTEMPTS else 0)
                                             - if Productive(before, e) then 1 else 0
  {
    hide Productive, Effort, Bounds, Counted, Shown;
    var l := |events| - 1;
    var before := Run(tx, events[..l]);
    RunKeepsInv(tx, events[..l]);
    DoneGrows(before, events[l]);
    NextEffort(before, events[l]);
    OnlyCallsAreProductive(before, events[l]);
  }

  lemma RunBound(tx: Tx, events: seq<Event>)
    requires Initial(tx)
    ensures Effort(Run(tx, events)) <= 2 * MAX_TX_ATTEMPTS * MAX_PENDING
  {
    RunKeepsInv(tx, events);
    EffortBound(Run(tx, events));
  }

  lemma OnlyCallsAreProductive(tx: Tx, e: Event)
    ensures Productive(tx, e) ==> e.Process?
  {
  }

  /** Liveness: job `n` or a newer one has ended once process_tx_ has been called productively more than six times
      for each of the 18 jobs that may be pending and each frame queued meanwhile; with no frame queued that is the
      109th such call. The waiter finds it so unless a round of the ids has ended since its job was queued. */
  lemma ReleasedInTime(tx: Tx, events: seq<Event>, m: nat, n: nat)
    requires Initial(tx) && m <= |events| && n <= Run(tx, events[..m]).issued
    requires Served(tx, events, m) > 2 * MAX_TX_ATTEMPTS * (MAX_PENDING + QueuedSince(events, m))
    ensures Ended(Run(tx, events), n)
    ensures Round(Run(tx, events).issued) == Round(n) ==> Released(Run(tx, events), Id(n))
  {
    hide Run, Served, QueuedSince, Id, Round, Effort;
    EndedOrCloser(tx, events, m, n);
    RunShows(tx, events, n);
    var t := Run(tx, events);
    RunKeepsInv(tx, events);
    NearRounds(t.done, n);
    NearRounds(t.issued, t.done);
    TestIsRight(t.done, n);
  }
}
