/** Asking the API clients to reconnect: requests are debounced by a named timer and rate limited. */
module ApiResync {
  import opened Words

  datatype Config = Config(delayMs: u32, minIntervalMs: u32)

  /** The component's fields and its timer: how long it was set for. */
  datatype State = State(lastResyncMs: u32, hasResynced: bool, timer: Option<u32>)

  datatype Effect = Skipped | Postponed | Broadcast

  /** What the timer does when it fires at `now`. */
  function EffectOf(c: Config, s: State, connected: bool, now: u32): Effect {
    if !connected then Skipped
    else if s.hasResynced && Sub32(now, s.lastResyncMs) < c.minIntervalMs then Postponed
    else Broadcast
  }

  function Requested(c: Config, s: State): State {
    s.(timer := Some(c.delayMs))
  }

  function Fired(c: Config, s: State, connected: bool, now: u32): State {
    match EffectOf(c, s, connected, now)
    case Skipped => s.(timer := None)
    case Postponed => s.(timer := Some(c.minIntervalMs - Sub32(now, s.lastResyncMs)))
    case Broadcast => State(now, true, None)
  }

  class ApiResyncComponent {
    const config: Config
    var lastResyncMs: u32
    var hasResynced: bool
    var timer: Option<u32>

    function View(): State
      reads this
    {
      State(lastResyncMs, hasResynced, timer)
    }

    constructor (config: Config)
      ensures this.config == config && View() == State(0, false, None)
    {
      this.config := config;
      lastResyncMs, hasResynced, timer := 0, false, None;
    }

    /** A new request replaces the pending timer. */
    method RequestResync()
      modifies `timer
      ensures View() == Requested(config, old(View()))
    {
      timer := Some(config.delayMs);
    }

    /** The timer fires; `sent` tells whether disconnect requests went out. */
    method DoResync(connected: bool, now: u32) returns (sent: bool)
      requires timer.Some?
      modifies this
      ensures View() == Fired(config, old(View()), connected, now)
      ensures sent == (EffectOf(config, old(View()), connected, now) == Broadcast)
    {
      timer := None;
      if !connected {
        return false;
      }
      if hasResynced {
        var elapsed := Sub32(now, lastResyncMs);
        if elapsed < config.minIntervalMs {
          var wait := config.minIntervalMs - elapsed;
          timer := Some(wait);
          return false;
        }
      }
      hasResynced := true;
      lastResyncMs := now;
      return true;
    }
  }

  // ---------------------------------------------------------------------------------------------------------------
  // Runs in real time
  // ---------------------------------------------------------------------------------------------------------------

  /** Requests and firings of the timer, at real times in milliseconds; the component only sees them modulo 2^32. */
  datatype Event = Request(t: nat) | Fire(t: nat, connected: bool)

  /** The state with what an observer knows: the time, when the timer was set, when the last request came, the times of
      the broadcasts and how many requests there were. */
  datatype Trace = Trace(s: State, now: nat, armedAt: nat, requestedAt: nat, broadcasts: seq<nat>, requests: nat)

  /** A timer fires when it is due or later, never early and only if it is set. */
  predicate Possible(tr: Trace, e: Event) {
    e.t >= tr.now && (e.Fire? ==> tr.s.timer.Some? && e.t >= tr.armedAt + tr.s.timer.value)
  }

  function After(c: Config, tr: Trace, e: Event): Trace {
    match e
    case Request(t) =>
      tr.(s := Requested(c, tr.s), now := t, armedAt := t, requestedAt := t, requests := tr.requests + 1)
    case Fire(t, connected) =>
      var effect := EffectOf(c, tr.s, connected, Millis(t));
      tr.(s := Fired(c, tr.s, connected, Millis(t)), now := t, armedAt := t,
          broadcasts := if effect.Broadcast? then tr.broadcasts + [t] else tr.broadcasts)
  }

  const START := Trace(State(0, false, None), 0, 0, 0, [], 0)

  function Replay(c: Config, events: seq<Event>): Trace {
    if events == [] then START else After(c, Replay(c, events[..|events| - 1]), events[|events| - 1])
  }

  predicate Feasible(c: Config, events: seq<Event>) {
    events == [] ||
    (Feasible(c, events[..|events| - 1]) && Possible(Replay(c, events[..|events| - 1]), events[|events| - 1]))
  }

  predicate Spaced(times: seq<nat>, gap: nat) {
    forall i :: 0 < i < |times| ==> times[i - 1] + gap <= times[i]
  }

  predicate Inv(c: Config, tr: Trace) {
    && Spaced(tr.broadcasts, c.minIntervalMs)
    && tr.s.hasResynced == (tr.broadcasts != [])
    && (tr.broadcasts != [] ==> tr.broadcasts[|tr.broadcasts| - 1] <= tr.now)
    && (tr.broadcasts != [] ==> tr.s.lastResyncMs == Millis(tr.broadcasts[|tr.broadcasts| - 1]))
    && (tr.s.timer.Some? ==> tr.armedAt + tr.s.timer.value >= tr.requestedAt + c.delayMs)
    && |tr.broadcasts| + (if tr.s.timer.Some? then 1 else 0) <= tr.requests
  }

  lemma StepKeepsInv(c: Config, tr: Trace, e: Event)
    requires Inv(c, tr) && Possible(tr, e)
    ensures Inv(c, After(c, tr, e))
    ensures e.Fire? && EffectOf(c, tr.s, e.connected, Millis(e.t)).Broadcast? ==>
              && e.t >= tr.requestedAt + c.delayMs
              && (tr.broadcasts != [] ==> e.t >= tr.broadcasts[|tr.broadcasts| - 1] + c.minIntervalMs)
  {
    if e.Fire? && tr.broadcasts != [] {
      ElapsedIs(tr.broadcasts[|tr.broadcasts| - 1], e.t);
    }
  }

  lemma {:induction false} RunKeepsInv(c: Config, events: seq<Event>)
    requires Feasible(c, events)
    ensures Inv(c, Replay(c, events))
  {
    if events != [] {
      RunKeepsInv(c, events[..|events| - 1]);
      StepKeepsInv(c, Replay(c, events[..|events| - 1]), events[|events| - 1]);
    }
  }

  /** Over any run, across any number of wraps of the clock: two broadcasts are at least the minimum interval apart, and
      there is at most one for each request. */
  lemma BroadcastsAreSpaced(c: Config, events: seq<Event>)
    requires Feasible(c, events)
    ensures Spaced(Replay(c, events).broadcasts, c.minIntervalMs)
    ensures |Replay(c, events).broadcasts| <= Replay(c, events).requests
  {
    RunKeepsInv(c, events);
  }

  /** No broadcast went out since the latest request. */
  predicate Unserved(c: Config, events: seq<Event>) {
    events != [] &&
    var before, last := events[..|events| - 1], events[|events| - 1];
    last.Request? ||
    (Unserved(c, before) && !EffectOf(c, Replay(c, before).s, last.connected, Millis(last.t)).Broadcast?)
  }

  /** The timer fired without a client since the latest request. */
  predicate FiredAlone(events: seq<Event>) {
    events != [] &&
    var before, last := events[..|events| - 1], events[|events| - 1];
    last.Fire? && (!last.connected || FiredAlone(before))
  }

  /** When an unserved request is forgotten: in every feasible run, there is no timer for it exactly when the timer has
      fired without a client since. */
  lemma {:induction false} ForgottenOnlyAlone(c: Config, events: seq<Event>)
    requires Feasible(c, events) && Unserved(c, events)
    ensures Replay(c, events).s.timer.None? <==> FiredAlone(events)
  {
    var before, last := events[..|events| - 1], events[|events| - 1];
    if last.Fire? {
      ForgottenOnlyAlone(c, before);
    }
  }

  lemma Starts(c: Config, events: seq<Event>)
    requires events == []
    ensures Feasible(c, events) && Replay(c, events) == START
  {
  }

  lemma Extends(c: Config, events: seq<Event>, i: nat)
    requires i < |events| && Feasible(c, events[..i]) && Possible(Replay(c, events[..i]), events[i])
    ensures Feasible(c, events[..i + 1]) && Replay(c, events[..i + 1]) == After(c, Replay(c, events[..i]), events[i])
  {
    var next := events[..i + 1];
    assert next[..|next| - 1] == events[..i] && next[|next| - 1] == events[i];
  }

  /** So the promise that no request is lost fails, here for a single request half a second before a client connects. */
  lemma RequestForgotten()
    ensures var c, events := Config(500, 5000), [Request(0), Fire(500, false)];
            && Feasible(c, events) && Unserved(c, events)
            && Replay(c, events).broadcasts == [] && Replay(c, events).s.timer == None
  {
    var c, events := Config(500, 5000), [Request(0), Fire(500, false)];
    hide Replay, Feasible;
    Starts(c, events[..0]);
    Extends(c, events, 0);
    Extends(c, events, 1);
    assert events[..2] == events;
    assert Unserved(c, events[..1]);
  }

  /** A broadcast comes at least the debounce delay after the latest request. */
  lemma RequestsAreDebounced(c: Config, events: seq<Event>, t: nat)
    requires Feasible(c, events) && Possible(Replay(c, events), Fire(t, true))
    requires EffectOf(c, Replay(c, events).s, true, Millis(t)).Broadcast?
    ensures t >= Replay(c, events).requestedAt + c.delayMs
  {
    RunKeepsInv(c, events);
    StepKeepsInv(c, Replay(c, events), Fire(t, true));
  }

  /** The elapsed time goes on from what it was, modulo 2^32. */
  lemma ElapsedGoesOn(from: nat, t: nat, u: nat)
    requires from <= t <= u
    ensures Sub32(Millis(u), Millis(from)) == (Sub32(Millis(t), Millis(from)) + (u - t)) % TWO32
  {
    ElapsedIs(from, t);
    ElapsedIs(from, u);
    var elapsed, rounds := (t - from) % TWO32, (t - from) / TWO32;
    assert u - from == (elapsed + (u - t)) + TWO32 * rounds;
    AddMultiple(elapsed + (u - t), rounds);
  }

  /** A clock that starts at `gap` and goes on by `late` shows less than `gap` exactly after nearly a whole round. */
  lemma ComesRound(gap: u32, late: nat)
    requires gap > 0
    ensures (gap + late) % TWO32 >= gap <==> late % TWO32 < TWO32 - gap
  {
    var rest, rounds := late % TWO32, late / TWO32;
    assert gap + late == (gap + rest) + TWO32 * rounds;
    AddMultiple(gap + rest, rounds);
  }

  /** When the timer finds it is too early, it is set for the rest of the interval; with no new request in between, the
      next firing, at any time from then on, broadcasts exactly if the timer is not late by the last part of a round of
      the clock, as long as the interval. */
  lemma PostponedOnce(c: Config, events: seq<Event>, t: nat, u: nat)
    requires Feasible(c, events) && Possible(Replay(c, events), Fire(t, true))
    requires EffectOf(c, Replay(c, events).s, true, Millis(t)).Postponed?
    requires u >= t + (c.minIntervalMs - Sub32(Millis(t), Replay(c, events).s.lastResyncMs))
    ensures var due := t + (c.minIntervalMs - Sub32(Millis(t), Replay(c, events).s.lastResyncMs));
            var tr := After(c, Replay(c, events), Fire(t, true));
            && Possible(tr, Fire(u, true))
            && (EffectOf(c, tr.s, true, Millis(u)).Broadcast? <==> (u - due) % TWO32 < TWO32 - c.minIntervalMs)
  {
    hide Millis, Sub32, Feasible, Replay;
    var tr := Replay(c, events);
    RunKeepsInv(c, events);
    ElapsedGoesOn(tr.broadcasts[|tr.broadcasts| - 1], t, u);
    ComesRound(c.minIntervalMs, u - (t + (c.minIntervalMs - Sub32(Millis(t), tr.s.lastResyncMs))));
  }

  const BROADCAST_AT_500 := Trace(State(500, true, None), 500, 500, 0, [500], 1)
  const POSTPONED_AT_1100 := Trace(State(500, true, Some(4400)), 1100, 1100, 600, [500], 2)

  lemma FirstBroadcast(events: seq<Event>)
    requires |events| >= 2 && events[0] == Request(0) && events[1] == Fire(500, true)
    ensures Feasible(Config(500, 5000), events[..2]) && Replay(Config(500, 5000), events[..2]) == BROADCAST_AT_500
  {
    var c := Config(500, 5000);
    hide Replay, Feasible;
    Starts(c, events[..0]);
    Extends(c, events, 0);
    Extends(c, events, 1);
  }

  lemma ThenPostponed(events: seq<Event>)
    requires |events| >= 4 && events[2] == Request(600) && events[3] == Fire(1100, true)
    requires Feasible(Config(500, 5000), events[..2]) && Replay(Config(500, 5000), events[..2]) == BROADCAST_AT_500
    ensures Feasible(Config(500, 5000), events[..4]) && Replay(Config(500, 5000), events[..4]) == POSTPONED_AT_1100
  {
    var c := Config(500, 5000);
    hide Replay, Feasible;
    Extends(c, events, 2);
    Extends(c, events, 3);
  }

  /** A request that is postponed twice: the timer set for 5500 fires just a round of the clock after the broadcast. */
  lemma PostponedTwice()
    ensures var c, late := Config(500, 5000), TWO32 + 500;
            var events := [Request(0), Fire(500, true), Request(600), Fire(1100, true), Fire(late, true)];
            && Feasible(c, events) && Replay(c, events[..4]) == POSTPONED_AT_1100
            && EffectOf(c, Replay(c, events[..4]).s, true, Millis(late)).Postponed?
  {
    var c, late := Config(500, 5000), TWO32 + 500;
    var events := [Request(0), Fire(500, true), Request(600), Fire(1100, true), Fire(late, true)];
    hide Replay, Feasible, After;
    FirstBroadcast(events);
    ThenPostponed(events);
    Extends(c, events, 4);
    assert events[..5] == events;
  }
}
