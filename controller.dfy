/**
 * The control loop of `code.py`: the sign's state, one iteration of the
 * `while True` loop as the pure function `Step`, and the class `Sign` whose
 * fields are the module-level variables the loop updates in place.
 *
 * Hardware outcomes (button edges, monotonic clock readings, wall-clock time,
 * whether the clock sync and the fetch succeed, how the link behaves) arrive
 * as an `Env` per iteration; what the sign asks of the hardware is recorded
 * as a list of `Action`s.
 */
module Controller {
  import opened Wrappers
  import opened Effects
  import opened Stations
  import opened Arrivals
  import opened Resilience
  import Seqs

  /** Seconds between fetches. */
  const UPDATE_DELAY := 30
  /** Seconds between clock syncs. */
  const SYNC_TIME_DELAY := 30
  /** Consecutive failures tolerated before the device is reset. */
  const ERROR_RESET_THRESHOLD := 3

  /** The arrival label right after a line switch. */
  const CLEARED_TIMES := "-,-,-"
  /** The arrival label at start-up, before any fetch. */
  const INITIAL_TIMES := "-"

  /** The five display slots: the logo tile and the four labels. */
  datatype Display = Display(logo: string, northLabel: string, northTimes: string, southLabel: string, southTimes: string)

  /**
   * The sign's mutable state: the active line, the endpoint it fetches from,
   * the display, the monotonic times of the last fetch attempt and the last
   * clock sync, and the count of consecutive failures.
   */
  datatype SignState = SignState(
    currentLine: Line,
    dataSource: string,
    display: Display,
    lastUpdate: Option<int>,
    lastTimeSync: Option<int>,
    errorCounter: nat)

  /** The logo and direction labels are those of `line`. */
  predicate ShowsStation(d: Display, line: Line) {
    && d.logo == StationOf(line).bitmap
    && d.northLabel == StationOf(line).north
    && d.southLabel == StationOf(line).south
  }

  /**
   * What every iteration preserves: the active line is registered, the sign
   * fetches that line's endpoint and shows that line's logo and direction
   * names, and the error count has not passed the reset threshold.
   */
  predicate Valid(s: SignState) {
    && s.dataSource == DataSourceFor(s.currentLine)
    && ShowsStation(s.display, s.currentLine)
    && s.errorCounter <= ERROR_RESET_THRESHOLD
  }

  /** The start-up state: the L line, nothing fetched or synced yet, no errors. */
  function Initial(): (s: SignState)
    ensures Valid(s)
    ensures s.currentLine == L && s.lastUpdate == None && s.lastTimeSync == None && s.errorCounter == 0
    ensures s.display.northTimes == INITIAL_TIMES && s.display.southTimes == INITIAL_TIMES
  {
    var station := StationOf(L);
    SignState(L, DataSourceFor(L),
              Display(station.bitmap, station.north, INITIAL_TIMES, station.south, INITIAL_TIMES),
              None, None, 0)
  }

  /** The requests made during start-up: load the L logo and show the display. */
  const INITIAL_ACTIONS := [LoadLogo(StationOf(L).bitmap), ShowDisplay]

  /** The debounced button edges of one poll. */
  datatype Buttons = Buttons(upFell: bool, downFell: bool)

  /** The line a poll asks for: up selects L and wins a tie, down selects G. */
  function ButtonTarget(b: Buttons): (r: Option<Line>)
    ensures r.None? <==> !b.upFell && !b.downFell
    ensures b.upFell ==> r == Some(L)
    ensures !b.upFell && b.downFell ==> r == Some(G)
  {
    if b.upFell || b.downFell then Some(if b.upFell then L else G) else None
  }

  /**
   * `switch_line(new_line)`: the new endpoint, logo and direction names, and
   * both arrival labels cleared. The active line itself is set by the caller.
   */
  function SwitchedTo(s: SignState, newLine: Line): (r: (SignState, seq<Action>))
    ensures r.0.dataSource == DataSourceFor(newLine) && ShowsStation(r.0.display, newLine)
    ensures r.0.display.northTimes == CLEARED_TIMES && r.0.display.southTimes == CLEARED_TIMES
    ensures r.0.currentLine == s.currentLine && r.0.lastUpdate == s.lastUpdate
    ensures r.0.lastTimeSync == s.lastTimeSync && r.0.errorCounter == s.errorCounter
    ensures r.1 == [LoadLogo(StationOf(newLine).bitmap)]
  {
    var station := StationOf(newLine);
    (s.(dataSource := DataSourceFor(newLine),
        display := Display(station.bitmap, station.north, CLEARED_TIMES, station.south, CLEARED_TIMES)),
     [LoadLogo(station.bitmap)])
  }

  /** Button handling at the top of the loop. */
  function HandleButtons(s: SignState, b: Buttons): (r: (SignState, seq<Action>))
    requires Valid(s)
    ensures Valid(r.0)
  {
    match ButtonTarget(b)
    case Some(newLine) =>
      if s.currentLine != newLine then
        var switched := SwitchedTo(s, newLine);
        (switched.0.(currentLine := newLine, lastUpdate := None), switched.1)
      else (s, [])
    case None => (s, [])
  }

  /**
   * A poll without an edge, or one asking for the line already active,
   * changes nothing; up wins a tie. After a switch the new line is active with
   * its logo and direction names, both arrival labels read "-,-,-", and the
   * last fetch is forgotten so that a fetch is due on the same iteration.
   */
  lemma ButtonHandling(s: SignState, b: Buttons)
    requires Valid(s)
    ensures var r := HandleButtons(s, b);
      && r.0.currentLine == ButtonTarget(b).GetOr(s.currentLine)
      && (b.upFell ==> r.0.currentLine == L)
      && (!b.upFell && b.downFell ==> r.0.currentLine == G)
      && (r.0.currentLine == s.currentLine ==> r == (s, []))
      && (r.0.currentLine != s.currentLine ==>
            && r.0.lastUpdate == None
            && ShowsStation(r.0.display, r.0.currentLine)
            && r.0.display.northTimes == CLEARED_TIMES && r.0.display.southTimes == CLEARED_TIMES
            && r.1 == [LoadLogo(StationOf(r.0.currentLine).bitmap)])
      && r.0.lastTimeSync == s.lastTimeSync && r.0.errorCounter == s.errorCounter
  {
  }

  /** `last is None or now > last + delay`: the comparison is strict. */
  predicate Due(last: Option<int>, now: int, delay: int) {
    last.None? || now > last.value + delay
  }

  /**
   * The schedule test is strict and monotone: nothing recorded means due; at
   * exactly `delay` seconds after the recorded time it is not yet due, one
   * second later it is, and once due it stays due as the clock advances.
   */
  lemma DueIsStrict(last: Option<int>, now: int, later: int, delay: int)
    ensures last.None? ==> Due(last, now, delay)
    ensures last.Some? ==> !Due(last, last.value + delay, delay) && Due(last, last.value + delay + 1, delay)
    ensures Due(last, now, delay) && now <= later ==> Due(last, later, delay)
  {
  }

  /** The monotonic clock as read at the fetch check, the sync check, after the sync, and at the end. */
  datatype Readings = Readings(fetchCheck: int, syncCheck: int, afterSync: int, done: int)

  /** What `network.fetch_data` does: return the stop's data or raise. */
  datatype FetchOutcome = Fetched(stop: StopData) | FetchFailed

  /** Everything the hardware contributes to one iteration. */
  datatype Env = Env(
    buttons: Buttons,
    clock: Readings,
    wallNow: int,
    syncSucceeds: bool,
    fetch: FetchOutcome,
    link: LinkBehaviour,
    credentials: Credentials)

  /** The `try` block of the loop returns normally: sync (when due), fetch and parse all succeed. */
  predicate FetchSucceeds(s: SignState, env: Env) {
    && (!Due(s.lastTimeSync, env.clock.syncCheck, SYNC_TIME_DELAY) || env.syncSucceeds)
    && env.fetch.Fetched?
    && GetArrivalTimes(Name(s.currentLine), env.fetch.stop, env.wallNow).Some?
  }

  /** The state and requests left by the `try` block, and its arrivals when it completes. */
  datatype Attempt = Attempt(state: SignState, actions: seq<Action>, arrivals: Option<Sextuple>)

  /**
   * The `try` block: sync the clock when due, then fetch and format. It stops
   * at the first exception.
   */
  function TryFetch(s: SignState, env: Env): (t: Attempt)
    requires Valid(s)
    ensures Valid(t.state)
  {
    var syncDue := Due(s.lastTimeSync, env.clock.syncCheck, SYNC_TIME_DELAY);
    if syncDue && !env.syncSucceeds then Attempt(s, [SyncClock], None)
    else
      var synced := if syncDue then s.(lastTimeSync := Some(env.clock.afterSync)) else s;
      var actions := (if syncDue then [SyncClock] else []) + [FetchData(s.dataSource)];
      match env.fetch
      case FetchFailed => Attempt(synced, actions, None)
      case Fetched(stop) => Attempt(synced, actions, GetArrivalTimes(Name(s.currentLine), stop, env.wallNow))
  }

  /**
   * The `try` block completes exactly when sync, fetch and parse succeed; only
   * the sync time can change, and a completed sync is kept even when the fetch
   * then fails; the fetch runs exactly when no due sync failed, and it asks
   * for the active endpoint.
   */
  lemma TryFetchProperties(s: SignState, env: Env)
    requires Valid(s)
    ensures var t := TryFetch(s, env);
      && t.state == s.(lastTimeSync := t.state.lastTimeSync)
      && t.state.lastTimeSync ==
           (if Due(s.lastTimeSync, env.clock.syncCheck, SYNC_TIME_DELAY) && env.syncSucceeds
            then Some(env.clock.afterSync) else s.lastTimeSync)
      && (t.arrivals.Some? <==> FetchSucceeds(s, env))
      && (t.arrivals.Some? ==> t.arrivals == GetArrivalTimes(Name(s.currentLine), env.fetch.stop, env.wallNow))
      && ResetDevice !in t.actions && ShowDisplay !in t.actions
      && (forall u :: FetchData(u) in t.actions ==> u == s.dataSource)
      && (FetchData(s.dataSource) in t.actions <==>
            !Due(s.lastTimeSync, env.clock.syncCheck, SYNC_TIME_DELAY) || env.syncSucceeds)
      && (forall a :: a in t.actions ==> a == SyncClock || a == FetchData(s.dataSource))
      && (SyncClock in t.actions <==> Due(s.lastTimeSync, env.clock.syncCheck, SYNC_TIME_DELAY))
      && (SyncClock in t.actions ==> t.actions[0] == SyncClock)
  {
  }

  /**
   * The `try` block asks for the clock sync once when it is due and never
   * otherwise, and for the fetch once exactly when no due sync failed.
   */
  lemma TryFetchRequestsOnce(s: SignState, env: Env)
    requires Valid(s)
    ensures var t := TryFetch(s, env);
      var due := Due(s.lastTimeSync, env.clock.syncCheck, SYNC_TIME_DELAY);
      && multiset(t.actions)[SyncClock] == (if due then 1 else 0)
      && multiset(t.actions)[FetchData(s.dataSource)] == (if !due || env.syncSucceeds then 1 else 0)
  {
  }

  /** The new state, the requests made, and whether the iteration ended in a device reset. */
  datatype StepResult = StepResult(state: SignState, actions: seq<Action>, reset: bool)

  /** The loop after a completed `try` block: show the arrivals, clear the count, record the time. */
  function Succeeded(t: Attempt, env: Env): (r: StepResult)
    requires Valid(t.state) && t.arrivals.Some?
    ensures Valid(r.state)
  {
    var labels := UpdateTextLabels(t.arrivals.value);
    var shown := t.state.display.(northTimes := labels.0, southTimes := labels.1);
    StepResult(t.state.(display := shown, errorCounter := 0, lastUpdate := Some(env.clock.done)),
               t.actions + [ShowDisplay], false)
  }

  /**
   * The `except` branch: count the error; past the threshold reset the
   * device and stop, otherwise repair the link and record the time anyway.
   */
  function Failed(t: Attempt, env: Env): (r: StepResult)
    requires Valid(t.state) && t.arrivals.None?
    ensures !r.reset ==> Valid(r.state)
  {
    var count := t.state.errorCounter + 1;
    if count > ERROR_RESET_THRESHOLD then
      StepResult(t.state.(errorCounter := count), t.actions + [ResetDevice], true)
    else
      StepResult(t.state.(errorCounter := count, lastUpdate := Some(env.clock.done)),
                 t.actions + ReconnectActions(env.link, env.credentials), false)
  }

  /** The requests of the `try` block come first; the rest of the success branch does not depend on them. */
  lemma SucceededAfter(t: Attempt, env: Env)
    requires Valid(t.state) && t.arrivals.Some?
    ensures var u := Succeeded(Attempt(t.state, [], t.arrivals), env);
      Succeeded(t, env) == u.(actions := t.actions + u.actions)
  {
  }

  /** The requests of the `try` block come first; the rest of the `except` branch does not depend on them. */
  lemma FailedAfter(t: Attempt, env: Env)
    requires Valid(t.state) && t.arrivals.None?
    ensures var u := Failed(Attempt(t.state, [], None), env);
      Failed(t, env) == u.(actions := t.actions + u.actions)
  {
  }

  /** The fetch branch of the loop, entered when a fetch is due. */
  function FetchStep(s: SignState, env: Env): (r: StepResult)
    requires Valid(s)
    ensures !r.reset ==> Valid(r.state)
  {
    var t := TryFetch(s, env);
    if t.arrivals.Some? then Succeeded(t, env) else Failed(t, env)
  }

  /**
   * The requests of one run of the fetch branch: a device reset is requested
   * at most once, as the last request, exactly when the branch ends in one.
   */
  predicate ResetsLast(actions: seq<Action>, reset: bool) {
    && multiset(actions)[ResetDevice] == (if reset then 1 else 0)
    && (reset ==> actions != [] && actions[|actions| - 1] == ResetDevice)
  }

  /** Requests without a reset followed by requests that reset at most once, last. */
  lemma ResetsLastAppend(a: seq<Action>, b: seq<Action>, reset: bool)
    requires ResetsLast(a, false) && ResetsLast(b, reset)
    ensures ResetsLast(a + b, reset)
  {
    Seqs.AppendEnds(a, b);
  }

  /**
   * What the fetch branch asks for: only the active endpoint, and that
   * exactly when no due sync failed. The line and endpoint stay as they
   * were; the sync time changes exactly when a due sync succeeds.
   */
  lemma FetchStepRequests(s: SignState, env: Env)
    requires Valid(s)
    ensures var r := FetchStep(s, env);
      && r.state.currentLine == s.currentLine && r.state.dataSource == s.dataSource
      && (forall u :: FetchData(u) in r.actions ==> u == s.dataSource)
      && (FetchData(s.dataSource) in r.actions <==>
            !Due(s.lastTimeSync, env.clock.syncCheck, SYNC_TIME_DELAY) || env.syncSucceeds)
      && r.state.lastTimeSync ==
           (if Due(s.lastTimeSync, env.clock.syncCheck, SYNC_TIME_DELAY) && env.syncSucceeds
            then Some(env.clock.afterSync) else s.lastTimeSync)
  {
    TryFetchProperties(s, env);
    var repair := ReconnectActions(env.link, env.credentials);
    assert forall u :: FetchData(u) !in repair;
  }

  /** The fetch branch requests a device reset once, last, exactly when it ends in one. */
  lemma FetchStepResets(s: SignState, env: Env)
    requires Valid(s)
    ensures ResetsLast(FetchStep(s, env).actions, FetchStep(s, env).reset)
  {
    TryFetchProperties(s, env);
    var t := TryFetch(s, env);
    assert ResetsLast(t.actions, false);
    if FetchSucceeds(s, env) {
      FetchStepSuccess(s, env);
      ResetsLastAppend(t.actions, [ShowDisplay], false);
    } else {
      FetchStepFailure(s, env);
      if FetchStep(s, env).reset {
        ResetsLastAppend(t.actions, [ResetDevice], true);
      } else {
        var repair := ReconnectActions(env.link, env.credentials);
        assert ResetDevice !in repair;
        ResetsLastAppend(t.actions, repair, false);
      }
    }
  }

  /** A fetch branch asks for the data once, exactly when no due clock sync failed. */
  lemma FetchStepFetchesOnce(s: SignState, env: Env)
    requires Valid(s)
    ensures multiset(FetchStep(s, env).actions)[FetchData(s.dataSource)]
         == (if !Due(s.lastTimeSync, env.clock.syncCheck, SYNC_TIME_DELAY) || env.syncSucceeds then 1 else 0)
  {
    TryFetchRequestsOnce(s, env);
    var t := TryFetch(s, env);
    if FetchSucceeds(s, env) {
      FetchStepSuccess(s, env);
    } else {
      FetchStepFailure(s, env);
      var repair := ReconnectActions(env.link, env.credentials);
      assert FetchData(s.dataSource) !in repair;
    }
  }

  /** A successful fetch shows the new arrivals, clears the error count and records the time. */
  lemma FetchStepSuccess(s: SignState, env: Env)
    requires Valid(s) && FetchSucceeds(s, env)
    ensures var r := FetchStep(s, env);
      && !r.reset
      && r.state.errorCounter == 0
      && r.state.lastUpdate == Some(env.clock.done)
      && (r.state.display.northTimes, r.state.display.southTimes)
           == UpdateTextLabels(GetArrivalTimes(Name(s.currentLine), env.fetch.stop, env.wallNow).value)
      && r.actions == TryFetch(s, env).actions + [ShowDisplay]
  {
    TryFetchProperties(s, env);
  }

  /**
   * A failed attempt leaves the display as it was and counts the error; past
   * the threshold the device is reset and nothing else happens, otherwise the
   * link is repaired and the time is recorded anyway, so that the next
   * attempt waits a full interval.
   */
  lemma FetchStepFailure(s: SignState, env: Env)
    requires Valid(s) && !FetchSucceeds(s, env)
    ensures var r := FetchStep(s, env);
      && r.state.errorCounter == s.errorCounter + 1
      && r.state.display == s.display
      && (r.reset <==> s.errorCounter + 1 > ERROR_RESET_THRESHOLD)
      && (r.reset ==> r.actions == TryFetch(s, env).actions + [ResetDevice])
      && (!r.reset ==> r.state.lastUpdate == Some(env.clock.done))
      && (!r.reset ==> r.actions == TryFetch(s, env).actions + ReconnectActions(env.link, env.credentials))
  {
    TryFetchProperties(s, env);
  }

  /** One iteration of the main loop: button handling, then the fetch branch when a fetch is due. */
  function Step(s: SignState, env: Env): (r: StepResult)
    requires Valid(s)
    ensures !r.reset ==> Valid(r.state)
  {
    var pressed := HandleButtons(s, env.buttons);
    if !Due(pressed.0.lastUpdate, env.clock.fetchCheck, UPDATE_DELAY) then StepResult(pressed.0, pressed.1, false)
    else
      var fetched := FetchStep(pressed.0, env);
      fetched.(actions := pressed.1 + fetched.actions)
  }

  /**
   * An iteration without a due fetch only handles the buttons; one with a due
   * fetch handles the buttons and then runs the fetch branch on the state
   * the buttons left.
   */
  lemma StepUnfolds(s: SignState, env: Env)
    requires Valid(s)
    ensures var pressed := HandleButtons(s, env.buttons);
      var r := Step(s, env);
      && r.state.currentLine == pressed.0.currentLine
      && (!Due(pressed.0.lastUpdate, env.clock.fetchCheck, UPDATE_DELAY) ==> r == StepResult(pressed.0, pressed.1, false))
      && (Due(pressed.0.lastUpdate, env.clock.fetchCheck, UPDATE_DELAY) ==>
            r == FetchStep(pressed.0, env).(actions := pressed.1 + FetchStep(pressed.0, env).actions))
  {
    var pressed := HandleButtons(s, env.buttons);
    if Due(pressed.0.lastUpdate, env.clock.fetchCheck, UPDATE_DELAY) {
      FetchStepRequests(pressed.0, env);
    }
  }

  /**
   * The requests of one iteration start with those of the button handling,
   * and every fetch asks for the endpoint of the line active after button
   * handling, so none uses a line switched away from.
   */
  lemma StepRequests(s: SignState, env: Env)
    requires Valid(s)
    ensures var pressed := HandleButtons(s, env.buttons);
      var r := Step(s, env);
      && |pressed.1| <= |r.actions| && r.actions[..|pressed.1|] == pressed.1
      && (forall u :: FetchData(u) in r.actions ==> u == DataSourceFor(pressed.0.currentLine))
  {
    var pressed := HandleButtons(s, env.buttons);
    ButtonHandling(s, env.buttons);
    StepUnfolds(s, env);
    assert forall u :: FetchData(u) !in pressed.1;
    if Due(pressed.0.lastUpdate, env.clock.fetchCheck, UPDATE_DELAY) {
      FetchStepRequests(pressed.0, env);
      Seqs.AppendEnds(pressed.1, FetchStep(pressed.0, env).actions);
    }
  }

  /** An iteration requests a device reset once, last, exactly when it ends in one. */
  lemma StepResets(s: SignState, env: Env)
    requires Valid(s)
    ensures ResetsLast(Step(s, env).actions, Step(s, env).reset)
  {
    var pressed := HandleButtons(s, env.buttons);
    ButtonHandling(s, env.buttons);
    StepUnfolds(s, env);
    assert ResetDevice !in pressed.1;
    if Due(pressed.0.lastUpdate, env.clock.fetchCheck, UPDATE_DELAY) {
      FetchStepResets(pressed.0, env);
      ResetsLastAppend(pressed.1, FetchStep(pressed.0, env).actions, FetchStep(pressed.0, env).reset);
    }
  }

  /**
   * Without a button press, an iteration does anything at all exactly when a
   * fetch is due, that is when there was no fetch yet or strictly more than
   * the interval has passed since the last one; otherwise it leaves the
   * state alone.
   */
  lemma FetchRunsExactlyWhenDue(s: SignState, env: Env)
    requires Valid(s) && env.buttons == Buttons(false, false)
    ensures Step(s, env).actions != [] <==> Due(s.lastUpdate, env.clock.fetchCheck, UPDATE_DELAY)
    ensures !Due(s.lastUpdate, env.clock.fetchCheck, UPDATE_DELAY) ==> Step(s, env).state == s
  {
    ButtonHandling(s, env.buttons);
    StepUnfolds(s, env);
    if Due(s.lastUpdate, env.clock.fetchCheck, UPDATE_DELAY) {
      TryFetchProperties(s, env);
      assert TryFetch(s, env).actions != [];
    }
  }

  /** A fetch branch never runs again within the interval after it recorded its time. */
  lemma NoHotRetry(s: SignState, env: Env, next: Env)
    requires Valid(s)
    requires Due(HandleButtons(s, env.buttons).0.lastUpdate, env.clock.fetchCheck, UPDATE_DELAY)
    requires !Step(s, env).reset
    requires next.buttons == Buttons(false, false)
    requires next.clock.fetchCheck <= env.clock.done + UPDATE_DELAY
    ensures Step(Step(s, env).state, next) == StepResult(Step(s, env).state, [], false)
  {
    var pressed := HandleButtons(s, env.buttons).0;
    StepUnfolds(s, env);
    if FetchSucceeds(pressed, env) {
      FetchStepSuccess(pressed, env);
    } else {
      FetchStepFailure(pressed, env);
    }
    ButtonHandling(Step(s, env).state, next.buttons);
  }

  /** The outcome of a run of iterations: final state, all requests, iterations run, reset or not. */
  datatype RunResult = RunResult(state: SignState, actions: seq<Action>, ticks: nat, reset: bool)

  /**
   * The `while True` loop over the first `|envs|` iterations. A device reset
   * ends the run: it is requested at most once, as the very last request,
   * and no iteration follows it.
   */
  function Iterate(s: SignState, envs: seq<Env>): (r: RunResult)
    requires Valid(s)
    ensures r.ticks <= |envs|
    ensures !r.reset ==> r.ticks == |envs| && Valid(r.state)
    ensures r.reset ==> r.ticks >= 1
    decreases |envs|
  {
    if envs == [] then RunResult(s, [], 0, false)
    else
      var st := Step(s, envs[0]);
      if st.reset then RunResult(st.state, st.actions, 1, true)
      else
        var rest := Iterate(st.state, envs[1..]);
        RunResult(rest.state, st.actions + rest.actions, rest.ticks + 1, rest.reset)
  }

  /** A run requests a device reset at most once, as its very last request, exactly when it ends in one. */
  lemma {:induction false} IterateResets(s: SignState, envs: seq<Env>)
    requires Valid(s)
    ensures ResetsLast(Iterate(s, envs).actions, Iterate(s, envs).reset)
    decreases |envs|
  {
    if envs != [] {
      StepResets(s, envs[0]);
      var st := Step(s, envs[0]);
      if !st.reset {
        IterateResets(st.state, envs[1..]);
        var rest := Iterate(st.state, envs[1..]);
        ResetsLastAppend(st.actions, rest.actions, rest.reset);
      }
    }
  }

  /** Running one more iteration after a run that did not reset extends it by that iteration's step. */
  lemma {:induction false} IterateExtend(s: SignState, envs: seq<Env>, env: Env)
    requires Valid(s) && !Iterate(s, envs).reset
    ensures var prev := Iterate(s, envs);
      var st := Step(prev.state, env);
      Iterate(s, envs + [env]) == RunResult(st.state, prev.actions + st.actions, prev.ticks + 1, st.reset)
    decreases |envs|
  {
    if envs == [] {
      Seqs.AppendHeadTail([env], []);
      Seqs.AppendEmpty(Step(s, env).actions);
    } else {
      var st := Step(s, envs[0]);
      Seqs.AppendHeadTail(envs, [env]);
      IterateExtend(st.state, envs[1..], env);
      var prev := Iterate(st.state, envs[1..]);
      Seqs.AppendAssociative(st.actions, prev.actions, Step(prev.state, env).actions);
    }
  }

  /** Nothing runs after a device reset: further iterations change neither the outcome nor the requests. */
  lemma {:induction false} IterateStopsAtReset(s: SignState, envs: seq<Env>, more: seq<Env>)
    requires Valid(s) && Iterate(s, envs).reset
    ensures Iterate(s, envs + more) == Iterate(s, envs)
    decreases |envs|
  {
    assert envs != [];
    Seqs.AppendHeadTail(envs, more);
    var st := Step(s, envs[0]);
    if !st.reset {
      IterateStopsAtReset(st.state, envs[1..], more);
    }
  }

  /** One more iteration of a run that has not reset, in terms of the prefix of `envs` run so far. */
  lemma PrefixExtend(s: SignState, envs: seq<Env>, ticks: nat, requestedBefore: seq<Action>, requestedNow: seq<Action>)
    requires Valid(s) && ticks < |envs| && !Iterate(s, envs[..ticks]).reset
    requires requestedNow == requestedBefore + Iterate(s, envs[..ticks]).actions
    ensures var st := Step(Iterate(s, envs[..ticks]).state, envs[ticks]);
      var next := Iterate(s, envs[..ticks + 1]);
      && next.ticks == ticks + 1 && next.reset == st.reset && next.state == st.state
      && requestedNow + st.actions == requestedBefore + next.actions
  {
    var prev := Iterate(s, envs[..ticks]);
    Seqs.TakeOneMore(envs, ticks);
    IterateExtend(s, envs[..ticks], envs[ticks]);
    Seqs.AppendAssociative(requestedBefore, prev.actions, Step(prev.state, envs[ticks]).actions);
  }

  /** A run that has used all of `envs`, or has reset, is the run over all of `envs`. */
  lemma PrefixComplete(s: SignState, envs: seq<Env>, ticks: nat)
    requires Valid(s) && ticks <= |envs|
    requires ticks == |envs| || Iterate(s, envs[..ticks]).reset
    ensures Iterate(s, envs[..ticks]) == Iterate(s, envs)
  {
    if ticks < |envs| {
      IterateStopsAtReset(s, envs[..ticks], envs[ticks..]);
      Seqs.TakeDropJoin(envs, ticks);
    } else {
      Seqs.TakeDropJoin(envs, ticks);
      Seqs.AppendEmpty(envs[..ticks]);
    }
  }

  /**
   * Iterations without a button press whose fetch fails, each one late
   * enough that a fetch is due.
   */
  ghost predicate FailingFetches(s: SignState, envs: seq<Env>) {
    && (|envs| > 0 ==> Due(s.lastUpdate, envs[0].clock.fetchCheck, UPDATE_DELAY))
    && (forall i :: 0 <= i < |envs| ==> envs[i].buttons == Buttons(false, false) && envs[i].fetch == FetchFailed)
    && (forall i :: 0 < i < |envs| ==> envs[i].clock.fetchCheck > envs[i - 1].clock.done + UPDATE_DELAY)
  }

  /**
   * Consecutive failures reset the device exactly when the count passes the
   * threshold, on the iteration that makes it pass.
   */
  lemma {:induction false} FailuresEscalate(s: SignState, envs: seq<Env>)
    requires Valid(s) && FailingFetches(s, envs)
    ensures Iterate(s, envs).reset <==> s.errorCounter + |envs| > ERROR_RESET_THRESHOLD
    ensures Iterate(s, envs).reset ==> Iterate(s, envs).ticks == ERROR_RESET_THRESHOLD + 1 - s.errorCounter
    ensures !Iterate(s, envs).reset ==> Iterate(s, envs).state.errorCounter == s.errorCounter + |envs|
    decreases |envs|
  {
    if envs != [] {
      var env := envs[0];
      ButtonHandling(s, env.buttons);
      StepUnfolds(s, env);
      FetchStepFailure(s, env);
      var st := Step(s, env);
      if !st.reset {
        var tail := envs[1..];
        assert st.state.lastUpdate == Some(env.clock.done);
        assert FailingFetches(st.state, tail) by {
          forall i | 0 < i < |tail|
            ensures tail[i].clock.fetchCheck > tail[i - 1].clock.done + UPDATE_DELAY
          {
            assert tail[i] == envs[i + 1] && tail[i - 1] == envs[i];
          }
        }
        FailuresEscalate(st.state, tail);
      }
    }
  }

  /** From start-up, the fourth consecutive failure resets the device, once. */
  lemma FourthFailureResets(envs: seq<Env>)
    requires |envs| == 4 && FailingFetches(Initial(), envs)
    ensures Iterate(Initial(), envs).reset && Iterate(Initial(), envs).ticks == 4
    ensures multiset(Iterate(Initial(), envs).actions)[ResetDevice] == 1
  {
    FailuresEscalate(Initial(), envs);
    IterateResets(Initial(), envs);
  }

  /**
   * The module-level variables of `code.py` that the loop updates in place,
   * with the list of requests made to the hardware so far.
   */
  class Sign {
    var currentLine: Line
    var dataSource: string
    var logo: string
    var northLabel: string
    var northTimes: string
    var southLabel: string
    var southTimes: string
    var lastUpdate: Option<int>
    var lastTimeSync: Option<int>
    var errorCounter: nat
    var requested: seq<Action>

    function State(): SignState
      reads this
    {
      SignState(currentLine, dataSource, Display(logo, northLabel, northTimes, southLabel, southTimes),
                lastUpdate, lastTimeSync, errorCounter)
    }

    /** The set-up code before the loop: the L line, labels placed, nothing fetched. */
    constructor ()
      ensures State() == Initial() && requested == INITIAL_ACTIONS
    {
      var station := StationOf(L);
      currentLine := L;
      dataSource := DataSourceFor(L);
      logo := station.bitmap;
      northLabel, northTimes := station.north, INITIAL_TIMES;
      southLabel, southTimes := station.south, INITIAL_TIMES;
      errorCounter := 0;
      lastTimeSync, lastUpdate := None, None;
      requested := [LoadLogo(station.bitmap), ShowDisplay];
    }

    /** `switch_line(new_line)` */
    method SwitchLine(newLine: Line)
      modifies this
      ensures State() == SwitchedTo(old(State()), newLine).0
      ensures requested == old(requested) + SwitchedTo(old(State()), newLine).1
    {
      ghost var before := State();
      var station := StationOf(newLine);
      dataSource := DataSourceFor(newLine);
      requested := requested + [LoadLogo(station.bitmap)];
      logo := station.bitmap;
      northLabel := station.north;
      southLabel := station.south;
      northTimes := CLEARED_TIMES;
      southTimes := CLEARED_TIMES;
      assert State() == before.(dataSource := dataSource,
                                display := Display(logo, northLabel, northTimes, southLabel, southTimes));
    }

    /** `update_text(n0, n1, s0, s1, n2, s2)` */
    method UpdateText(arrivals: Sextuple)
      modifies this
      ensures (northTimes, southTimes) == UpdateTextLabels(arrivals)
      ensures State() == old(State()).(display := old(State()).display.(northTimes := northTimes, southTimes := southTimes))
      ensures requested == old(requested) + [ShowDisplay]
    {
      northTimes := JoinTriple((arrivals.0, arrivals.1, arrivals.4));
      southTimes := JoinTriple((arrivals.2, arrivals.3, arrivals.5));
      requested := requested + [ShowDisplay];
    }

    /** `attempt_wifi_reconnect()` */
    method AttemptWifiReconnect(link: LinkBehaviour, credentials: Credentials)
      modifies this`requested
      ensures requested == old(requested) + ReconnectActions(link, credentials)
    {
      if link.connected {
        return;
      }
      requested := requested + [ConnectAP(credentials)];
      if !link.firstConnectSucceeds {
        requested := requested + [ResetEsp];
        if link.espResetSucceeds {
          requested := requested + [Pause(ESP_SETTLE_SECONDS), ConnectAP(credentials)];
        }
      }
    }

    /** The `try` block of the loop: clock sync when due, then fetch and format. */
    method TryFetchBlock(env: Env) returns (arrivals: Option<Sextuple>)
      requires Valid(State())
      modifies this
      ensures State() == TryFetch(old(State()), env).state
      ensures requested == old(requested) + TryFetch(old(State()), env).actions
      ensures arrivals == TryFetch(old(State()), env).arrivals
    {
      arrivals := None;
      if lastTimeSync.None? || env.clock.syncCheck > lastTimeSync.value + SYNC_TIME_DELAY {
        requested := requested + [SyncClock];
        if !env.syncSucceeds {
          return;
        }
        lastTimeSync := Some(env.clock.afterSync);
      }
      requested := requested + [FetchData(dataSource)];
      if env.fetch.Fetched? {
        arrivals := GetArrivalTimes(Name(currentLine), env.fetch.stop, env.wallNow);
      }
    }

    /** The loop after a completed `try` block. */
    method Succeed(arrivals: Sextuple, env: Env)
      requires Valid(State())
      modifies this
      ensures State() == Succeeded(Attempt(old(State()), [], Some(arrivals)), env).state
      ensures requested == old(requested) + Succeeded(Attempt(old(State()), [], Some(arrivals)), env).actions
    {
      UpdateText(arrivals);
      errorCounter := 0;
      lastUpdate := Some(env.clock.done);
    }

    /** The `except` branch of the loop. */
    method Fail(env: Env) returns (reset: bool)
      requires Valid(State())
      modifies this
      ensures State() == Failed(Attempt(old(State()), [], None), env).state
      ensures requested == old(requested) + Failed(Attempt(old(State()), [], None), env).actions
      ensures reset == Failed(Attempt(old(State()), [], None), env).reset
    {
      ghost var before := State();
      ghost var repair := ReconnectActions(env.link, env.credentials);
      Seqs.AppendEmpty([ResetDevice]);
      Seqs.AppendEmpty(repair);
      errorCounter := errorCounter + 1;
      if errorCounter > ERROR_RESET_THRESHOLD {
        requested := requested + [ResetDevice];
        assert Failed(Attempt(before, [], None), env) == StepResult(before.(errorCounter := errorCounter), [ResetDevice], true);
        assert State() == before.(errorCounter := errorCounter);
        return true;
      }
      AttemptWifiReconnect(env.link, env.credentials);
      lastUpdate := Some(env.clock.done);
      assert Failed(Attempt(before, [], None), env)
          == StepResult(before.(errorCounter := errorCounter, lastUpdate := lastUpdate), repair, false);
      assert State() == before.(errorCounter := errorCounter, lastUpdate := lastUpdate);
      reset := false;
    }

    /** The fetch branch of the loop, entered when a fetch is due. */
    method FetchBranch(env: Env) returns (reset: bool)
      requires Valid(State())
      modifies this
      ensures State() == FetchStep(old(State()), env).state
      ensures requested == old(requested) + FetchStep(old(State()), env).actions
      ensures reset == FetchStep(old(State()), env).reset
    {
      ghost var before, requestedBefore := State(), requested;
      var arrivals := TryFetchBlock(env);
      ghost var t := TryFetch(before, env);
      ghost var tried := Attempt(State(), [], arrivals);
      if arrivals.Some? {
        Succeed(arrivals.value, env);
        reset := false;
        SucceededAfter(t, env);
        assert FetchStep(before, env) == Succeeded(t, env);
        Seqs.AppendAssociative(requestedBefore, t.actions, Succeeded(tried, env).actions);
      } else {
        reset := Fail(env);
        FailedAfter(t, env);
        assert FetchStep(before, env) == Failed(t, env);
        Seqs.AppendAssociative(requestedBefore, t.actions, Failed(tried, env).actions);
      }
    }

    /** The button handling at the top of the loop. */
    method PollButtons(buttons: Buttons)
      requires Valid(State())
      modifies this
      ensures State() == HandleButtons(old(State()), buttons).0
      ensures requested == old(requested) + HandleButtons(old(State()), buttons).1
    {
      if buttons.upFell || buttons.downFell {
        var newLine := if buttons.upFell then L else G;
        if currentLine != newLine {
          SwitchLine(newLine);
          currentLine := newLine;
          lastUpdate := None;
        }
      }
    }

    /** One pass through the body of the `while True` loop. */
    method Tick(env: Env) returns (reset: bool)
      requires Valid(State())
      modifies this
      ensures State() == Step(old(State()), env).state
      ensures requested == old(requested) + Step(old(State()), env).actions
      ensures reset == Step(old(State()), env).reset
    {
      ghost var before, requestedBefore := State(), requested;
      PollButtons(env.buttons);
      ghost var pressed := HandleButtons(before, env.buttons);
      reset := false;
      if lastUpdate.None? || env.clock.fetchCheck > lastUpdate.value + UPDATE_DELAY {
        reset := FetchBranch(env);
        Seqs.AppendAssociative(requestedBefore, pressed.1, FetchStep(pressed.0, env).actions);
      } else {
        assert Step(before, env) == StepResult(pressed.0, pressed.1, false);
      }
    }

    /** The `while True` loop, over the iterations in `envs`; it stops early when the device is reset. */
    method Run(envs: seq<Env>) returns (ticks: nat, reset: bool)
      requires Valid(State())
      modifies this
      ensures State() == Iterate(old(State()), envs).state
      ensures requested == old(requested) + Iterate(old(State()), envs).actions
      ensures ticks == Iterate(old(State()), envs).ticks && reset == Iterate(old(State()), envs).reset
    {
      ghost var start, requestedBefore := State(), requested;
      ticks, reset := 0, false;
      while ticks < |envs| && !reset
        invariant ticks <= |envs|
        invariant Iterate(start, envs[..ticks]).ticks == ticks && Iterate(start, envs[..ticks]).reset == reset
        invariant State() == Iterate(start, envs[..ticks]).state
        invariant requested == requestedBefore + Iterate(start, envs[..ticks]).actions
        decreases |envs| - ticks
      {
        PrefixExtend(start, envs, ticks, requestedBefore, requested);
        reset := Tick(envs[ticks]);
        ticks := ticks + 1;
      }
      PrefixComplete(start, envs, ticks);
    }
  }
}
