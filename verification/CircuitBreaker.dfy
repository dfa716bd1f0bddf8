/**
 The circuit breaker as a timed state machine. Its deque of failures is pruned
 as it goes; the reference machine beside it forgets nothing, and the two give
 the same answers on every run with a clock that does not go back.
 */
module CircuitBreaker {
  import opened Prelude

  datatype CircuitState = Closed | Open | HalfOpen

  /** Durations are in the clock's unit. */
  datatype Config = Config(failureThreshold: nat, failureWindow: nat, recoveryTimeout: nat, successThreshold: nat)

  /** Time elapsed since `earlier`; none if the clock shows an earlier time. */
  function Since(now: nat, earlier: nat): nat {
    if now >= earlier then now - earlier else 0
  }

  /** How many of the times lie within the window. */
  function CountWithin(times: seq<nat>, now: nat, window: nat): nat {
    if times == [] then 0
    else CountWithin(times[..|times| - 1], now, window) + (if Since(now, times[|times| - 1]) <= window then 1 else 0)
  }

  /** The times left after dropping old ones from the front, up to the first that is recent. */
  function Pruned(times: seq<nat>, now: nat, window: nat): seq<nat> {
    if times != [] && Since(now, times[0]) > window then Pruned(times[1..], now, window) else times
  }

  /** What is counted are the times whose window has not ended. */
  lemma {:induction false} CountWithinIs(times: seq<nat>, now: nat, window: nat)
    ensures CountWithin(times, now, window) == |set i | 0 <= i < |times| && now <= times[i] + window|
  {
    var here := set i | 0 <= i < |times| && now <= times[i] + window;
    if times == [] {
      assert here == {};
    } else {
      var last := |times| - 1;
      CountWithinIs(times[..last], now, window);
      var before := set i | 0 <= i < last && now <= times[..last][i] + window;
      assert here == before + if now <= times[last] + window then {last} else {};
    }
  }

  /** What is dropped from the front are times whose window has ended, up to the first whose has not. */
  lemma {:induction false} PrunedIs(times: seq<nat>, now: nat, window: nat)
    ensures
      var kept := Pruned(times, now, window);
      var d := |times| - |kept|;
      && 0 <= d && kept == times[d..] && (forall i :: 0 <= i < d ==> times[i] + window < now)
      && (d < |times| ==> now <= times[d] + window)
    decreases |times|
  {
    if times != [] && Since(now, times[0]) > window {
      PrunedIs(times[1..], now, window);
      var d := |times| - |Pruned(times, now, window)|;
      forall i | 0 <= i < d ensures times[i] + window < now {
        if i > 0 {
          assert times[i] == times[1..][i - 1];
        }
      }
    }
  }

  // ---------------------------------------------------------------------------
  // The breaker as a function of events
  // ---------------------------------------------------------------------------

  datatype Breaker = Breaker(
    state: CircuitState, failures: seq<nat>, successes: nat, openedAt: Option<nat>, rejected: nat)

  const FRESH: Breaker := Breaker(Closed, [], 0, None, 0)

  datatype Event = Allow(now: nat) | Success(now: nat) | Failure(now: nat) | Reset(now: nat)

  predicate TimeoutOver(c: Config, openedAt: Option<nat>, now: nat) {
    openedAt.Some? && Since(now, openedAt.value) >= c.recoveryTimeout
  }

  /** Does the breaker let a request through? */
  predicate Admits(c: Config, b: Breaker, now: nat) {
    b.state != Open || TimeoutOver(c, b.openedAt, now)
  }

  function OnAllow(c: Config, b: Breaker, now: nat): Breaker {
    if b.state != Open then b
    else if TimeoutOver(c, b.openedAt, now) then b.(state := HalfOpen, successes := 0)
    else b.(rejected := b.rejected + 1)
  }

  function OnSuccess(c: Config, b: Breaker): Breaker {
    if b.state != HalfOpen then b
    else if b.successes + 1 >= c.successThreshold then
      b.(state := Closed, successes := b.successes + 1, openedAt := None, failures := [])
    else b.(successes := b.successes + 1)
  }

  function OnFailure(c: Config, b: Breaker, now: nat): Breaker {
    var failures := Pruned(b.failures, now, c.failureWindow) + [now];
    match b.state
    case Closed =>
      if |failures| >= c.failureThreshold then b.(failures := failures, state := Open, openedAt := Some(now))
      else b.(failures := failures)
    case HalfOpen => b.(failures := failures, state := Open, openedAt := Some(now), successes := 0)
    case Open => b.(failures := failures)
  }

  function Next(c: Config, b: Breaker, e: Event): Breaker {
    match e
    case Allow(now) => OnAllow(c, b, now)
    case Success(_) => OnSuccess(c, b)
    case Failure(now) => OnFailure(c, b, now)
    case Reset(_) => b.(state := Closed, openedAt := None, failures := [], successes := 0)
  }

  function Run(c: Config, es: seq<Event>): Breaker {
    if es == [] then FRESH else Next(c, Run(c, es[..|es| - 1]), es[|es| - 1])
  }

  /** The clock never goes back. */
  ghost predicate Monotone(es: seq<Event>) {
    forall i, j :: 0 <= i < j < |es| ==> es[i].now <= es[j].now
  }

  // ---------------------------------------------------------------------------
  // The reference that forgets nothing
  // ---------------------------------------------------------------------------

  /** `all` holds every failure since the circuit was last closed. */
  function OnFailureRef(c: Config, r: Breaker, now: nat): Breaker {
    var all := r.failures + [now];
    match r.state
    case Closed =>
      if CountWithin(all, now, c.failureWindow) >= c.failureThreshold then
        r.(failures := all, state := Open, openedAt := Some(now))
      else r.(failures := all)
    case HalfOpen => r.(failures := all, state := Open, openedAt := Some(now), successes := 0)
    case Open => r.(failures := all)
  }

  function NextRef(c: Config, r: Breaker, e: Event): Breaker {
    if e.Failure? then OnFailureRef(c, r, e.now) else Next(c, r, e)
  }

  function RunRef(c: Config, es: seq<Event>): Breaker {
    if es == [] then FRESH else NextRef(c, RunRef(c, es[..|es| - 1]), es[|es| - 1])
  }

  ghost predicate Ascends(times: seq<nat>, last: nat) {
    && (forall i, j :: 0 <= i < j < |times| ==> times[i] <= times[j])
    && (forall i :: 0 <= i < |times| ==> times[i] <= last)
  }

  /** `kept` is `all` without some leading times that were out of the window by `last`. */
  ghost predicate DroppedOld(all: seq<nat>, kept: seq<nat>, last: nat, window: nat) {
    |kept| <= |all| && kept == all[|all| - |kept|..]
    && forall i :: 0 <= i < |all| - |kept| ==> last - all[i] > window
  }

  lemma {:induction false} CountAppend(a: seq<nat>, b: seq<nat>, now: nat, window: nat)
    ensures CountWithin(a + b, now, window) == CountWithin(a, now, window) + CountWithin(b, now, window)
  {
    if b == [] {
      assert a + b == a;
    } else {
      CountAppend(a, b[..|b| - 1], now, window);
      assert (a + b)[..|a + b| - 1] == a + b[..|b| - 1];
    }
  }

  lemma {:induction false} CountNone(times: seq<nat>, now: nat, window: nat)
    requires forall i :: 0 <= i < |times| ==> Since(now, times[i]) > window
    ensures CountWithin(times, now, window) == 0
  {
    if times != [] {
      CountNone(times[..|times| - 1], now, window);
    }
  }

  lemma {:induction false} CountAll(times: seq<nat>, now: nat, window: nat)
    requires forall i :: 0 <= i < |times| ==> Since(now, times[i]) <= window
    ensures CountWithin(times, now, window) == |times|
  {
    if times != [] {
      CountAll(times[..|times| - 1], now, window);
    }
  }

  /** What was dropped can no longer count. */
  lemma DroppedDoNotCount(all: seq<nat>, kept: seq<nat>, last: nat, now: nat, window: nat)
    requires DroppedOld(all, kept, last, window) && last <= now
    ensures CountWithin(kept, now, window) == CountWithin(all, now, window)
  {
    var dropped := all[..|all| - |kept|];
    assert all == dropped + kept;
    forall i | 0 <= i < |dropped| ensures Since(now, dropped[i]) > window {
      assert dropped[i] == all[i];
    }
    CountNone(dropped, now, window);
    CountAppend(dropped, kept, now, window);
  }

  /** Pruning an ascending deque leaves exactly the times inside the window. */
  lemma {:induction false} PruneExact(times: seq<nat>, now: nat, window: nat)
    requires Ascends(times, now)
    ensures DroppedOld(times, Pruned(times, now, window), now, window)
    ensures forall i :: 0 <= i < |Pruned(times, now, window)| ==> Since(now, Pruned(times, now, window)[i]) <= window
    decreases |times|
  {
    if times != [] && Since(now, times[0]) > window {
      PruneExact(times[1..], now, window);
      var kept := Pruned(times[1..], now, window);
      assert times[1..][|times| - 1 - |kept|..] == times[|times| - |kept|..];
      forall i | 0 <= i < |times| - |kept| ensures now - times[i] > window {
        if i > 0 {
          assert times[1..][i - 1] == times[i];
        }
      }
    }
  }

  /** The breaker agrees with the reference in everything but the times it has dropped. */
  ghost predicate Refines(c: Config, b: Breaker, r: Breaker, last: nat) {
    && b.(failures := []) == r.(failures := [])
    && Ascends(r.failures, last) && DroppedOld(r.failures, b.failures, last, c.failureWindow)
  }

  /** What survives the pruning at a failure stands for the whole history. */
  lemma PruneRefines(all: seq<nat>, kept: seq<nat>, last: nat, now: nat, window: nat)
    requires Ascends(all, last) && DroppedOld(all, kept, last, window) && last <= now
    ensures DroppedOld(all, Pruned(kept, now, window), now, window)
    ensures |Pruned(kept, now, window)| == CountWithin(all, now, window)
  {
    PruneExact(kept, now, window);
    DroppedDoNotCount(all, Pruned(kept, now, window), now, now, window);
    CountAll(Pruned(kept, now, window), now, window);
  }

  /** A failure's time joins both histories, and the pruned one is still the other's recent part. */
  lemma HistoriesGrow(all: seq<nat>, kept: seq<nat>, last: nat, now: nat, window: nat)
    requires Ascends(all, last) && DroppedOld(all, kept, last, window) && last <= now
    ensures Ascends(all + [now], now)
    ensures DroppedOld(all + [now], Pruned(kept, now, window) + [now], now, window)
    ensures |Pruned(kept, now, window) + [now]| == CountWithin(all + [now], now, window)
  {
    PruneRefines(all, kept, last, now, window);
  }

  lemma FailureRefines(c: Config, b: Breaker, r: Breaker, last: nat, now: nat)
    requires Refines(c, b, r, last) && last <= now
    ensures Refines(c, OnFailure(c, b, now), OnFailureRef(c, r, now), now)
    ensures |Pruned(b.failures, now, c.failureWindow) + [now]| == CountWithin(r.failures + [now], now, c.failureWindow)
  {
    HistoriesGrow(r.failures, b.failures, last, now, c.failureWindow);
  }

  lemma StepRefines(c: Config, b: Breaker, r: Breaker, last: nat, e: Event)
    requires Refines(c, b, r, last) && last <= e.now
    ensures Refines(c, Next(c, b, e), NextRef(c, r, e), e.now)
  {
    if e.Failure? {
      FailureRefines(c, b, r, last, e.now);
    }
  }

  /** The time of the last event of a run. */
  function LastTime(es: seq<Event>): nat {
    if es == [] then 0 else es[|es| - 1].now
  }

  /** Pruning loses nothing: on every run with a monotone clock the breaker refines the reference. */
  lemma {:induction false} PruningRefines(c: Config, es: seq<Event>)
    requires Monotone(es)
    ensures Refines(c, Run(c, es), RunRef(c, es), LastTime(es))
  {
    if es != [] {
      var before, e := es[..|es| - 1], es[|es| - 1];
      PruningRefines(c, before);
      assert LastTime(before) <= e.now;
      hide Next, NextRef, Refines;
      StepRefines(c, Run(c, before), RunRef(c, before), LastTime(before), e);
    }
  }

  /** At any time the failure count is the number of failures of this period inside the window. */
  lemma FailureCountIsExact(c: Config, es: seq<Event>, now: nat)
    requires Monotone(es) && LastTime(es) <= now
    ensures CountWithin(Run(c, es).failures, now, c.failureWindow)
         == CountWithin(RunRef(c, es).failures, now, c.failureWindow)
  {
    PruningRefines(c, es);
    DroppedDoNotCount(RunRef(c, es).failures, Run(c, es).failures, LastTime(es), now, c.failureWindow);
  }

  /** A closed breaker trips at a failure exactly when this period's failures reach the threshold. */
  lemma TripsIff(c: Config, es: seq<Event>, now: nat)
    requires Monotone(es) && LastTime(es) <= now && Run(c, es).state == Closed
    ensures Next(c, Run(c, es), Failure(now)).state == Open
            <==> CountWithin(RunRef(c, es).failures + [now], now, c.failureWindow) >= c.failureThreshold
  {
    PruningRefines(c, es);
    FailureRefines(c, Run(c, es), RunRef(c, es), LastTime(es), now);
  }

  // ---------------------------------------------------------------------------
  // When a failure trips, by the times of the failures alone
  // ---------------------------------------------------------------------------

  /** The times of the failures among the events. */
  function FailureTimes(es: seq<Event>): seq<nat> {
    if es == [] then []
    else FailureTimes(es[..|es| - 1]) + (if es[|es| - 1].Failure? then [es[|es| - 1].now] else [])
  }

  /** The event is a reset, or a success that closes the circuit. */
  ghost predicate ClearsAt(c: Config, es: seq<Event>, m: nat)
    requires m < |es|
  {
    es[m].Reset? || (Run(c, es[..m]).state == HalfOpen && Run(c, es[..m + 1]).state == Closed)
  }

  /** Nothing has cleared the history since event `lo`, which was the first or came right after a clear. */
  ghost predicate ClearSince(c: Config, es: seq<Event>, lo: nat)
    requires lo <= |es|
  {
    (lo == 0 || ClearsAt(c, es, lo - 1)) && forall m {:trigger ClearsAt(c, es, m)} :: lo <= m < |es| ==> !ClearsAt(c, es, m)
  }

  lemma SameStates(c: Config, es: seq<Event>)
    requires Monotone(es)
    ensures Run(c, es).state == RunRef(c, es).state && Run(c, es).successes == RunRef(c, es).successes
  {
    PruningRefines(c, es);
  }

  /** A step adds a failure's time to the history, empties it or leaves it. */
  lemma HistoryStep(c: Config, r: Breaker, e: Event)
    ensures
      var cleared := e.Reset? || (r.state == HalfOpen && NextRef(c, r, e).state == Closed);
      NextRef(c, r, e).failures
      == if cleared then [] else r.failures + (if e.Failure? then [e.now] else [])
  {
  }

  /** The reference machine's history is the failures since the last clear. */
  lemma {:induction false} HistoryIs(c: Config, es: seq<Event>, lo: nat)
    requires Monotone(es) && lo <= |es| && ClearSince(c, es, lo)
    ensures RunRef(c, es).failures == FailureTimes(es[lo..])
  {
    if |es| > lo {
      var front, e := es[..|es| - 1], es[|es| - 1];
      hide Run, NextRef;
      ClearSinceFront(c, es, lo);
      HistoryIs(c, front, lo);
      assert es[lo..][..|es| - 1 - lo] == front[lo..];
      SameStates(c, front);
      SameStates(c, es);
      HistoryStep(c, RunRef(c, front), e);
      assert !ClearsAt(c, es, |es| - 1) && es[..|es|] == es;
    } else if lo > 0 {
      hide Run, NextRef;
      var front, e := es[..lo - 1], es[lo - 1];
      SameStates(c, front);
      SameStates(c, es);
      HistoryStep(c, RunRef(c, front), e);
      assert ClearsAt(c, es, lo - 1) && es[..lo] == es && es[lo..] == [];
    }
  }

  lemma ClearSinceFront(c: Config, es: seq<Event>, lo: nat)
    requires lo < |es| && ClearSince(c, es, lo)
    ensures ClearSince(c, es[..|es| - 1], lo)
  {
    var front := es[..|es| - 1];
    forall m | 0 <= m < |front| ensures ClearsAt(c, front, m) <==> ClearsAt(c, es, m) {
      assert front[..m] == es[..m] && front[..m + 1] == es[..m + 1];
    }
  }

  /** So many are in the window if and only if the last but so many is. */
  lemma {:induction false} CountRecent(times: seq<nat>, now: nat, window: nat, n: nat)
    requires Ascends(times, now)
    ensures CountWithin(times, now, window) >= n
            <==> n == 0 || (n <= |times| && now <= times[|times| - n] + window)
  {
    if times != [] && n > 0 {
      if now > times[|times| - 1] + window {
        CountNone(times, now, window);
      }
      CountRecent(times[..|times| - 1], now, window, n - 1);
    }
  }

  /**
   A closed breaker trips at a failure if and only if, of the failures since it was last cleared, the last
   `failureThreshold` lie no further back than the window.
   */
  lemma TripsOnRecentFailures(c: Config, es: seq<Event>, lo: nat, now: nat)
    requires Monotone(es) && LastTime(es) <= now && Run(c, es).state == Closed
    requires lo <= |es| && ClearSince(c, es, lo)
    ensures
      var all := FailureTimes(es[lo..]) + [now];
      Next(c, Run(c, es), Failure(now)).state == Open
      <==> c.failureThreshold == 0
           || (c.failureThreshold <= |all| && now <= all[|all| - c.failureThreshold] + c.failureWindow)
  {
    hide Run, RunRef, Next, CountWithin, ClearSince, FailureTimes, DroppedOld;
    HistoryIs(c, es, lo);
    TripsIff(c, es, now);
    PruningRefines(c, es);
    CountRecent(FailureTimes(es[lo..]) + [now], now, c.failureWindow, c.failureThreshold);
  }

  // ---------------------------------------------------------------------------
  // Safety over whole runs
  // ---------------------------------------------------------------------------

  /** The breaker when event `k` arrives. */
  function Before(c: Config, es: seq<Event>, k: nat): Breaker
    requires k <= |es|
  {
    Run(c, es[..k])
  }

  lemma BeforeNext(c: Config, es: seq<Event>, k: nat)
    requires k < |es|
    ensures Before(c, es, k + 1) == Next(c, Before(c, es, k), es[k])
  {
    assert es[..k + 1][..k] == es[..k];
  }

  ghost predicate TripsAt(c: Config, es: seq<Event>, i: nat)
    requires i < |es|
  {
    Before(c, es, i).state != Open && Before(c, es, i + 1).state == Open
  }

  ghost predicate AdmittedAt(c: Config, es: seq<Event>, j: nat)
    requires j < |es|
  {
    es[j].Allow? && Admits(c, Before(c, es, j), es[j].now)
  }

  /** After a trip the circuit stays open, stamped with the time of the trip, until the timeout is over. */
  lemma {:induction false} OpenUntilTimeout(c: Config, es: seq<Event>, i: nat, k: nat)
    requires Monotone(es) && i < k <= |es| && TripsAt(c, es, i)
    requires forall m :: i < m < k ==> !es[m].Reset?
    ensures (Before(c, es, k).state == Open && Before(c, es, k).openedAt == Some(es[i].now))
            || es[k - 1].now >= es[i].now + c.recoveryTimeout
    decreases k
  {
    BeforeNext(c, es, k - 1);
    if k - 1 > i {
      OpenUntilTimeout(c, es, i, k - 1);
    }
  }

  /** No request is admitted between a trip and its recovery timeout, short of a manual reset. */
  lemma NoAdmissionBeforeTimeout(c: Config, es: seq<Event>, i: nat, j: nat)
    requires Monotone(es) && i < j < |es| && TripsAt(c, es, i) && AdmittedAt(c, es, j)
    requires forall m :: i < m < j ==> !es[m].Reset?
    ensures es[j].now >= es[i].now + c.recoveryTimeout
  {
    OpenUntilTimeout(c, es, i, j);
  }

  /** A circuit that a trip has opened, and nothing has closed or reopened, admits a request exactly from the timeout on. */
  lemma OpenAdmitsIff(c: Config, es: seq<Event>, i: nat, j: nat)
    requires Monotone(es) && i < j < |es| && TripsAt(c, es, i) && es[j].Allow?
    requires forall m :: i < m < j ==> !es[m].Reset? && !AdmittedAt(c, es, m)
    ensures AdmittedAt(c, es, j) <==> es[j].now >= es[i].now + c.recoveryTimeout
  {
    StaysOpen(c, es, i, j);
  }

  lemma {:induction false} StaysOpen(c: Config, es: seq<Event>, i: nat, k: nat)
    requires Monotone(es) && i < k <= |es| && TripsAt(c, es, i)
    requires forall m :: i < m < k ==> !es[m].Reset? && !AdmittedAt(c, es, m)
    ensures Before(c, es, k).state == Open && Before(c, es, k).openedAt == Some(es[i].now)
    decreases k
  {
    BeforeNext(c, es, k - 1);
    if k - 1 > i {
      StaysOpen(c, es, i, k - 1);
    }
  }

  /** Successes among the events from `lo` up to, but not including, `hi`. */
  ghost function Successes(es: seq<Event>, lo: nat, hi: nat): nat
    requires hi <= |es|
  {
    if hi <= lo then 0 else Successes(es, lo, hi - 1) + (if es[hi - 1].Success? then 1 else 0)
  }

  function AtLeastOne(n: nat): nat {
    if n == 0 then 1 else n
  }

  /** The breaker is half-open when event `m` arrives, and the event keeps it from tripping or resetting. */
  ghost predicate HalfOpenAt(c: Config, es: seq<Event>, m: nat)
    requires m < |es|
  {
    Before(c, es, m).state == HalfOpen && !es[m].Failure? && !es[m].Reset?
  }

  /** Event `h` made the breaker half-open and it stayed so, without failure or reset, up to event `k`. */
  ghost predicate HalfOpenSince(c: Config, es: seq<Event>, h: nat, k: nat)
    requires h < k <= |es|
  {
    && Before(c, es, h).state == Open && Before(c, es, h + 1).state == HalfOpen
    && forall m {:trigger HalfOpenAt(c, es, m)} :: h < m < k ==> HalfOpenAt(c, es, m)
  }

  lemma {:induction false} HalfOpenOrigin(c: Config, es: seq<Event>, k: nat) returns (h: nat)
    requires k <= |es| && Before(c, es, k).state == HalfOpen
    ensures h < k && HalfOpenSince(c, es, h, k)
    ensures Before(c, es, k).successes == Successes(es, h + 1, k)
    ensures Before(c, es, k).successes < AtLeastOne(c.successThreshold)
    decreases k
  {
    BeforeNext(c, es, k - 1);
    var b, e := Before(c, es, k - 1), es[k - 1];
    if b.state == HalfOpen {
      h := HalfOpenOrigin(c, es, k - 1);
    } else {
      h := k - 1;
    }
  }

  /**
   Every return to Closed that is not a manual reset follows the required successes in a row: since
   the breaker became half-open there was no failure, and exactly that many successes.
   */
  lemma ClosingNeedsSuccesses(c: Config, es: seq<Event>, j: nat) returns (h: nat)
    requires j < |es| && !es[j].Reset?
    requires Before(c, es, j).state != Closed && Before(c, es, j + 1).state == Closed
    ensures h < j && HalfOpenSince(c, es, h, j) && es[j].Success?
    ensures Successes(es, h + 1, j + 1) == AtLeastOne(c.successThreshold)
  {
    BeforeNext(c, es, j);
    h := HalfOpenOrigin(c, es, j);
    assert Successes(es, h + 1, j + 1) == Successes(es, h + 1, j) + 1;
  }

  /** Requests of a run that were turned away. */
  ghost function Refusals(c: Config, es: seq<Event>): nat {
    if es == [] then 0
    else Refusals(c, es[..|es| - 1]) + (if es[|es| - 1].Allow? && !AdmittedAt(c, es, |es| - 1) then 1 else 0)
  }

  lemma {:induction false} RejectedCountsRefusals(c: Config, es: seq<Event>)
    ensures Run(c, es).rejected == Refusals(c, es)
  {
    if es != [] {
      RejectedCountsRefusals(c, es[..|es| - 1]);
    }
  }

  // ---------------------------------------------------------------------------
  // The breaker object
  // ---------------------------------------------------------------------------

  class CircuitBreaker {
    const config: Config
    var state: CircuitState
    var failures: seq<nat>
    var halfOpenSuccesses: nat
    var openedAt: Option<nat>
    var rejectedCount: nat

    ghost function Value(): Breaker
      reads this
    {
      Breaker(state, failures, halfOpenSuccesses, openedAt, rejectedCount)
    }

    constructor (config: Config)
      ensures this.config == config && Value() == FRESH
    {
      this.config := config;
      state, failures, halfOpenSuccesses, openedAt, rejectedCount := Closed, [], 0, None, 0;
    }

    method AllowRequest(now: nat) returns (admitted: bool)
      modifies this
      ensures admitted <==> old(state) != Open ||
                            (old(openedAt).Some? && now - old(openedAt).value >= config.recoveryTimeout as int)
                            || (old(openedAt).Some? && config.recoveryTimeout == 0)
      ensures state == (if admitted && old(state) == Open then HalfOpen else old(state))
      ensures halfOpenSuccesses == (if admitted && old(state) == Open then 0 else old(halfOpenSuccesses))
      ensures rejectedCount == old(rejectedCount) + (if admitted then 0 else 1)
      ensures failures == old(failures) && openedAt == old(openedAt)
      ensures admitted == Admits(config, old(Value()), now)
      ensures Value() == Next(config, old(Value()), Allow(now))
    {
      match state
      case Closed =>
        return true;
      case Open =>
        if openedAt.Some? {
          if Since(now, openedAt.value) >= config.recoveryTimeout {
            state := HalfOpen;
            halfOpenSuccesses := 0;
            return true;
          }
        }
        rejectedCount := rejectedCount + 1;
        return false;
      case HalfOpen =>
        return true;
    }

    method RecordSuccess(now: nat)
      modifies this
      ensures old(state) != HalfOpen ==> Value() == old(Value())
      ensures old(state) == HalfOpen ==>
                if old(halfOpenSuccesses) + 1 >= config.successThreshold then
                  state == Closed && openedAt == None && failures == []
                else
                  state == HalfOpen && openedAt == old(openedAt) && failures == old(failures)
      ensures old(state) == HalfOpen ==> halfOpenSuccesses == old(halfOpenSuccesses) + 1
      ensures rejectedCount == old(rejectedCount)
      ensures Value() == Next(config, old(Value()), Success(now))
    {
      if state == HalfOpen {
        halfOpenSuccesses := halfOpenSuccesses + 1;
        if halfOpenSuccesses >= config.successThreshold {
          state := Closed;
          openedAt := None;
          failures := [];
        }
      }
    }

    method RecordFailure(now: nat)
      modifies this
      ensures failures == Pruned(old(failures), now, config.failureWindow) + [now]
      ensures
        var trips := old(state) == HalfOpen || (old(state) == Closed && |failures| >= config.failureThreshold);
        && state == (if trips then Open else old(state))
        && openedAt == (if trips then Some(now) else old(openedAt))
      ensures halfOpenSuccesses == (if old(state) == HalfOpen then 0 else old(halfOpenSuccesses))
      ensures rejectedCount == old(rejectedCount)
      ensures Value() == Next(config, old(Value()), Failure(now))
    {
      while failures != []
        invariant Pruned(failures, now, config.failureWindow) == Pruned(old(failures), now, config.failureWindow)
        invariant Value().(failures := []) == old(Value()).(failures := [])
        decreases |failures|
      {
        var oldest := failures[0];
        if Since(now, oldest) > config.failureWindow {
          failures := failures[1..];
        } else {
          break;
        }
      }
      failures := failures + [now];
      match state
      case Closed =>
        if |failures| >= config.failureThreshold {
          state := Open;
          openedAt := Some(now);
        }
      case HalfOpen =>
        state := Open;
        openedAt := Some(now);
        halfOpenSuccesses := 0;
      case Open =>
    }

    method FailureCount(now: nat) returns (n: nat)
      ensures n == |set i | 0 <= i < |failures| && now <= failures[i] + config.failureWindow|
      ensures n == CountWithin(failures, now, config.failureWindow)
    {
      CountWithinIs(failures, now, config.failureWindow);
      n := 0;
      for i := 0 to |failures|
        invariant n == CountWithin(failures[..i], now, config.failureWindow)
      {
        assert failures[..i + 1][..i] == failures[..i];
        if Since(now, failures[i]) <= config.failureWindow {
          n := n + 1;
        }
      }
      assert failures[..|failures|] == failures;
    }

    method ResetBreaker(now: nat)
      modifies this
      ensures state == Closed && openedAt == None && failures == [] && halfOpenSuccesses == 0
      ensures rejectedCount == old(rejectedCount)
      ensures Value() == Next(config, old(Value()), Reset(now))
    {
      state := Closed;
      openedAt := None;
      failures := [];
      halfOpenSuccesses := 0;
    }
  }
}
