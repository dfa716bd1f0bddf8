/**
 The circuit breaker at the grain of its locks: in exactly which interleavings
 a request gets through too early, too few successes close it, or it sticks.
 */
module CircuitBreakerSteps {
  import opened Prelude
  import CB = CircuitBreaker

  /** What a reporting thread is in the middle of. */
  datatype Reporter =
    | Resting
    | Timed(at: nat)                      // a failure that has read the clock
    | Tripping(at: nat, halfOpen: bool)   // a failure that trips, nothing written yet
    | Stamping(at: nat, halfOpen: bool)   // the circuit is open, the time of the trip not yet written
    | Zeroing                             // the count of successes not yet set back
    | Counting(seen: nat)                 // a success that saw the circuit half-open
    | Closing(seen: nat)                  // enough successes, nothing written yet
    | Unstamping(reset: bool)             // the circuit is closed, the old time still there
    | Clearing(reset: bool)               // the old failures still there

  /** What a requesting thread is in the middle of. */
  datatype Requester =
    | Idle
    | SawOpen
    | Reopening(checkedAt: nat)   // past the timeout check, still holding the time's lock
    | Restarting                  // the circuit is half-open, the count of successes not yet set back

  /**
   The shared cells, the threads and the clock; then what has happened: how often the circuit was opened,
   the latest time of a trip since a reset, whether an older time was stamped over it, and whether the
   circuit was left too easily since it was last opened. `seen` is the value of `opens` at a success.
   */
  datatype Machine = Machine(
    state: CB.CircuitState, openedAt: Option<nat>, failures: seq<nat>, successes: nat,
    reporters: seq<Reporter>, requesters: seq<Requester>, clock: nat,
    opens: nat, trip: Option<nat>, overtaken: bool, leaked: bool)

  function Start(reporters: nat, requesters: nat): Machine {
    Machine(CB.Closed, None, [], 0, seq(reporters, _ => Resting), seq(requesters, _ => Idle), 0, 0, None, false, false)
  }

  /** What a thread does next: a reporting thread up to `ResetState`, a requesting one from `See` on. */
  datatype Action =
    | TakeTime | Fail | Open | Stamp | Zero
    | Succeed | Count | Close | Unstamp | Clear
    | ResetState
    | See | Check | Reopen | Restart

  datatype Step = Step(action: Action, thread: nat, now: nat)

  /** A requester past the check holds the lock of the time until it is done. */
  ghost predicate TimeUnlocked(s: Machine) {
    forall t {:trigger s.requesters[t]} :: 0 <= t < |s.requesters| ==>
      !s.requesters[t].Reopening? && !s.requesters[t].Restarting?
  }

  predicate Requests(action: Action) {
    action.See? || action.Check? || action.Reopen? || action.Restart?
  }

  predicate RequesterMay(p: Requester, action: Action) {
    match action
    case See => p.Idle?
    case Check => p.SawOpen?
    case Reopen => p.Reopening?
    case Restart => p.Restarting?
    case _ => false
  }

  predicate ReporterMay(p: Reporter, action: Action) {
    match action
    case Fail => p.Timed?
    case Open => p.Tripping?
    case Stamp => p.Stamping?
    case Zero => p.Zeroing?
    case Count => p.Counting?
    case Close => p.Closing?
    case Unstamp => p.Unstamping?
    case Clear => p.Clearing?
    case _ => p.Resting?
  }

  ghost predicate Ready(s: Machine, step: Step) {
    if Requests(step.action) then
      step.thread < |s.requesters| && RequesterMay(s.requesters[step.thread], step.action)
    else
      && step.thread < |s.reporters| && ReporterMay(s.reporters[step.thread], step.action)
      && (step.action.Stamp? || step.action.Unstamp? ==> TimeUnlocked(s))
  }

  ghost predicate Enabled(s: Machine, step: Step) {
    step.now >= s.clock && Ready(s, step)
  }

  /** A thread has opened the circuit for the latest trip and not yet stamped the time. */
  ghost predicate BetweenWrites(s: Machine) {
    s.trip.Some? && exists r {:trigger s.reporters[r]} ::
                      0 <= r < |s.reporters| && s.reporters[r].Stamping? && s.reporters[r].at == s.trip.value
  }

  /**
   The step takes the circuit out of Open too easily: it reopens while the stamp of the latest trip is missing
   or an older one lies over it, or it closes on a decision made before the circuit was last opened.
   */
  ghost predicate Leaks(s: Machine, step: Step)
    requires Ready(s, step)
  {
    match step.action
    case Reopen => BetweenWrites(s) || s.overtaken
    case Close => s.reporters[step.thread].seen < s.opens
    case _ => false
  }

  ghost function Apply(c: CB.Config, s: Machine, step: Step): Machine
    requires Enabled(s, step)
  {
    if Requests(step.action) then Request(c, s.(clock := step.now), step) else Report(c, s.(clock := step.now), step)
  }

  /** A step of a requesting thread. */
  ghost function Request(c: CB.Config, s: Machine, step: Step): Machine
    requires Requests(step.action) && Ready(s, step)
  {
    match step.action
    case See => if s.state == CB.Open then Asked(s, step.thread, SawOpen) else s
    case Check =>
      var over := CB.TimeoutOver(c, s.openedAt, step.now);
      Asked(s, step.thread, if over then Reopening(step.now) else Idle)
    case Reopen =>
      Asked(s, step.thread, Restarting).(state := CB.HalfOpen, leaked := s.leaked || Leaks(s, step))
    case Restart => Asked(s, step.thread, Idle).(successes := 0)
    case _ => s
  }

  function Asked(s: Machine, t: nat, p: Requester): Machine
    requires t < |s.requesters|
  {
    s.(requesters := s.requesters[t := p])
  }

  function Moved(s: Machine, r: nat, p: Reporter): Machine
    requires r < |s.reporters|
  {
    s.(reporters := s.reporters[r := p])
  }

  /** A step of the reporting thread, which may be in its next state afterwards. */
  ghost function Report(c: CB.Config, s: Machine, step: Step): Machine
    requires !Requests(step.action) && Ready(s, step)
  {
    var p := s.reporters[step.thread];
    match step.action
    case TakeTime => Moved(s, step.thread, Timed(step.now))
    case Fail =>
      var failures := CB.Pruned(s.failures, p.at, c.failureWindow) + [p.at];
      var trips := s.state == CB.HalfOpen || (s.state == CB.Closed && |failures| >= c.failureThreshold);
      Moved(s, step.thread, if trips then Tripping(p.at, s.state == CB.HalfOpen) else Resting).(failures := failures)
    case Open =>
      var newest := s.trip == None || s.trip.value < p.at;
      Moved(s, step.thread, Stamping(p.at, p.halfOpen)).(
      state := CB.Open, opens := s.opens + 1, trip := if newest then Some(p.at) else s.trip,
      overtaken := !newest && s.overtaken, leaked := false)
    case Stamp =>
      Moved(s, step.thread, if p.halfOpen then Zeroing else Resting).(
      openedAt := Some(p.at), overtaken := s.trip.Some? && p.at < s.trip.value)
    case Zero => Moved(s, step.thread, Resting).(successes := 0)
    case Succeed => Moved(s, step.thread, if s.state == CB.HalfOpen then Counting(s.opens) else Resting)
    case Count =>
      var closes := s.successes + 1 >= c.successThreshold;
      Moved(s, step.thread, if closes then Closing(p.seen) else Resting).(successes := s.successes + 1)
    case Close => Moved(s, step.thread, Unstamping(false)).(
      state := CB.Closed, leaked := s.leaked || Leaks(s, step))
    case Unstamp => Moved(s, step.thread, Clearing(p.reset)).(openedAt := None)
    case Clear => Moved(s, step.thread, if p.reset then Zeroing else Resting).(failures := [])
    case ResetState => Moved(s, step.thread, Unstamping(true)).(state := CB.Closed, trip := None)
    case _ => s
  }

  // ---------------------------------------------------------------------------
  // An operation alone is its steps in a row
  // ---------------------------------------------------------------------------

  /** The shared cells, without the count of refusals. */
  function View(s: Machine): CB.Breaker {
    CB.Breaker(s.state, s.failures, s.successes, s.openedAt, 0)
  }

  ghost function Go(c: CB.Config, s: Machine, action: Action, thread: nat, now: nat): Machine
    requires Enabled(s, Step(action, thread, now))
  {
    Apply(c, s, Step(action, thread, now))
  }

  /** The steps of a failure in a row. */
  ghost function Failed(c: CB.Config, s: Machine, r: nat, now: nat): Machine
    requires Enabled(s, Step(TakeTime, r, now)) && TimeUnlocked(s)
  {
    var failed := Go(c, Go(c, s, TakeTime, r, now), Fail, r, now);
    if failed.reporters[r].Resting? then failed
    else
      var tripped := Go(c, Go(c, failed, Open, r, now), Stamp, r, now);
      if tripped.reporters[r].Resting? then tripped else Go(c, tripped, Zero, r, now)
  }

  /** Undisturbed, they do what the whole operation does, whether it trips or not. */
  lemma FailureIsItsSteps(c: CB.Config, s: Machine, r: nat, now: nat)
    requires Enabled(s, Step(TakeTime, r, now)) && TimeUnlocked(s)
    ensures View(Failed(c, s, r, now)) == CB.OnFailure(c, View(s), now) && Failed(c, s, r, now).reporters[r].Resting?
  {
  }

  /** The three writes of a closing in a row. */
  ghost function Closed(c: CB.Config, s: Machine, r: nat, now: nat): Machine
    requires Enabled(s, Step(Close, r, now)) && TimeUnlocked(s)
  {
    Go(c, Go(c, Go(c, s, Close, r, now), Unstamp, r, now), Clear, r, now)
  }

  lemma ClosingIsItsSteps(c: CB.Config, s: Machine, r: nat, now: nat)
    requires Enabled(s, Step(Close, r, now)) && TimeUnlocked(s)
    ensures View(Closed(c, s, r, now)) == View(s).(state := CB.Closed, openedAt := None, failures := [])
    ensures Closed(c, s, r, now).reporters == s.reporters[r := Resting]
  {
  }

  /** The steps of a success in a row. */
  ghost function Succeeded(c: CB.Config, s: Machine, r: nat, now: nat): Machine
    requires Enabled(s, Step(Succeed, r, now)) && TimeUnlocked(s)
  {
    var seen := Go(c, s, Succeed, r, now);
    if seen.reporters[r].Resting? then seen
    else
      var counted := Go(c, seen, Count, r, now);
      if counted.reporters[r].Resting? then counted else Closed(c, counted, r, now)
  }

  lemma SuccessIsItsSteps(c: CB.Config, s: Machine, r: nat, now: nat)
    requires Enabled(s, Step(Succeed, r, now)) && TimeUnlocked(s)
    ensures View(Succeeded(c, s, r, now)) == CB.OnSuccess(c, View(s)) && Succeeded(c, s, r, now).reporters[r].Resting?
  {
    hide Closed;
    var seen := Go(c, s, Succeed, r, now);
    if seen.reporters[r].Counting? {
      var counted := Go(c, seen, Count, r, now);
      if counted.reporters[r].Closing? {
        ClosingIsItsSteps(c, counted, r, now);
      }
    }
  }

  /** The four writes of a manual reset in a row. */
  ghost function WasReset(c: CB.Config, s: Machine, r: nat, now: nat): Machine
    requires Enabled(s, Step(ResetState, r, now)) && TimeUnlocked(s)
  {
    var closed := Go(c, Go(c, s, ResetState, r, now), Unstamp, r, now);
    Go(c, Go(c, closed, Clear, r, now), Zero, r, now)
  }

  lemma ResetIsItsSteps(c: CB.Config, s: Machine, r: nat, now: nat)
    requires Enabled(s, Step(ResetState, r, now)) && TimeUnlocked(s)
    ensures View(WasReset(c, s, r, now)) == CB.Next(c, View(s), CB.Reset(now))
    ensures WasReset(c, s, r, now).reporters == s.reporters[r := Resting]
  {
  }

  /** The steps of a request for admission in a row, and whether it is let through. */
  ghost function Answered(c: CB.Config, s: Machine, t: nat, now: nat): (Machine, bool)
    requires Enabled(s, Step(See, t, now))
  {
    var seen := Go(c, s, See, t, now);
    if seen.requesters[t].Idle? then (seen, true)
    else
      var checked := Go(c, seen, Check, t, now);
      if checked.requesters[t].Idle? then (checked, false)
      else (Go(c, Go(c, checked, Reopen, t, now), Restart, t, now), true)
  }

  /** Undisturbed, the answer is that of the whole operation, with the same effect. */
  lemma AdmissionIsItsSteps(c: CB.Config, s: Machine, t: nat, now: nat)
    requires Enabled(s, Step(See, t, now))
    ensures
      var (after, admitted) := Answered(c, s, t, now);
      && admitted == CB.Admits(c, View(s), now) && after.requesters == s.requesters
      && View(after) == CB.OnAllow(c, View(s), now).(rejected := 0)
  {
  }

  // ---------------------------------------------------------------------------
  // Runs
  // ---------------------------------------------------------------------------

  /** The step lets a request through. */
  predicate Admits(s: Machine, step: Step) {
    step.action.Reopen? || (step.action.See? && s.state != CB.Open)
  }

  /** The recovery timeout of the latest trip is not over, and nobody has reset the breaker since. */
  predicate TooEarly(c: CB.Config, s: Machine, now: nat) {
    s.trip.Some? && now < s.trip.value + c.recoveryTimeout
  }

  ghost predicate StepAt(c: CB.Config, states: seq<Machine>, steps: seq<Step>, k: nat)
    requires k < |steps| && |states| == |steps| + 1
  {
    Enabled(states[k], steps[k]) && states[k + 1] == Apply(c, states[k], steps[k])
  }

  /** Any interleaving, from `first` on. */
  ghost predicate Follows(c: CB.Config, first: Machine, states: seq<Machine>, steps: seq<Step>) {
    && |states| == |steps| + 1 && states[0] == first
    && forall k {:trigger StepAt(c, states, steps, k)} :: 0 <= k < |steps| ==> StepAt(c, states, steps, k)
  }

  // ---------------------------------------------------------------------------
  // What every step keeps
  // ---------------------------------------------------------------------------

  /** A thread past the check saw the time that is still there, long enough ago. */
  ghost predicate CheckHolds(c: CB.Config, s: Machine, p: Requester) {
    && (p.Reopening? ==> CB.TimeoutOver(c, s.openedAt, p.checkedAt) && p.checkedAt <= s.clock)
    && (p.Restarting? ==> s.openedAt.Some?)
  }

  /**
   A time that was read is past; a success that may still close the circuit saw it half-open before it was
   last opened, or after a leak.
   */
  ghost predicate DecisionHolds(c: CB.Config, s: Machine, p: Reporter) {
    && (p.Timed? || p.Tripping? || p.Stamping? ==> p.at <= s.clock)
    && (p.Counting? || p.Closing? ==> p.seen <= s.opens && (p.seen == s.opens && TooEarly(c, s, s.clock) ==> s.leaked))
  }

  /** A stamp older than the latest trip waits for that trip's own, or was put over it. */
  ghost predicate StampHolds(s: Machine) {
    s.trip.Some? && s.openedAt.Some? && s.openedAt.value < s.trip.value ==> BetweenWrites(s) || s.overtaken
  }

  ghost predicate Kept(c: CB.Config, s: Machine) {
    && StampHolds(s) && (s.trip.Some? ==> s.trip.value <= s.clock)
    && (TooEarly(c, s, s.clock) && s.state != CB.Open ==> s.leaked)
    && (forall t {:trigger s.requesters[t]} :: 0 <= t < |s.requesters| ==> CheckHolds(c, s, s.requesters[t]))
    && (forall r {:trigger s.reporters[r]} :: 0 <= r < |s.reporters| ==> DecisionHolds(c, s, s.reporters[r]))
  }

  /** A request that reopens the circuit before the timeout of the latest trip goes by an older stamp. */
  lemma EarlyReopeningLeaks(c: CB.Config, s: Machine, step: Step)
    requires Kept(c, s) && Enabled(s, step) && step.action.Reopen? && TooEarly(c, s, step.now)
    ensures Leaks(s, step)
  {
    assert CheckHolds(c, s, s.requesters[step.thread]);
  }

  /** Time goes on; a trip and a leak stand unless the circuit is opened or reset. */
  ghost predicate GoesOn(s: Machine, s': Machine) {
    && s.clock <= s'.clock && |s'.reporters| == |s.reporters| && |s'.requesters| == |s.requesters|
    && s.opens <= s'.opens
    && (s'.opens == s.opens ==> (s'.trip == s.trip || s'.trip == None) && (s.leaked ==> s'.leaked))
  }

  /** A requesting thread changes nothing that belongs to a trip. */
  lemma RequestFrame(c: CB.Config, s: Machine, step: Step)
    requires Requests(step.action) && Ready(s, step)
    ensures
      var s' := Request(c, s, step);
      && GoesOn(s, s') && s'.clock == s.clock && s'.reporters == s.reporters && s'.openedAt == s.openedAt
      && s'.opens == s.opens && s'.trip == s.trip && s'.overtaken == s.overtaken
  {
  }

  /** A reporting thread moves alone, and changes the time only when nobody has it locked. */
  lemma ReportFrame(c: CB.Config, s: Machine, step: Step)
    requires !Requests(step.action) && Ready(s, step)
    ensures
      var s' := Report(c, s, step);
      && GoesOn(s, s') && s'.clock == s.clock && s'.requesters == s.requesters
      && s'.reporters == s.reporters[step.thread := s'.reporters[step.thread]]
      && (s'.openedAt == s.openedAt || TimeUnlocked(s))
  {
  }

  lemma StepGoesOn(c: CB.Config, s: Machine, step: Step)
    requires Enabled(s, step)
    ensures GoesOn(s, Apply(c, s, step))
    ensures Requests(step.action) ==> Apply(c, s, step).reporters == s.reporters
    ensures !Requests(step.action) ==>
              Apply(c, s, step).reporters == s.reporters[step.thread := Apply(c, s, step).reporters[step.thread]]
  {
    hide Report, Request;
    if Requests(step.action) {
      RequestFrame(c, s.(clock := step.now), step);
    } else {
      ReportFrame(c, s.(clock := step.now), step);
    }
  }

  lemma ReportKeepsStamp(c: CB.Config, s: Machine, step: Step)
    requires StampHolds(s) && !Requests(step.action) && Ready(s, step)
    ensures StampHolds(Report(c, s, step))
  {
    var s' := Report(c, s, step);
    if BetweenWrites(s) && s'.trip == s.trip {
      var r :| 0 <= r < |s.reporters| && s.reporters[r].Stamping? && s.reporters[r].at == s.trip.value;
      assert (step.action.Stamp? && step.thread == r) || s'.reporters[r] == s.reporters[r];
    }
    if step.action.Open? {
      assert s'.reporters[step.thread].Stamping?;
    }
  }

  lemma KeepsStamp(c: CB.Config, s: Machine, step: Step)
    requires StampHolds(s) && Enabled(s, step)
    ensures StampHolds(Apply(c, s, step))
  {
    hide Report, Request;
    var s1 := s.(clock := step.now);
    assert StampHolds(s1);
    if Requests(step.action) {
      RequestFrame(c, s1, step);
    } else {
      ReportKeepsStamp(c, s1, step);
    }
  }

  lemma KeepsChecks(c: CB.Config, s: Machine, step: Step, t: nat)
    requires Enabled(s, step) && t < |s.requesters| && CheckHolds(c, s, s.requesters[t])
    ensures t < |Apply(c, s, step).requesters| && CheckHolds(c, Apply(c, s, step), Apply(c, s, step).requesters[t])
  {
    hide Report;
    if !Requests(step.action) {
      ReportFrame(c, s.(clock := step.now), step);
    }
  }

  lemma DecisionStands(c: CB.Config, s: Machine, s': Machine, p: Reporter)
    requires DecisionHolds(c, s, p) && GoesOn(s, s')
    ensures DecisionHolds(c, s', p)
  {
  }

  lemma OwnDecision(c: CB.Config, s: Machine, step: Step)
    requires Enabled(s, step) && !Requests(step.action) && DecisionHolds(c, s, s.reporters[step.thread])
    requires TooEarly(c, s, s.clock) && s.state != CB.Open ==> s.leaked
    ensures DecisionHolds(c, Apply(c, s, step), Apply(c, s, step).reporters[step.thread])
  {
  }

  lemma KeepsDecisions(c: CB.Config, s: Machine, step: Step, r: nat)
    requires Kept(c, s) && Enabled(s, step) && r < |s.reporters| == |Apply(c, s, step).reporters|
    ensures DecisionHolds(c, Apply(c, s, step), Apply(c, s, step).reporters[r])
  {
    hide Apply;
    StepGoesOn(c, s, step);
    assert DecisionHolds(c, s, s.reporters[r]);
    if !Requests(step.action) && r == step.thread {
      OwnDecision(c, s, step);
    } else {
      DecisionStands(c, s, Apply(c, s, step), s.reporters[r]);
    }
  }

  lemma KeepsTripPast(c: CB.Config, s: Machine, step: Step)
    requires Kept(c, s) && Enabled(s, step)
    ensures
      var s' := Apply(c, s, step);
      s'.trip.Some? ==> s'.trip.value <= s'.clock
  {
    hide Request;
    if Requests(step.action) {
      RequestFrame(c, s.(clock := step.now), step);
    } else if step.action.Open? {
      assert DecisionHolds(c, s, s.reporters[step.thread]);
    }
  }

  lemma KeepsOpen(c: CB.Config, s: Machine, step: Step)
    requires Kept(c, s) && Enabled(s, step)
    ensures
      var s' := Apply(c, s, step);
      TooEarly(c, s', s'.clock) && s'.state != CB.Open ==> s'.leaked
  {
    if step.action.Reopen? && TooEarly(c, s, step.now) {
      EarlyReopeningLeaks(c, s, step);
    }
    if step.action.Close? {
      assert DecisionHolds(c, s, s.reporters[step.thread]);
    }
  }

  lemma StepKeeps(c: CB.Config, s: Machine, step: Step)
    requires Kept(c, s) && Enabled(s, step)
    ensures Kept(c, Apply(c, s, step))
  {
    hide Apply, CheckHolds, DecisionHolds, StampHolds;
    KeepsStamp(c, s, step);
    KeepsOpen(c, s, step);
    KeepsTripPast(c, s, step);
    StepGoesOn(c, s, step);
    var after := Apply(c, s, step);
    forall t | 0 <= t < |after.requesters| ensures CheckHolds(c, after, after.requesters[t]) {
      assert CheckHolds(c, s, s.requesters[t]);
      KeepsChecks(c, s, step, t);
    }
    forall r | 0 <= r < |after.reporters| ensures DecisionHolds(c, after, after.reporters[r]) {
      KeepsDecisions(c, s, step, r);
    }
  }

  /** Any number of threads of either kind. */
  ghost predicate IsRun(c: CB.Config, reporters: nat, requesters: nat, states: seq<Machine>, steps: seq<Step>) {
    Follows(c, Start(reporters, requesters), states, steps)
  }

  lemma {:induction false} RunKeeps(
      c: CB.Config, reporters: nat, requesters: nat, states: seq<Machine>, steps: seq<Step>, k: nat)
    requires IsRun(c, reporters, requesters, states, steps) && k < |states|
    ensures Kept(c, states[k])
    decreases k
  {
    if k > 0 {
      RunKeeps(c, reporters, requesters, states, steps, k - 1);
      assert StepAt(c, states, steps, k - 1);
      StepKeeps(c, states[k - 1], steps[k - 1]);
    }
  }

  // ---------------------------------------------------------------------------
  // When a request gets through too early
  // ---------------------------------------------------------------------------

  ghost predicate LeaksAt(s: Machine, step: Step) {
    Enabled(s, step) && Leaks(s, step)
  }

  /** The circuit is opened at none of the steps from `lo` on, up to but not including `hi`. */
  ghost predicate NotOpened(steps: seq<Step>, lo: nat, hi: nat)
    requires hi <= |steps|
  {
    forall m {:trigger steps[m]} :: lo <= m < hi ==> !steps[m].action.Open?
  }

  /**
   Step `j` takes the circuit out of Open too easily, and is the admission `k` itself or lets it find the
   circuit not open, before the timeout is over.
   */
  ghost predicate LetsThrough(c: CB.Config, states: seq<Machine>, steps: seq<Step>, j: nat, k: nat)
    requires |states| == |steps| + 1
  {
    && j <= k < |steps| && LeaksAt(states[j], steps[j]) && TooEarly(c, states[k], steps[k].now)
    && if j == k then steps[k].action.Reopen? else steps[k].action.See? && NotOpened(steps, j, k)
  }

  /** Where a leak is on record, it happened since the circuit was last opened. */
  lemma {:induction false} LeakOnRecord(
      c: CB.Config, first: Machine, states: seq<Machine>, steps: seq<Step>, k: nat) returns (j: nat)
    requires Follows(c, first, states, steps) && k < |states| && states[k].leaked && !first.leaked
    ensures j < k && LeaksAt(states[j], steps[j]) && NotOpened(steps, j, k)
    decreases k
  {
    assert StepAt(c, states, steps, k - 1);
    if LeaksAt(states[k - 1], steps[k - 1]) {
      j := k - 1;
    } else {
      j := LeakOnRecord(c, first, states, steps, k - 1);
    }
  }

  /** After a leak the circuit is not open before it is opened again. */
  lemma {:induction false} LeftOpen(
      c: CB.Config, first: Machine, states: seq<Machine>, steps: seq<Step>, j: nat, k: nat)
    requires Follows(c, first, states, steps) && j < k <= |steps|
    requires LeaksAt(states[j], steps[j]) && NotOpened(steps, j, k)
    ensures states[k].state != CB.Open
    decreases k
  {
    assert StepAt(c, states, steps, k - 1);
    if j < k - 1 {
      LeftOpen(c, first, states, steps, j, k - 1);
    }
  }

  /**
   In every run of any number of threads, a step lets a request through before the timeout of the latest
   trip if and only if it reopens, or finds, a circuit taken out of Open in one of three ways: reopened
   before the trip has stamped its time, reopened on an older time stamped over it, or closed on a decision
   made before the circuit was last opened.
   */
  lemma EarlyIff(
      c: CB.Config, reporters: nat, requesters: nat, states: seq<Machine>, steps: seq<Step>, k: nat)
    requires IsRun(c, reporters, requesters, states, steps) && k < |steps|
    ensures Admits(states[k], steps[k]) && TooEarly(c, states[k], steps[k].now)
            <==> exists j: nat :: LetsThrough(c, states, steps, j, k)
  {
    assert StepAt(c, states, steps, k);
    if Admits(states[k], steps[k]) && TooEarly(c, states[k], steps[k].now) {
      RunKeeps(c, reporters, requesters, states, steps, k);
      if steps[k].action.Reopen? {
        EarlyReopeningLeaks(c, states[k], steps[k]);
        assert LetsThrough(c, states, steps, k, k);
      } else {
        var j := LeakOnRecord(c, states[0], states, steps, k);
        assert LetsThrough(c, states, steps, j, k);
      }
    }
    if j: nat :| LetsThrough(c, states, steps, j, k) && j < k {
      LeftOpen(c, states[0], states, steps, j, k);
    }
  }

  // ---------------------------------------------------------------------------
  // One reporting thread: only the gap between two writes
  // ---------------------------------------------------------------------------

  /** What holds if nobody else reports. */
  ghost predicate InOrder(s: Machine) {
    && !s.overtaken && |s.reporters| == 1 && (s.trip.Some? ==> s.trip.value <= s.clock)
    && var p := s.reporters[0];
    && (p.Timed? || p.Tripping? || p.Stamping? ==> p.at <= s.clock && (s.trip.Some? ==> s.trip.value <= p.at))
    && (p.Counting? || p.Closing? ==> p.seen == s.opens)
  }

  lemma ReportInOrder(c: CB.Config, s: Machine, step: Step)
    requires InOrder(s) && !Requests(step.action) && Ready(s, step) && step.now == s.clock
    ensures InOrder(Report(c, s, step))
  {
  }

  lemma StaysInOrder(c: CB.Config, s: Machine, step: Step)
    requires InOrder(s) && Enabled(s, step)
    ensures InOrder(Apply(c, s, step))
  {
    hide Report, Request;
    var s1 := s.(clock := step.now);
    if Requests(step.action) {
      RequestFrame(c, s1, step);
    } else {
      ReportInOrder(c, s1, step);
    }
  }

  lemma {:induction false} RunInOrder(
      c: CB.Config, requesters: nat, states: seq<Machine>, steps: seq<Step>, k: nat)
    requires IsRun(c, 1, requesters, states, steps) && k < |states|
    ensures InOrder(states[k])
    decreases k
  {
    if k > 0 {
      RunInOrder(c, requesters, states, steps, k - 1);
      assert StepAt(c, states, steps, k - 1);
      StaysInOrder(c, states[k - 1], steps[k - 1]);
    }
  }

  /** With one reporting thread, a request can only get through by reopening between the two writes of a trip. */
  lemma OnlyThroughTheGap(
      c: CB.Config, requesters: nat, states: seq<Machine>, steps: seq<Step>, j: nat, k: nat)
    requires IsRun(c, 1, requesters, states, steps) && LetsThrough(c, states, steps, j, k)
    ensures steps[j].action.Reopen? && BetweenWrites(states[j])
  {
    RunInOrder(c, requesters, states, steps, j);
  }

  // ---------------------------------------------------------------------------
  // When a circuit closes on too few successes
  // ---------------------------------------------------------------------------

  /** Step `j` is the last before `k` that made the circuit half-open. */
  ghost predicate LastReopening(steps: seq<Step>, j: nat, k: nat)
    requires k <= |steps|
  {
    j < k && steps[j].action.Reopen? && forall m {:trigger steps[m]} :: j < m < k ==> !steps[m].action.Reopen?
  }

  predicate SetsBack(action: Action) {
    action.Restart? || action.Zero?
  }

  /** The count of successes is not set back between the two steps. */
  ghost predicate NotSetBack(steps: seq<Step>, lo: nat, hi: nat)
    requires hi <= |steps|
  {
    forall m {:trigger steps[m]} :: lo <= m < hi ==> !SetsBack(steps[m].action)
  }

  ghost function Counts(steps: seq<Step>, lo: nat, hi: nat): nat
    requires hi <= |steps|
  {
    if hi <= lo then 0 else Counts(steps, lo, hi - 1) + (if steps[hi - 1].action.Count? then 1 else 0)
  }

  /** Until it is set back, the count goes on from what it was at the reopening; then it holds later successes only. */
  lemma {:induction false} CountSince(
      c: CB.Config, first: Machine, states: seq<Machine>, steps: seq<Step>, j: nat, k: nat)
    requires Follows(c, first, states, steps) && j < k <= |steps| && LastReopening(steps, j, k)
    ensures NotSetBack(steps, j, k) ==> states[k].successes == states[j].successes + Counts(steps, j, k)
    ensures !NotSetBack(steps, j, k) ==> states[k].successes <= Counts(steps, j, k)
    decreases k
  {
    assert StepAt(c, states, steps, k - 1);
    if k - 1 == j {
      assert Counts(steps, j, j) == 0;
    } else {
      CountSince(c, first, states, steps, j, k - 1);
      assert NotSetBack(steps, j, k) <==> NotSetBack(steps, j, k - 1) && !SetsBack(steps[k - 1].action);
    }
  }

  ghost predicate DecidesToClose(s: Machine, r: nat) {
    r < |s.reporters| && s.reporters[r].Closing?
  }

  /**
   A success decides to close the circuit although fewer than the required successes were counted since it
   was last reopened, if and only if the count was not set back since and what was left in it makes up for
   the rest.
   */
  lemma ShortClosingIff(
      c: CB.Config, first: Machine, states: seq<Machine>, steps: seq<Step>, j: nat, k: nat)
    requires Follows(c, first, states, steps) && k < |steps| && LastReopening(steps, j, k) && steps[k].action.Count?
    ensures
      var counted := Counts(steps, j, k + 1);
      DecidesToClose(states[k + 1], steps[k].thread) && counted < c.successThreshold
      <==> NotSetBack(steps, j, k) && counted < c.successThreshold <= states[j].successes + counted
  {
    assert StepAt(c, states, steps, k);
    CountSince(c, first, states, steps, j, k);
  }

  // ---------------------------------------------------------------------------
  // When the breaker never admits anything again
  // ---------------------------------------------------------------------------

  /** No call is under way. */
  ghost predicate AtRest(s: Machine) {
    && (forall r {:trigger s.reporters[r]} :: 0 <= r < |s.reporters| ==> s.reporters[r].Resting?)
    && (forall t {:trigger s.requesters[t]} :: 0 <= t < |s.requesters| ==> s.requesters[t].Idle?)
  }

  /** Open without a time, and nobody about to change either. */
  ghost predicate Stuck(s: Machine) {
    && s.state == CB.Open && s.openedAt == None
    && (forall r {:trigger s.reporters[r]} :: 0 <= r < |s.reporters| ==>
          s.reporters[r].Resting? || s.reporters[r].Timed?)
    && (forall t {:trigger s.requesters[t]} :: 0 <= t < |s.requesters| ==>
          s.requesters[t].Idle? || s.requesters[t].SawOpen?)
  }

  lemma StaysStuck(c: CB.Config, s: Machine, step: Step)
    requires Stuck(s) && Enabled(s, step) && !step.action.ResetState?
    ensures Stuck(Apply(c, s, step)) && !Admits(s, step)
  {
    StepGoesOn(c, s, step);
  }

  ghost predicate NoReset(steps: seq<Step>) {
    forall k {:trigger steps[k]} :: 0 <= k < |steps| ==> !steps[k].action.ResetState?
  }

  lemma {:induction false} StuckForever(
      c: CB.Config, first: Machine, states: seq<Machine>, steps: seq<Step>, k: nat)
    requires Follows(c, first, states, steps) && k <= |steps| && Stuck(first) && NoReset(steps)
    ensures Stuck(states[k])
    decreases k
  {
    if k > 0 {
      StuckForever(c, first, states, steps, k - 1);
      assert StepAt(c, states, steps, k - 1);
      StaysStuck(c, states[k - 1], steps[k - 1]);
    }
  }

  lemma Extend(c: CB.Config, first: Machine, states: seq<Machine>, steps: seq<Step>, step: Step)
      returns (states': seq<Machine>, steps': seq<Step>)
    requires Follows(c, first, states, steps) && Enabled(states[|steps|], step)
    ensures Follows(c, first, states', steps') && steps' == steps + [step]
    ensures states' == states + [Apply(c, states[|steps|], step)]
  {
    states', steps' := states + [Apply(c, states[|steps|], step)], steps + [step];
    forall k | 0 <= k < |steps'| ensures StepAt(c, states', steps', k) {
      if k < |steps| {
        assert StepAt(c, states, steps, k);
      }
    }
  }

  /** The last step of the run lets a request through. */
  ghost predicate EndsInAdmission(c: CB.Config, first: Machine, states: seq<Machine>, steps: seq<Step>) {
    Follows(c, first, states, steps) && steps != [] && Admits(states[|steps| - 1], steps[|steps| - 1])
  }

  /** A circuit that is not open, or carries the time of a trip, lets a request through sooner or later. */
  lemma AdmitsLater(c: CB.Config, s: Machine) returns (states: seq<Machine>, steps: seq<Step>)
    requires AtRest(s) && s.requesters != [] && !Stuck(s)
    ensures EndsInAdmission(c, s, states, steps) && NoReset(steps)
  {
    states, steps := [s], [];
    var now := if s.openedAt.None? then s.clock else s.clock + s.openedAt.value + c.recoveryTimeout;
    states, steps := Extend(c, s, states, steps, Step(See, 0, now));
    if s.state == CB.Open {
      states, steps := Extend(c, s, states, steps, Step(Check, 0, now));
      states, steps := Extend(c, s, states, steps, Step(Reopen, 0, now));
    }
  }

  /**
   With no call under way, no later run without a reset lets any request through, however long it waits, if
   and only if the circuit is open and carries no time.
   */
  lemma NeverAgainIff(c: CB.Config, s: Machine)
    requires AtRest(s) && s.requesters != []
    ensures (forall states, steps :: NoReset(steps) ==> !EndsInAdmission(c, s, states, steps))
            <==> s.state == CB.Open && s.openedAt == None
  {
    if s.state == CB.Open && s.openedAt == None {
      forall states, steps | NoReset(steps) ensures !EndsInAdmission(c, s, states, steps) {
        if Follows(c, s, states, steps) && steps != [] {
          StuckForever(c, s, states, steps, |steps| - 1);
          assert StepAt(c, states, steps, |steps| - 1);
          StaysStuck(c, states[|steps| - 1], steps[|steps| - 1]);
        }
      }
    } else {
      var states, steps := AdmitsLater(c, s);
    }
  }

  // ---------------------------------------------------------------------------
  // Runs of two reporting threads and a requesting one
  // ---------------------------------------------------------------------------

  /** One failure trips and `successes` close; the timeout is 10. */
  function Touchy(successes: nat): CB.Config {
    CB.Config(1, 60, 10, successes)
  }

  ghost predicate Reaches(successes: nat, states: seq<Machine>, steps: seq<Step>, last: Machine) {
    IsRun(Touchy(successes), 2, 1, states, steps) && NoReset(steps) && states[|steps|] == last
  }

  /** Some run of the touchy breaker without a reset ends in this state. */
  ghost predicate Reachable(successes: nat, s: Machine) {
    exists states, steps :: Reaches(successes, states, steps, s)
  }

  const REST: seq<Reporter> := [Resting, Resting]

  const FRESH: Machine := Machine(CB.Closed, None, [], 0, REST, [Idle], 0, 0, None, false, false)

  lemma NothingYet(n: nat)
    ensures Reachable(n, FRESH)
  {
    assert Start(2, 1).reporters == REST && Start(2, 1).requesters == [Idle];
    assert Reaches(n, [Start(2, 1)], [], FRESH);
  }

  lemma Leads(n: nat, s: Machine, step: Step, s': Machine)
    requires Reachable(n, s) && Enabled(s, step) && !step.action.ResetState?
    requires s' == Apply(Touchy(n), s, step)
    ensures Reachable(n, s')
  {
    var states, steps :| Reaches(n, states, steps, s);
    states, steps := Extend(Touchy(n), Start(2, 1), states, steps, step);
    assert Reaches(n, states, steps, s');
  }

  /** Opened by a failure at time 0, and reopened at time 10. */
  const REOPENED: Machine := Machine(CB.HalfOpen, Some(0), [0], 0, REST, [Idle], 10, 1, Some(0), false, false)

  lemma Reopened(n: nat)
    ensures Reachable(n, REOPENED)
  {
    assert CB.Pruned([], 0, 60) == [];
    hide Reachable, CB.Pruned;
    NothingYet(n);
    var s0 := FRESH;
    var s1 := s0.(reporters := [Timed(0), Resting]);
    assert Reachable(n, s1) by { Leads(n, s0, Step(TakeTime, 0, 0), s1); }
    var s2 := s1.(failures := [0], reporters := [Tripping(0, false), Resting]);
    assert Reachable(n, s2) by { Leads(n, s1, Step(Fail, 0, 0), s2); }
    var s3 := s2.(state := CB.Open, reporters := [Stamping(0, false), Resting], opens := 1, trip := Some(0));
    assert Reachable(n, s3) by { Leads(n, s2, Step(Open, 0, 0), s3); }
    var s4 := s3.(openedAt := Some(0), reporters := REST);
    assert Reachable(n, s4) by { Leads(n, s3, Step(Stamp, 0, 0), s4); }
    var s5 := s4.(requesters := [SawOpen], clock := 10);
    assert Reachable(n, s5) by { Leads(n, s4, Step(See, 0, 10), s5); }
    var s6 := s5.(requesters := [Reopening(10)]);
    assert Reachable(n, s6) by { Leads(n, s5, Step(Check, 0, 10), s6); }
    var s7 := s6.(state := CB.HalfOpen, requesters := [Restarting]);
    assert Reachable(n, s7) by { Leads(n, s6, Step(Reopen, 0, 10), s7); }
    var s8 := s7.(requesters := [Idle]);
    assert Reachable(n, s8) by { Leads(n, s7, Step(Restart, 0, 10), s8); }
  }

  /** The step lets a request through before the timeout of a trip. */
  ghost predicate LetsThroughEarly(s: Machine, step: Step) {
    Reachable(1, s) && Enabled(s, step) && Admits(s, step) && TooEarly(Touchy(1), s, step.now)
  }

  /** After a trip at 0, reopened at 10, a second one at 10 has opened the circuit and not yet stamped the time. */
  const HALF_TRIPPED: Machine :=
    Machine(CB.Open, Some(0), [0, 10], 0, [Stamping(10, true), Resting], [Idle], 10, 2, Some(10), false, false)

  lemma HalfTripped()
    ensures Reachable(1, HALF_TRIPPED)
  {
    assert CB.Pruned([0], 10, 60) == [0];
    hide Reachable, CB.Pruned;
    Reopened(1);
    var s0 := REOPENED;
    var s1 := s0.(reporters := [Timed(10), Resting]);
    assert Reachable(1, s1) by { Leads(1, s0, Step(TakeTime, 0, 10), s1); }
    var s2 := s1.(failures := [0, 10], reporters := [Tripping(10, true), Resting]);
    assert Reachable(1, s2) by { Leads(1, s1, Step(Fail, 0, 10), s2); }
    var s3 := s2.(state := CB.Open, reporters := [Stamping(10, true), Resting], opens := 2, trip := Some(10));
    assert Reachable(1, s3) by { Leads(1, s2, Step(Open, 0, 10), s3); }
  }

  /** A request passes the check against the stamp of the first trip and is let through. */
  lemma SlipsThrough()
    ensures exists s, step :: LetsThroughEarly(s, step) && step.action.Reopen? && BetweenWrites(s)
  {
    hide Reachable, CB.Pruned;
    HalfTripped();
    var s1 := HALF_TRIPPED.(requesters := [SawOpen]);
    assert Reachable(1, s1) by { Leads(1, HALF_TRIPPED, Step(See, 0, 10), s1); }
    var s2 := s1.(requesters := [Reopening(10)]);
    assert Reachable(1, s2) by { Leads(1, s1, Step(Check, 0, 10), s2); }
    assert BetweenWrites(s2) by { assert s2.reporters[0].Stamping?; }
    assert LetsThroughEarly(s2, Step(Reopen, 0, 10));
  }

  /** Two failures, at 0 and at 5, both find the circuit closed. */
  const BOTH_TRIP: Machine :=
    Machine(CB.Closed, None, [0, 5], 0, [Tripping(0, false), Tripping(5, false)], [Idle], 5, 0, None, false, false)

  lemma BothTrip()
    ensures Reachable(1, BOTH_TRIP)
  {
    assert CB.Pruned([], 0, 60) == [] && CB.Pruned([0], 5, 60) == [0];
    hide Reachable, CB.Pruned;
    NothingYet(1);
    var s0 := FRESH;
    var s1 := s0.(reporters := [Timed(0), Resting]);
    assert Reachable(1, s1) by { Leads(1, s0, Step(TakeTime, 0, 0), s1); }
    var s2 := s1.(reporters := [Timed(0), Timed(5)], clock := 5);
    assert Reachable(1, s2) by { Leads(1, s1, Step(TakeTime, 1, 5), s2); }
    var s3 := s2.(failures := [0], reporters := [Tripping(0, false), Timed(5)]);
    assert Reachable(1, s3) by { Leads(1, s2, Step(Fail, 0, 5), s3); }
    var s4 := s3.(failures := [0, 5], reporters := [Tripping(0, false), Tripping(5, false)]);
    assert Reachable(1, s4) by { Leads(1, s3, Step(Fail, 1, 5), s4); }
  }

  /** The one at 0 stamps last; a request that goes by its time gets through at 10, five too early for the other. */
  lemma OlderTimeLetsThrough()
    ensures exists s, step :: LetsThroughEarly(s, step) && step.action.Reopen? && !BetweenWrites(s)
  {
    hide Reachable, CB.Pruned;
    BothTrip();
    var s0 := BOTH_TRIP;
    var s1 := s0.(state := CB.Open, reporters := [Tripping(0, false), Stamping(5, false)], opens := 1, trip := Some(5));
    assert Reachable(1, s1) by { Leads(1, s0, Step(Open, 1, 5), s1); }
    var s2 := s1.(openedAt := Some(5), reporters := [Tripping(0, false), Resting]);
    assert Reachable(1, s2) by { Leads(1, s1, Step(Stamp, 1, 5), s2); }
    var s3 := s2.(reporters := [Stamping(0, false), Resting], opens := 2);
    assert Reachable(1, s3) by { Leads(1, s2, Step(Open, 0, 5), s3); }
    var s4 := s3.(openedAt := Some(0), reporters := REST, overtaken := true);
    assert Reachable(1, s4) by { Leads(1, s3, Step(Stamp, 0, 5), s4); }
    var s5 := s4.(requesters := [SawOpen], clock := 10);
    assert Reachable(1, s5) by { Leads(1, s4, Step(See, 0, 10), s5); }
    var s6 := s5.(requesters := [Reopening(10)]);
    assert Reachable(1, s6) by { Leads(1, s5, Step(Check, 0, 10), s6); }
    assert LetsThroughEarly(s6, Step(Reopen, 0, 10));
  }

  /** One thread has decided to close the half-open circuit. */
  const DECIDED: Machine :=
    Machine(CB.HalfOpen, Some(0), [0], 1, [Closing(1), Resting], [Idle], 10, 1, Some(0), false, false)

  lemma AboutToClose()
    ensures Reachable(1, DECIDED)
  {
    hide Reachable, CB.Pruned;
    Reopened(1);
    var s0 := REOPENED;
    var s1 := s0.(reporters := [Counting(1), Resting]);
    assert Reachable(1, s1) by { Leads(1, s0, Step(Succeed, 0, 10), s1); }
    var s2 := s1.(successes := 1, reporters := [Closing(1), Resting]);
    assert Reachable(1, s2) by { Leads(1, s1, Step(Count, 0, 10), s2); }
  }

  /** The other one's failure trips and stamps first. */
  const TRIPPED_FIRST: Machine :=
    Machine(CB.Open, Some(10), [0, 10], 1, [Closing(1), Zeroing], [Idle], 10, 2, Some(10), false, false)

  lemma TrippedFirst()
    ensures Reachable(1, TRIPPED_FIRST)
  {
    assert CB.Pruned([0], 10, 60) == [0];
    hide Reachable, CB.Pruned;
    AboutToClose();
    var s0 := DECIDED;
    var s1 := s0.(reporters := [Closing(1), Timed(10)]);
    assert Reachable(1, s1) by { Leads(1, s0, Step(TakeTime, 1, 10), s1); }
    var s2 := s1.(failures := [0, 10], reporters := [Closing(1), Tripping(10, true)]);
    assert Reachable(1, s2) by { Leads(1, s1, Step(Fail, 1, 10), s2); }
    var s3 := s2.(state := CB.Open, reporters := [Closing(1), Stamping(10, true)], opens := 2, trip := Some(10));
    assert Reachable(1, s3) by { Leads(1, s2, Step(Open, 1, 10), s3); }
    var s4 := s3.(openedAt := Some(10), reporters := [Closing(1), Zeroing]);
    assert Reachable(1, s4) by { Leads(1, s3, Step(Stamp, 1, 10), s4); }
  }

  /** The closing then lets a request through at the very time of the trip. */
  lemma ClosesLate()
    ensures exists s, closing, step ::
              && Reachable(1, s) && LeaksAt(s, closing) && closing.action.Close?
              && LetsThroughEarly(Apply(Touchy(1), s, closing), step)
  {
    hide Reachable, CB.Pruned;
    TrippedFirst();
    var close := Step(Close, 0, 10);
    assert LeaksAt(TRIPPED_FIRST, close);
    assert LetsThroughEarly(Apply(Touchy(1), TRIPPED_FIRST, close), Step(See, 0, 10)) by {
      Leads(1, TRIPPED_FIRST, Step(Close, 0, 10), Apply(Touchy(1), TRIPPED_FIRST, close));
    }
  }

  /** Or it decides to trip between the writes of the closing. */
  const TRIPPING_BETWEEN: Machine :=
    Machine(CB.Closed, Some(0), [0, 10], 1, [Unstamping(false), Tripping(10, false)], [Idle], 10,
            1, Some(0), false, false)

  lemma TrippingBetween()
    ensures Reachable(1, TRIPPING_BETWEEN)
  {
    assert CB.Pruned([0], 10, 60) == [0];
    hide Reachable, CB.Pruned;
    AboutToClose();
    var s0 := DECIDED;
    var s1 := s0.(state := CB.Closed, reporters := [Unstamping(false), Resting]);
    assert Reachable(1, s1) by { Leads(1, s0, Step(Close, 0, 10), s1); }
    var s2 := s1.(reporters := [Unstamping(false), Timed(10)]);
    assert Reachable(1, s2) by { Leads(1, s1, Step(TakeTime, 1, 10), s2); }
    var s3 := s2.(failures := [0, 10], reporters := [Unstamping(false), Tripping(10, false)]);
    assert Reachable(1, s3) by { Leads(1, s2, Step(Fail, 1, 10), s3); }
  }

  /** The rest of the closing wipes the time of the trip out: the breaker is open for good. */
  lemma SticksOpen()
    ensures exists s :: Reachable(1, s) && AtRest(s) && s.state == CB.Open && s.openedAt == None
  {
    hide Reachable, CB.Pruned;
    TrippingBetween();
    var s0 := TRIPPING_BETWEEN;
    var s1 := s0.(state := CB.Open, reporters := [Unstamping(false), Stamping(10, false)], opens := 2, trip := Some(10));
    assert Reachable(1, s1) by { Leads(1, s0, Step(Open, 1, 10), s1); }
    var s2 := s1.(openedAt := Some(10), reporters := [Unstamping(false), Resting]);
    assert Reachable(1, s2) by { Leads(1, s1, Step(Stamp, 1, 10), s2); }
    var s3 := s2.(openedAt := None, reporters := [Clearing(false), Resting]);
    assert Reachable(1, s3) by { Leads(1, s2, Step(Unstamp, 0, 10), s3); }
    var s4 := s3.(failures := [], reporters := REST);
    assert Reachable(1, s4) by { Leads(1, s3, Step(Clear, 0, 10), s4); }
    assert AtRest(s4);
  }

  /** Two successes have closed the circuit and left their count. */
  const CLOSED_BY_TWO: Machine := Machine(CB.Closed, None, [], 2, REST, [Idle], 10, 1, Some(0), false, false)

  lemma ClosedByTwo()
    ensures Reachable(2, CLOSED_BY_TWO)
  {
    hide Reachable, CB.Pruned;
    Reopened(2);
    var s0 := REOPENED;
    var s1 := s0.(reporters := [Counting(1), Resting]);
    assert Reachable(2, s1) by { Leads(2, s0, Step(Succeed, 0, 10), s1); }
    var s2 := s1.(successes := 1, reporters := REST);
    assert Reachable(2, s2) by { Leads(2, s1, Step(Count, 0, 10), s2); }
    var s3 := s2.(reporters := [Counting(1), Resting]);
    assert Reachable(2, s3) by { Leads(2, s2, Step(Succeed, 0, 10), s3); }
    var s4 := s3.(successes := 2, reporters := [Closing(1), Resting]);
    assert Reachable(2, s4) by { Leads(2, s3, Step(Count, 0, 10), s4); }
    var s5 := s4.(state := CB.Closed, reporters := [Unstamping(false), Resting]);
    assert Reachable(2, s5) by { Leads(2, s4, Step(Close, 0, 10), s5); }
    var s6 := s5.(openedAt := None, reporters := [Clearing(false), Resting]);
    assert Reachable(2, s6) by { Leads(2, s5, Step(Unstamp, 0, 10), s6); }
    var s7 := s6.(failures := [], reporters := REST);
    assert Reachable(2, s7) by { Leads(2, s6, Step(Clear, 0, 10), s7); }
  }

  /** A failure has tripped it again, and a request at 20 is about to reopen it. */
  const ABOUT_TO_REOPEN: Machine :=
    Machine(CB.Open, Some(10), [10], 2, REST, [Reopening(20)], 20, 2, Some(10), false, false)

  lemma AboutToReopen()
    ensures Reachable(2, ABOUT_TO_REOPEN)
  {
    assert CB.Pruned([], 10, 60) == [];
    hide Reachable, CB.Pruned;
    ClosedByTwo();
    var s0 := CLOSED_BY_TWO;
    var s1 := s0.(reporters := [Timed(10), Resting]);
    assert Reachable(2, s1) by { Leads(2, s0, Step(TakeTime, 0, 10), s1); }
    var s2 := s1.(failures := [10], reporters := [Tripping(10, false), Resting]);
    assert Reachable(2, s2) by { Leads(2, s1, Step(Fail, 0, 10), s2); }
    var s3 := s2.(state := CB.Open, reporters := [Stamping(10, false), Resting], opens := 2, trip := Some(10));
    assert Reachable(2, s3) by { Leads(2, s2, Step(Open, 0, 10), s3); }
    var s4 := s3.(openedAt := Some(10), reporters := REST);
    assert Reachable(2, s4) by { Leads(2, s3, Step(Stamp, 0, 10), s4); }
    var s5 := s4.(requesters := [SawOpen], clock := 20);
    assert Reachable(2, s5) by { Leads(2, s4, Step(See, 0, 20), s5); }
    var s6 := s5.(requesters := [Reopening(20)]);
    assert Reachable(2, s6) by { Leads(2, s5, Step(Check, 0, 20), s6); }
  }

  /** A single success after the reopening, before the count is set back, closes on what the last closing left. */
  lemma OneSuccessCloses()
    ensures exists s, now ::
              && Reachable(2, s) && Enabled(s, Step(Reopen, 0, now))
              && var reopened := Apply(Touchy(2), s, Step(Reopen, 0, now));
              && Enabled(reopened, Step(Succeed, 0, now))
              && var seen := Apply(Touchy(2), reopened, Step(Succeed, 0, now));
              && Enabled(seen, Step(Count, 0, now))
              && DecidesToClose(Apply(Touchy(2), seen, Step(Count, 0, now)), 0)
  {
    hide Reachable, CB.Pruned;
    AboutToReopen();
    var reopened := Apply(Touchy(2), ABOUT_TO_REOPEN, Step(Reopen, 0, 20));
    var seen := Apply(Touchy(2), reopened, Step(Succeed, 0, 20));
    assert DecidesToClose(Apply(Touchy(2), seen, Step(Count, 0, 20)), 0);
  }
}
