/**
 The registry's three reader-writer locks. Its operations do not all take them
 in the same order: registering starts with the vector of migrations, looking up
 and searching end with it. The lemmas say exactly which mixtures of operations
 can come to a standstill, over every number of threads and every interleaving.
 */
module RegistryLocks {
  import opened Prelude

  /** The locks of the vector, the direct index and the graph. */
  datatype Lock = Vector | Index | Edges

  datatype Mode = Shared | Exclusive

  datatype Want = Want(lock: Lock, mode: Mode)

  datatype Call = Register | Unregister | FindDirect | FindPath | HasPath | MigrationsFrom | MigrationsTo | List

  /** The locks a call takes, in order; it lets go of all of them when it returns. */
  function Plan(call: Call): seq<Want> {
    match call
    case Register => [Want(Vector, Exclusive), Want(Index, Exclusive), Want(Edges, Exclusive)]
    case Unregister => [Want(Vector, Shared), Want(Index, Exclusive), Want(Edges, Exclusive)]
    case FindDirect => [Want(Index, Shared), Want(Vector, Shared)]
    case FindPath => [Want(Edges, Shared), Want(Vector, Shared)]
    case HasPath => [Want(Edges, Shared)]
    case MigrationsFrom => [Want(Vector, Shared), Want(Edges, Shared)]
    case MigrationsTo => [Want(Vector, Shared), Want(Index, Shared)]
    case List => [Want(Vector, Shared)]
  }

  datatype Thread = Idle | Running(call: Call, taken: nat)

  /** The lock that the thread is about to take, or waits for. */
  function Wanted(t: Thread): Option<Want> {
    if t.Running? && t.taken < |Plan(t.call)| then Some(Plan(t.call)[t.taken]) else None
  }

  predicate Conflict(a: Want, b: Want) {
    a.lock == b.lock && (a.mode.Exclusive? || b.mode.Exclusive?)
  }

  /** The thread holds a lock that keeps others from taking `w`. */
  ghost predicate HoldsAgainst(u: Thread, w: Want) {
    u.Running? && exists i :: 0 <= i < u.taken && i < |Plan(u.call)| && Conflict(Plan(u.call)[i], w)
  }

  /** The thread is a writer in line for the lock, which keeps new readers out. */
  predicate QueuesAgainst(u: Thread, w: Want) {
    w.mode.Shared? && Wanted(u) == Some(Want(w.lock, Exclusive))
  }

  datatype Step = Begin(t: nat, call: Call) | Take(t: nat) | Finish(t: nat)

  /** Taking a lock needs only that nobody holds it against the thread, so readers may also overtake writers in line. */
  ghost predicate Enabled(calls: set<Call>, s: seq<Thread>, step: Step) {
    step.t < |s| &&
    match step
    case Begin(t, call) => s[t].Idle? && call in calls
    case Take(t) => Wanted(s[t]).Some? && forall u :: 0 <= u < |s| && u != t ==> !HoldsAgainst(s[u], Wanted(s[t]).value)
    case Finish(t) => s[t].Running? && Wanted(s[t]).None?
  }

  function Apply(s: seq<Thread>, step: Step): seq<Thread>
    requires step.t < |s|
  {
    match step
    case Begin(t, call) => s[t := Running(call, 0)]
    case Take(t) => if s[t].Running? then s[t := Running(s[t].call, s[t].taken + 1)] else s
    case Finish(t) => s[t := Idle]
  }

  /** The threads' states that steps of the given calls can lead to, all threads idle at first. */
  ghost predicate Reached(calls: set<Call>, n: nat, s: seq<Thread>, steps: seq<Step>)
    decreases |steps|
  {
    if steps == [] then s == seq(n, _ => Idle)
    else
      var front, last := steps[..|steps| - 1], steps[|steps| - 1];
      exists before :: Reached(calls, n, before, front) && Leads(calls, before, last, s)
  }

  ghost predicate Leads(calls: set<Call>, before: seq<Thread>, step: Step, after: seq<Thread>) {
    Enabled(calls, before, step) && after == Apply(before, step)
  }

  // ---------------------------------------------------------------------------
  // Standstill
  // ---------------------------------------------------------------------------

  ghost predicate HeldUp(s: seq<Thread>, d: set<nat>, t: nat) {
    t < |s| && Wanted(s[t]).Some? && exists u: nat :: u in d && u < |s| && HoldsAgainst(s[u], Wanted(s[t]).value)
  }

  /** Every thread of `d` waits for a lock that a thread of `d` holds. */
  ghost predicate Stuck(s: seq<Thread>, d: set<nat>) {
    d != {} && forall t {:trigger HeldUp(s, d, t)} :: t in d ==> HeldUp(s, d, t)
  }

  ghost predicate Against(u: Thread, w: Want) {
    HoldsAgainst(u, w) || QueuesAgainst(u, w)
  }

  ghost predicate KeptWaiting(s: seq<Thread>, d: set<nat>, t: nat) {
    && t < |s| && Wanted(s[t]).Some?
    && exists u: nat :: u in d && u < |s| && Against(s[u], Wanted(s[t]).value)
  }

  /** Or waits behind a writer of `d` in line: what can come to a standstill if no reader overtakes. */
  ghost predicate Entangled(s: seq<Thread>, d: set<nat>) {
    d != {} && forall t {:trigger KeptWaiting(s, d, t)} :: t in d ==> KeptWaiting(s, d, t)
  }

  /** No thread of a stuck group can take a step. */
  lemma StuckCannotMove(calls: set<Call>, s: seq<Thread>, d: set<nat>, step: Step)
    requires Stuck(s, d) && Enabled(calls, s, step)
    ensures step.t !in d
  {
    assert step.t in d ==> HeldUp(s, d, step.t);
    if Wanted(s[step.t]).Some? {
      OwnLocksDoNotBlock(s[step.t]);
    }
  }

  /** So no step of anyone gets a stuck group going again. */
  lemma StuckForever(calls: set<Call>, s: seq<Thread>, d: set<nat>, step: Step)
    requires Stuck(s, d) && Enabled(calls, s, step)
    ensures Stuck(Apply(s, step), d)
  {
    StuckCannotMove(calls, s, d, step);
    forall t | t in d ensures HeldUp(Apply(s, step), d, t) {
      assert HeldUp(s, d, t);
      var u: nat :| u in d && u < |s| && HoldsAgainst(s[u], Wanted(s[t]).value);
      assert Apply(s, step)[u] == s[u] && Apply(s, step)[t] == s[t];
    }
  }

  /** A thread never waits for a lock that it holds itself. */
  lemma OwnLocksDoNotBlock(t: Thread)
    requires Wanted(t).Some?
    ensures !HoldsAgainst(t, Wanted(t).value)
  {
  }

  /** A standstill is reachable with `n` threads that make the given calls. */
  ghost predicate MayStop(calls: set<Call>, n: nat) {
    exists s, steps, d :: Reached(calls, n, s, steps) && Stuck(s, d)
  }

  ghost predicate MayEntangle(calls: set<Call>, n: nat) {
    exists s, steps, d :: Reached(calls, n, s, steps) && Entangled(s, d)
  }

  // ---------------------------------------------------------------------------
  // Which calls are safe together
  // ---------------------------------------------------------------------------

  ghost predicate Allowed(calls: set<Call>, s: seq<Thread>) {
    forall t :: 0 <= t < |s| && s[t].Running? ==> s[t].call in calls
  }

  lemma {:induction false} OnlyAllowed(calls: set<Call>, n: nat, s: seq<Thread>, steps: seq<Step>)
    requires Reached(calls, n, s, steps)
    ensures |s| == n && Allowed(calls, s)
    decreases |steps|
  {
    if steps != [] {
      var before :| Reached(calls, n, before, steps[..|steps| - 1]) && Leads(calls, before, steps[|steps| - 1], s);
      OnlyAllowed(calls, n, before, steps[..|steps| - 1]);
    }
  }

  /** Whatever a call takes after `lock`, it is one of `later`. */
  predicate OnlyBefore(calls: set<Call>, lock: Lock, later: set<Lock>) {
    forall c :: c in calls ==> Follows(Plan(c), lock, later)
  }

  predicate Follows(plan: seq<Want>, lock: Lock, later: set<Lock>) {
    forall i, j :: 0 <= i < j < |plan| && plan[i].lock == lock ==> plan[j].lock in later
  }

  /** No thread of the group waits for one of the locks. */
  ghost predicate Free(s: seq<Thread>, d: set<nat>, locks: set<Lock>) {
    forall t :: t in d && t < |s| && Wanted(s[t]).Some? ==> Wanted(s[t]).value.lock !in locks
  }

  /** Whoever holds the lock and still waits would wait for a later one. */
  lemma HolderIsOutside(calls: set<Call>, s: seq<Thread>, d: set<nat>, lock: Lock, later: set<Lock>, u: nat, w: Want)
    requires Entangled(s, d) && Allowed(calls, s) && OnlyBefore(calls, lock, later) && Free(s, d, later)
    requires u < |s| && w.lock == lock && HoldsAgainst(s[u], w)
    ensures u !in d
  {
    assert s[u].call in calls;
    assert u in d ==> KeptWaiting(s, d, u);
    assert Follows(Plan(s[u].call), lock, later);
  }

  /** If nobody in the group waits for the later locks, nobody waits for this one either. */
  lemma NobodyWaits(calls: set<Call>, s: seq<Thread>, d: set<nat>, lock: Lock, later: set<Lock>)
    requires Entangled(s, d) && Allowed(calls, s) && OnlyBefore(calls, lock, later) && Free(s, d, later)
    ensures Free(s, d, later + {lock})
  {
    forall t | t in d && t < |s| && Wanted(s[t]).Some? ensures Wanted(s[t]).value.lock != lock {
      if Wanted(s[t]).value.lock == lock {
        var u := Blocker(s, d, t);
        if HoldsAgainst(s[u], Wanted(s[t]).value) {
          HolderIsOutside(calls, s, d, lock, later, u, Wanted(s[t]).value);
        } else {
          var v := Blocker(s, d, u);
          HolderIsOutside(calls, s, d, lock, later, v, Wanted(s[u]).value);
        }
      }
    }
  }

  lemma Blocker(s: seq<Thread>, d: set<nat>, t: nat) returns (u: nat)
    requires Entangled(s, d) && t in d
    ensures t < |s| && Wanted(s[t]).Some? && u in d && u < |s|
    ensures HoldsAgainst(s[u], Wanted(s[t]).value) || QueuesAgainst(s[u], Wanted(s[t]).value)
  {
    assert KeptWaiting(s, d, t);
    u :| u in d && u < |s| && Against(s[u], Wanted(s[t]).value);
  }

  /** The calls that can come to a standstill: one that registers, and one that looks at the vector last. */
  predicate Clashing(calls: set<Call>) {
    Register in calls && (FindDirect in calls || FindPath in calls)
  }

  /** Without the two lookups, the locks are always taken in the same order. */
  lemma OneOrder(calls: set<Call>)
    requires FindDirect !in calls && FindPath !in calls
    ensures OnlyBefore(calls, Edges, {}) && OnlyBefore(calls, Index, {Edges}) && OnlyBefore(calls, Vector, {Edges, Index})
  {
  }

  /** Without a register call, nobody ever waits for the vector. */
  lemma VectorIsOnlyRead(calls: set<Call>, s: seq<Thread>, d: set<nat>)
    requires Entangled(s, d) && Allowed(calls, s) && Register !in calls
    ensures Free(s, d, {Vector})
  {
    forall t | t in d && t < |s| && Wanted(s[t]).Some? ensures Wanted(s[t]).value.lock != Vector {
      var u := Blocker(s, d, t);
    }
  }

  /** An entangled group waits for something. */
  lemma SomebodyWaits(s: seq<Thread>, d: set<nat>)
    requires Entangled(s, d)
    ensures !Free(s, d, {Vector, Index, Edges})
  {
    var t :| t in d;
    var u := Blocker(s, d, t);
    assert Wanted(s[t]).value.lock in {Vector, Index, Edges};
  }

  lemma NobodyIsLeft(calls: set<Call>, s: seq<Thread>, d: set<nat>)
    requires Entangled(s, d) && Allowed(calls, s) && !Clashing(calls)
    ensures Free(s, d, {Vector, Index, Edges})
  {
    if Register in calls {
      OneOrder(calls);
      NobodyWaits(calls, s, d, Edges, {});
      assert {} + {Edges} == {Edges};
      NobodyWaits(calls, s, d, Index, {Edges});
      assert {Edges} + {Index} == {Edges, Index};
      NobodyWaits(calls, s, d, Vector, {Edges, Index});
      assert {Edges, Index} + {Vector} == {Vector, Index, Edges};
    } else {
      VectorIsOnlyRead(calls, s, d);
      NobodyWaits(calls, s, d, Edges, {Vector});
      assert {Vector} + {Edges} == {Vector, Edges};
      NobodyWaits(calls, s, d, Index, {Vector, Edges});
      assert {Vector, Edges} + {Index} == {Vector, Index, Edges};
    }
  }

  lemma NeverEntangled(calls: set<Call>, s: seq<Thread>, d: set<nat>)
    requires Allowed(calls, s) && !Clashing(calls)
    ensures !Entangled(s, d)
  {
    if Entangled(s, d) {
      SomebodyWaits(s, d);
      NobodyIsLeft(calls, s, d);
    }
  }

  // ---------------------------------------------------------------------------
  // Which calls are not
  // ---------------------------------------------------------------------------

  lemma OneMore(calls: set<Call>, n: nat, s: seq<Thread>, steps: seq<Step>, step: Step)
    requires Reached(calls, n, s, steps) && Enabled(calls, s, step)
    ensures Reached(calls, n, Apply(s, step), steps + [step])
  {
    assert (steps + [step])[..|steps|] == steps;
    assert Leads(calls, s, step, Apply(s, step));
  }

  /** Two threads that each hold what the other waits for. */
  lemma WaitForEachOther(s: seq<Thread>)
    requires |s| >= 2
    requires (s[0] == Running(Register, 1) && s[1] == Running(FindDirect, 1))
             || (s[0] == Running(Register, 2) && s[1] == Running(FindPath, 1))
    ensures Stuck(s, {0, 1})
  {
    assert Conflict(Plan(s[0].call)[0], Wanted(s[1]).value) && Conflict(Plan(s[1].call)[0], Wanted(s[0]).value);
    assert HoldsAgainst(s[0], Wanted(s[1]).value) && HoldsAgainst(s[1], Wanted(s[0]).value);
    var zero: nat, one: nat := 0, 1;
    assert HeldUp(s, {0, 1}, zero) && HeldUp(s, {0, 1}, one);
  }

  /** The first thread starts to register and takes some of its locks. */
  lemma {:induction false} RegisterTakes(calls: set<Call>, n: nat, taken: nat) returns (s: seq<Thread>, steps: seq<Step>)
    requires n >= 2 && Register in calls && taken <= 2
    ensures Reached(calls, n, s, steps) && |s| == n
    ensures s[0] == Running(Register, taken) && forall t :: 1 <= t < n ==> s[t] == Idle
  {
    if taken == 0 {
      s, steps := seq(n, _ => Idle), [];
      OneMore(calls, n, s, steps, Begin(0, Register));
      s, steps := Apply(s, Begin(0, Register)), steps + [Begin(0, Register)];
    } else {
      s, steps := RegisterTakes(calls, n, taken - 1);
      OneMore(calls, n, s, steps, Take(0));
      s, steps := Apply(s, Take(0)), steps + [Take(0)];
    }
  }

  /** The second thread starts a call and takes its first lock, which the first one does not hold. */
  lemma SecondJoins(calls: set<Call>, n: nat, s: seq<Thread>, steps: seq<Step>, call: Call)
    returns (s': seq<Thread>, steps': seq<Step>)
    requires Reached(calls, n, s, steps) && |s| == n >= 2 && call in calls
    requires !HoldsAgainst(s[0], Plan(call)[0]) && forall t :: 1 <= t < n ==> s[t] == Idle
    ensures Reached(calls, n, s', steps') && |s'| == n && s'[0] == s[0] && s'[1] == Running(call, 1)
  {
    OneMore(calls, n, s, steps, Begin(1, call));
    s', steps' := Apply(s, Begin(1, call)), steps + [Begin(1, call)];
    OneMore(calls, n, s', steps', Take(1));
    s', steps' := Apply(s', Take(1)), steps' + [Take(1)];
  }

  /** A registration that waits for the index while a direct lookup holds it and waits for the vector. */
  lemma LookupStops(calls: set<Call>, n: nat)
    requires n >= 2 && Register in calls && FindDirect in calls
    ensures MayStop(calls, n)
  {
    var s, steps := RegisterTakes(calls, n, 1);
    s, steps := SecondJoins(calls, n, s, steps, FindDirect);
    WaitForEachOther(s);
  }

  /** A registration that waits for the graph while a path search holds it and waits for the vector. */
  lemma SearchStops(calls: set<Call>, n: nat)
    requires n >= 2 && Register in calls && FindPath in calls
    ensures MayStop(calls, n)
  {
    var s, steps := RegisterTakes(calls, n, 2);
    s, steps := SecondJoins(calls, n, s, steps, FindPath);
    WaitForEachOther(s);
  }

  /** A lone thread waits for nobody. */
  lemma AloneNeverEntangled(s: seq<Thread>, d: set<nat>)
    requires |s| <= 1
    ensures !Entangled(s, d)
  {
    if Entangled(s, d) {
      var t :| t in d;
      var u := Blocker(s, d, t);
      assert u == t == 0;
      OwnLocksDoNotBlock(s[t]);
    }
  }

  /**
   Threads can stop for good if and only if there are two or more of them, they register migrations, and
   they look up direct migrations or search for paths. It makes no difference whether readers may
   overtake a writer in line.
   */
  lemma MayStopIff(calls: set<Call>, n: nat)
    ensures MayStop(calls, n) <==> n >= 2 && Clashing(calls)
    ensures MayEntangle(calls, n) <==> n >= 2 && Clashing(calls)
  {
    if n >= 2 && Clashing(calls) {
      if FindDirect in calls {
        LookupStops(calls, n);
      } else {
        SearchStops(calls, n);
      }
    }
    if MayStop(calls, n) {
      var s, steps, d :| Reached(calls, n, s, steps) && Stuck(s, d);
      StuckIsEntangled(s, d);
    }
    if MayEntangle(calls, n) {
      var s, steps, d :| Reached(calls, n, s, steps) && Entangled(s, d);
      OnlyAllowed(calls, n, s, steps);
      if !Clashing(calls) {
        NeverEntangled(calls, s, d);
      }
      if n <= 1 {
        AloneNeverEntangled(s, d);
      }
    }
  }

  lemma StuckIsEntangled(s: seq<Thread>, d: set<nat>)
    requires Stuck(s, d)
    ensures Entangled(s, d)
  {
    forall t | t in d ensures KeptWaiting(s, d, t) {
      assert HeldUp(s, d, t);
    }
  }
}
