/**
 The dispatch backends at the grain of their locks: where a trace can be while
 threads interleave, how often it is delivered, and what a shutdown leaves.
 */
module DispatchProtocol {
  import opened Prelude
  import opened Dispatch

  /** The Raft backend has no bound, and no clients that wait. */
  datatype Backend = MemoryBackend(config: MemoryConfig) | RaftBackend

  /** What a thread is in the middle of. */
  datatype Pc =
    | Idle
    | Admitting(request: Request)   // enqueue, past the shutdown check
    | Polling                       // dequeue, past the shutdown check
    | Waiting                       // dequeue, found nothing and waits to be notified
    | Holding(request: Request)     // dequeue, popped but not yet in flight
    | Retrying(request: Request)    // nack, out of flight but not yet pushed

  datatype Proto = Proto(
    queue: seq<Request>, inFlight: map<nat, Request>, threads: seq<Pc>, shuttingDown: bool,
    totalEnqueued: nat, totalDequeued: nat,
    // where finished traces went, and the books on what was accepted
    acked: set<nat>, failed: set<nat>, dropped: set<nat>, accepted: map<nat, Request>, pops: map<nat, nat>)

  datatype Step =
    | CheckAdmit(t: nat, request: Request)
    | PushNew(t: nat)
    | CheckPoll(t: nat)
    | Pop(t: nat, i: nat)
    | PopNothing(t: nat)
    | Wait(t: nat)
    | Insert(t: nat)
    | AckStep(id: nat)
    | NackTake(t: nat, id: nat, retry: bool)
    | NackPush(t: nat)
    | ShutdownStep

  /** The queue may next hand out the request at `i`. */
  predicate MayTake(b: Backend, queue: seq<Request>, i: nat) {
    match b
    case MemoryBackend(c) => MayPop(c, queue, i)
    case RaftBackend => i == 0 < |queue|
  }

  /** The Raft backend keeps its queue locked until a popped trace is in flight. */
  ghost predicate QueueLocked(b: Backend, s: Proto) {
    b.RaftBackend? && SomeoneHolds(s)
  }

  ghost predicate SomeoneHolds(s: Proto) {
    exists t {:trigger s.threads[t]} :: 0 <= t < |s.threads| && s.threads[t].Holding?
  }

  predicate Asks(p: Pc) {
    p.Polling? || p.Waiting?
  }

  /**
   When a thread may take the step. A waiting thread pops again without another look at the flag, or gives
   up. Clients never submit an id that was accepted before.
   */
  ghost predicate Enabled(b: Backend, s: Proto, step: Step) {
    match step
    case CheckAdmit(t, r) => t < |s.threads| && s.threads[t].Idle? && !s.shuttingDown
    case PushNew(t) => t < |s.threads| && IsNew(s, s.threads[t]) && !QueueLocked(b, s)
    case CheckPoll(t) => t < |s.threads| && s.threads[t].Idle? && !s.shuttingDown
    case Pop(t, i) => t < |s.threads| && Asks(s.threads[t]) && MayTake(b, s.queue, i) && !QueueLocked(b, s)
    case PopNothing(t) => t < |s.threads| && (s.threads[t].Waiting? || FindsNothing(b, s, t))
    case Wait(t) => t < |s.threads| && b.MemoryBackend? && FindsNothing(b, s, t)
    case Insert(t) => t < |s.threads| && s.threads[t].Holding?
    case AckStep(_) => true
    case NackTake(t, _, _) => t < |s.threads| && s.threads[t].Idle?
    case NackPush(t) => t < |s.threads| && s.threads[t].Retrying? && !QueueLocked(b, s)
    case ShutdownStep => true
  }

  predicate IsNew(s: Proto, p: Pc) {
    p.Admitting? && p.request.id !in s.accepted
  }

  ghost predicate FindsNothing(b: Backend, s: Proto, t: nat)
    requires t < |s.threads|
  {
    s.threads[t].Polling? && s.queue == [] && !QueueLocked(b, s)
  }

  function Full(b: Backend, s: Proto): bool {
    b.MemoryBackend? && |s.queue| >= b.config.maxQueueSize
  }

  function Apply(b: Backend, s: Proto, step: Step): Proto
    requires Enabled(b, s, step)
  {
    match step
    case CheckAdmit(t, r) => s.(threads := s.threads[t := Admitting(r)])
    case PushNew(t) =>
      var r := s.threads[t].request;
      var idle := s.(threads := s.threads[t := Idle]);
      if Full(b, s) then idle
      else idle.(queue := s.queue + [r], totalEnqueued := s.totalEnqueued + 1,
                 accepted := s.accepted[r.id := r], pops := s.pops[r.id := 0])
    case CheckPoll(t) => s.(threads := s.threads[t := Polling])
    case Pop(t, i) =>
      var r := s.queue[i];
      s.(queue := Without(s.queue, i), threads := s.threads[t := Holding(r.IncrementAttempt())],
         totalDequeued := s.totalDequeued + 1,
         pops := s.pops[r.id := (if r.id in s.pops then s.pops[r.id] else 0) + 1])
    case PopNothing(t) => s.(threads := s.threads[t := Idle])
    case Wait(t) => s.(threads := s.threads[t := Waiting])
    case Insert(t) =>
      var r := s.threads[t].request;
      s.(inFlight := s.inFlight[r.id := r], threads := s.threads[t := Idle])
    case AckStep(id) =>
      if id in s.inFlight then s.(inFlight := s.inFlight - {id}, acked := s.acked + {id}) else s
    case NackTake(t, id, retry) =>
      if id !in s.inFlight then s
      else if retry && !s.inFlight[id].IsExhausted() then
        s.(inFlight := s.inFlight - {id}, threads := s.threads[t := Retrying(s.inFlight[id])])
      else s.(inFlight := s.inFlight - {id}, failed := s.failed + {id})
    case NackPush(t) =>
      var r := s.threads[t].request;
      var idle := s.(threads := s.threads[t := Idle]);
      if Full(b, s) then idle.(dropped := s.dropped + {r.id})
      else idle.(queue := s.queue + [r], totalEnqueued := s.totalEnqueued + 1)
    case ShutdownStep => s.(shuttingDown := true)
  }

  function Start(threads: nat): Proto {
    Proto([], map[], seq(threads, _ => Idle), false, 0, 0, {}, {}, {}, map[], map[])
  }

  /** The `k`-th step of a run is allowed and leads to the next state. */
  ghost predicate StepAt(b: Backend, states: seq<Proto>, steps: seq<Step>, k: nat)
    requires k < |steps| && |states| == |steps| + 1
  {
    Enabled(b, states[k], steps[k]) && states[k + 1] == Apply(b, states[k], steps[k])
  }

  /** Allowed steps in any order, from `first` on. */
  ghost predicate Follows(b: Backend, first: Proto, states: seq<Proto>, steps: seq<Step>) {
    && |states| == |steps| + 1 && states[0] == first
    && forall k {:trigger StepAt(b, states, steps, k)} :: 0 <= k < |steps| ==> StepAt(b, states, steps, k)
  }

  /** Any number of threads taking allowed steps in any order. */
  ghost predicate IsRun(b: Backend, threads: nat, states: seq<Proto>, steps: seq<Step>) {
    Follows(b, Start(threads), states, steps)
  }

  // ---------------------------------------------------------------------------
  // Counting the places of a trace
  // ---------------------------------------------------------------------------

  ghost function One(b: bool): nat {
    if b then 1 else 0
  }

  ghost function InQueue(queue: seq<Request>, id: nat): nat {
    if queue == [] then 0 else InQueue(queue[..|queue| - 1], id) + One(queue[|queue| - 1].id == id)
  }

  /** A thread has the trace in hand between two lock steps. */
  ghost function InHand(p: Pc, id: nat): nat {
    One((p.Holding? || p.Retrying?) && p.request.id == id)
  }

  ghost function InHands(threads: seq<Pc>, id: nat): nat {
    if threads == [] then 0 else InHands(threads[..|threads| - 1], id) + InHand(threads[|threads| - 1], id)
  }

  /** In how many places the trace is: queued, in hand, in flight, acked, failed or dropped. */
  ghost function Places(s: Proto, id: nat): nat {
    InQueue(s.queue, id) + InHands(s.threads, id) + One(id in s.inFlight)
    + One(id in s.acked) + One(id in s.failed) + One(id in s.dropped)
  }

  lemma {:induction false} InQueueWithout(queue: seq<Request>, i: nat, id: nat)
    requires i < |queue|
    ensures InQueue(queue, id) == InQueue(Without(queue, i), id) + One(queue[i].id == id)
  {
    var last := |queue| - 1;
    if i == last {
      assert Without(queue, i) == queue[..last];
    } else {
      var rest := Without(queue, i);
      InQueueWithout(queue[..last], i, id);
      assert rest[..last - 1] == Without(queue[..last], i) && rest[last - 1] == queue[last];
    }
  }

  lemma {:induction false} InQueueHas(queue: seq<Request>, i: nat)
    requires i < |queue|
    ensures InQueue(queue, queue[i].id) >= 1
  {
    if i < |queue| - 1 {
      InQueueHas(queue[..|queue| - 1], i);
    }
  }

  lemma {:induction false} InHandsUpdate(threads: seq<Pc>, t: nat, p: Pc, id: nat)
    requires t < |threads|
    ensures InHands(threads[t := p], id) + InHand(threads[t], id) == InHands(threads, id) + InHand(p, id)
  {
    var last := |threads| - 1;
    if t == last {
      assert threads[t := p][..last] == threads[..last];
    } else {
      InHandsUpdate(threads[..last], t, p, id);
      assert threads[t := p][..last] == threads[..last][t := p];
    }
  }

  lemma {:induction false} InHandsHas(threads: seq<Pc>, t: nat, id: nat)
    requires t < |threads|
    ensures InHands(threads, id) >= InHand(threads[t], id)
  {
    if t < |threads| - 1 {
      InHandsHas(threads[..|threads| - 1], t, id);
    }
  }

  lemma {:induction false} NobodyHolds(n: nat, id: nat)
    ensures InHands(seq(n, _ => Idle), id) == 0
  {
    if n > 0 {
      NobodyHolds(n - 1, id);
      assert seq(n, _ => Idle)[..n - 1] == seq(n - 1, _ => Idle);
    }
  }

  /** An accepted trace is in one place, any other id in none. */
  ghost predicate OnePlace(s: Proto, id: nat) {
    Places(s, id) == One(id in s.accepted)
  }

  ghost predicate Keyed(s: Proto) {
    forall id {:trigger s.inFlight[id]} :: id in s.inFlight ==> s.inFlight[id].id == id
  }

  lemma HandOver(b: Backend, s: Proto, step: Step, id: nat)
    requires Enabled(b, s, step) && OnePlace(s, id)
    requires step.CheckAdmit? || step.CheckPoll? || step.PopNothing? || step.Wait?
    ensures OnePlace(Apply(b, s, step), id)
  {
    InHandsUpdate(s.threads, step.t, Apply(b, s, step).threads[step.t], id);
  }

  lemma PushNewPlace(b: Backend, s: Proto, t: nat, id: nat)
    requires Enabled(b, s, PushNew(t)) && OnePlace(s, id)
    ensures OnePlace(Apply(b, s, PushNew(t)), id)
  {
    InHandsUpdate(s.threads, t, Idle, id);
    if !Full(b, s) {
      assert Apply(b, s, PushNew(t)).queue == s.queue + [s.threads[t].request];
    }
  }

  lemma PopPlace(b: Backend, s: Proto, t: nat, i: nat, id: nat)
    requires Enabled(b, s, Pop(t, i)) && OnePlace(s, id)
    ensures OnePlace(Apply(b, s, Pop(t, i)), id)
  {
    InHandsUpdate(s.threads, t, Holding(s.queue[i].IncrementAttempt()), id);
    InQueueWithout(s.queue, i, id);
  }

  lemma InsertPlace(b: Backend, s: Proto, t: nat, id: nat)
    requires Enabled(b, s, Insert(t)) && OnePlace(s, id)
    ensures OnePlace(Apply(b, s, Insert(t)), id)
  {
    InHandsUpdate(s.threads, t, Idle, id);
    InHandsHas(s.threads, t, id);
  }

  lemma NackTakePlace(b: Backend, s: Proto, t: nat, other: nat, retry: bool, id: nat)
    requires Enabled(b, s, NackTake(t, other, retry)) && Keyed(s) && OnePlace(s, id)
    ensures OnePlace(Apply(b, s, NackTake(t, other, retry)), id)
  {
    if other in s.inFlight {
      InHandsUpdate(s.threads, t, Retrying(s.inFlight[other]), id);
    }
  }

  lemma RequeuePlace(b: Backend, s: Proto, t: nat, id: nat)
    requires Enabled(b, s, NackPush(t)) && OnePlace(s, id) && !Full(b, s)
    ensures OnePlace(Apply(b, s, NackPush(t)), id)
  {
    InHandsUpdate(s.threads, t, Idle, id);
  }

  lemma DropPlace(b: Backend, s: Proto, t: nat, id: nat)
    requires Enabled(b, s, NackPush(t)) && OnePlace(s, id) && Full(b, s)
    ensures OnePlace(Apply(b, s, NackPush(t)), id)
  {
    InHandsUpdate(s.threads, t, Idle, id);
    InHandsHas(s.threads, t, id);
  }

  /** No step makes a trace vanish or appear twice. */
  lemma StepCounts(b: Backend, s: Proto, step: Step, id: nat)
    requires Enabled(b, s, step) && Keyed(s) && OnePlace(s, id)
    ensures OnePlace(Apply(b, s, step), id)
  {
    match step
    case PushNew(t) => PushNewPlace(b, s, t, id);
    case Pop(t, i) => PopPlace(b, s, t, i, id);
    case Insert(t) => InsertPlace(b, s, t, id);
    case AckStep(_) =>
    case NackTake(t, other, retry) => NackTakePlace(b, s, t, other, retry, id);
    case NackPush(t) =>
      if Full(b, s) {
        DropPlace(b, s, t, id);
      } else {
        RequeuePlace(b, s, t, id);
      }
    case ShutdownStep =>
    case _ => HandOver(b, s, step, id);
  }

  /**
   Under every interleaving, each accepted trace is in exactly one place and any other id in none: it is
   never handled twice at once, and what is in no structure any more was dropped.
   */
  lemma {:induction false} ExactlyOnePlace(
      b: Backend, threads: nat, states: seq<Proto>, steps: seq<Step>, k: nat, id: nat)
    requires IsRun(b, threads, states, steps) && k < |states|
    ensures Keyed(states[k]) && OnePlace(states[k], id)
    decreases k
  {
    if k == 0 {
      NobodyHolds(threads, id);
    } else {
      ExactlyOnePlace(b, threads, states, steps, k - 1, id);
      assert StepAt(b, states, steps, k - 1);
      StepCounts(b, states[k - 1], steps[k - 1], id);
    }
  }

  /** A trace is dropped by a step if and only if that step is a retry's push that meets a full queue. */
  lemma DroppedIff(b: Backend, s: Proto, step: Step)
    requires Enabled(b, s, step) && forall id :: OnePlace(s, id)
    ensures Apply(b, s, step).dropped != s.dropped <==> step.NackPush? && Full(b, s)
  {
    if step.NackPush? && Full(b, s) {
      var id := s.threads[step.t].request.id;
      assert OnePlace(s, id);
      InHandsHas(s.threads, step.t, id);
      assert id !in s.dropped && id in Apply(b, s, step).dropped;
    }
  }

  // ---------------------------------------------------------------------------
  // How often a trace is delivered
  // ---------------------------------------------------------------------------

  /** `r` is the accepted trace with one more attempt for every time it was popped. */
  ghost predicate Tracked(s: Proto, r: Request) {
    && r.id in s.accepted && r.id in s.pops
    && r.maxAttempts == s.accepted[r.id].maxAttempts && r.attempt == s.accepted[r.id].attempt + s.pops[r.id]
  }

  /** A trace that waits was never popped or has attempts left. */
  ghost predicate Waits(s: Proto, r: Request) {
    Tracked(s, r) && (s.pops[r.id] == 0 || r.attempt < r.maxAttempts)
  }

  /** A popped trace had not used up its attempts before this one, unless this is the first. */
  ghost predicate Runs(s: Proto, r: Request) {
    Tracked(s, r) && s.pops[r.id] >= 1 && (s.pops[r.id] == 1 || r.attempt <= r.maxAttempts)
  }

  ghost predicate QueueWaits(s: Proto) {
    forall i {:trigger s.queue[i]} :: 0 <= i < |s.queue| ==> Waits(s, s.queue[i])
  }

  ghost predicate HandOk(s: Proto, p: Pc) {
    (p.Holding? ==> Runs(s, p.request)) && (p.Retrying? ==> Waits(s, p.request))
  }

  ghost predicate HandsOk(s: Proto) {
    forall t {:trigger s.threads[t]} :: 0 <= t < |s.threads| ==> HandOk(s, s.threads[t])
  }

  ghost predicate FlightsRun(s: Proto) {
    forall id {:trigger s.inFlight[id]} :: id in s.inFlight ==> Runs(s, s.inFlight[id])
  }

  ghost predicate BoundOk(s: Proto, id: nat) {
    id in s.accepted ==> id in s.pops && s.pops[id] <= DeliveryBound(s.accepted[id])
  }

  ghost predicate PopsAccepted(s: Proto, id: nat) {
    id in s.pops ==> id in s.accepted
  }

  ghost predicate Bounded(s: Proto) {
    && (forall id {:trigger BoundOk(s, id)} :: BoundOk(s, id))
    && (forall id {:trigger PopsAccepted(s, id)} :: PopsAccepted(s, id))
  }

  ghost predicate Books(s: Proto) {
    Keyed(s) && QueueWaits(s) && HandsOk(s) && FlightsRun(s) && Bounded(s)
  }

  /** What the books say of a trace stands while no entry of that trace changes. */
  ghost predicate SameEntry(s: Proto, s': Proto, id: nat) {
    && (id in s.accepted ==> id in s'.accepted && s'.accepted[id] == s.accepted[id])
    && (id in s.pops ==> id in s'.pops && s'.pops[id] == s.pops[id])
  }

  lemma HandStands(s: Proto, s': Proto, p: Pc)
    requires HandOk(s, p) && ((p.Holding? || p.Retrying?) ==> SameEntry(s, s', p.request.id))
    ensures HandOk(s', p)
  {
  }

  lemma WaitsStands(s: Proto, s': Proto, r: Request)
    requires Waits(s, r) && SameEntry(s, s', r.id)
    ensures Waits(s', r)
  {
  }

  /** A trace popped is nowhere else in the queue. */
  lemma PopQueue(b: Backend, s: Proto, t: nat, i: nat)
    requires Enabled(b, s, Pop(t, i)) && QueueWaits(s) && OnePlace(s, s.queue[i].id)
    ensures QueueWaits(Apply(b, s, Pop(t, i)))
  {
    var s', r := Apply(b, s, Pop(t, i)), s.queue[i];
    InQueueWithout(s.queue, i, r.id);
    forall j | 0 <= j < |s'.queue| ensures Waits(s', s'.queue[j]) {
      InQueueHas(s'.queue, j);
      assert s'.queue[j] == if j < i then s.queue[j] else s.queue[j + 1];
      assert Waits(s, s'.queue[j]) && s'.queue[j].id != r.id;
      WaitsStands(s, s', s'.queue[j]);
    }
  }

  /** Nor in anybody's hands, but for the popping thread's, where it has one attempt more. */
  lemma PopHands(b: Backend, s: Proto, t: nat, i: nat)
    requires Enabled(b, s, Pop(t, i)) && QueueWaits(s) && HandsOk(s) && OnePlace(s, s.queue[i].id)
    ensures HandsOk(Apply(b, s, Pop(t, i)))
  {
    var s', r := Apply(b, s, Pop(t, i)), s.queue[i];
    assert Waits(s, r);
    InQueueHas(s.queue, i);
    forall u | 0 <= u < |s'.threads| ensures HandOk(s', s'.threads[u]) {
      if u != t {
        InHandsHas(s.threads, u, r.id);
        assert HandOk(s, s.threads[u]);
        HandStands(s, s', s.threads[u]);
      }
    }
  }

  /** Nor in flight. */
  lemma PopFlights(b: Backend, s: Proto, t: nat, i: nat)
    requires Enabled(b, s, Pop(t, i)) && FlightsRun(s) && Keyed(s) && OnePlace(s, s.queue[i].id)
    ensures FlightsRun(Apply(b, s, Pop(t, i))) && Keyed(Apply(b, s, Pop(t, i)))
  {
    var s', r := Apply(b, s, Pop(t, i)), s.queue[i];
    InQueueHas(s.queue, i);
    forall id | id in s'.inFlight ensures Runs(s', s'.inFlight[id]) {
      assert Runs(s, s.inFlight[id]) && s.inFlight[id].id == id && id != r.id;
    }
  }

  lemma PopBounded(b: Backend, s: Proto, t: nat, i: nat)
    requires Enabled(b, s, Pop(t, i)) && QueueWaits(s) && Bounded(s)
    ensures Bounded(Apply(b, s, Pop(t, i)))
  {
    var s' := Apply(b, s, Pop(t, i));
    assert Waits(s, s.queue[i]);
    forall id ensures BoundOk(s', id) && PopsAccepted(s', id) {
      assert BoundOk(s, id) && PopsAccepted(s, id);
    }
  }

  /** A pop gives its own trace one more attempt and leaves all others as they were. */
  lemma PopBooks(b: Backend, s: Proto, t: nat, i: nat)
    requires Enabled(b, s, Pop(t, i)) && Books(s) && OnePlace(s, s.queue[i].id)
    ensures Books(Apply(b, s, Pop(t, i)))
  {
    hide Apply, Enabled, QueueWaits, HandsOk, FlightsRun, Keyed, Bounded;
    PopQueue(b, s, t, i);
    PopHands(b, s, t, i);
    PopFlights(b, s, t, i);
    PopBounded(b, s, t, i);
  }

  lemma PushBounded(b: Backend, s: Proto, t: nat)
    requires Enabled(b, s, PushNew(t)) && Bounded(s)
    ensures Bounded(Apply(b, s, PushNew(t)))
    ensures forall id :: id in s.accepted ==> SameEntry(s, Apply(b, s, PushNew(t)), id)
  {
    var s' := Apply(b, s, PushNew(t));
    forall id ensures BoundOk(s', id) {
      assert BoundOk(s, id);
    }
    forall id ensures PopsAccepted(s', id) {
      assert PopsAccepted(s, id);
    }
  }

  /** A new trace starts with no deliveries; nothing else refers to its id. */
  lemma PushBooks(b: Backend, s: Proto, t: nat)
    requires Enabled(b, s, PushNew(t)) && Books(s)
    ensures Books(Apply(b, s, PushNew(t)))
  {
    var s', r := Apply(b, s, PushNew(t)), s.threads[t].request;
    PushBounded(b, s, t);
    forall j | 0 <= j < |s'.queue| ensures Waits(s', s'.queue[j]) {
      if j < |s.queue| {
        assert Waits(s, s.queue[j]) && s'.queue[j] == s.queue[j];
      }
    }
    forall u | 0 <= u < |s'.threads| ensures HandOk(s', s'.threads[u]) {
      if u != t {
        assert HandOk(s, s.threads[u]);
        HandStands(s, s', s.threads[u]);
      }
    }
    forall id | id in s'.inFlight ensures Runs(s', s'.inFlight[id]) {
      assert Runs(s, s.inFlight[id]);
    }
  }

  lemma MoveHands(b: Backend, s: Proto, step: Step)
    requires Enabled(b, s, step) && HandsOk(s) && FlightsRun(s) && !step.Pop? && !step.PushNew?
    ensures HandsOk(Apply(b, s, step))
  {
    var s' := Apply(b, s, step);
    if step.NackTake? && step.id in s.inFlight {
      assert Runs(s, s.inFlight[step.id]);
    }
    forall u | 0 <= u < |s'.threads| ensures HandOk(s', s'.threads[u]) {
      assert HandOk(s, s.threads[u]);
      HandStands(s, s', s.threads[u]);
    }
  }

  lemma MoveFlights(b: Backend, s: Proto, step: Step)
    requires Enabled(b, s, step) && HandsOk(s) && FlightsRun(s) && !step.Pop? && !step.PushNew?
    ensures FlightsRun(Apply(b, s, step))
  {
    var s' := Apply(b, s, step);
    if step.Insert? {
      assert HandOk(s, s.threads[step.t]);
    }
    forall id | id in s'.inFlight ensures Runs(s', s'.inFlight[id]) {
      if id in s.inFlight && s'.inFlight[id] == s.inFlight[id] {
        assert Runs(s, s.inFlight[id]);
      }
    }
  }

  lemma MoveBooks(b: Backend, s: Proto, step: Step)
    requires Enabled(b, s, step) && Books(s) && !step.Pop? && !step.PushNew?
    ensures Books(Apply(b, s, step))
  {
    MoveHands(b, s, step);
    MoveFlights(b, s, step);
    forall id ensures BoundOk(Apply(b, s, step), id) && PopsAccepted(Apply(b, s, step), id) {
      assert BoundOk(s, id) && PopsAccepted(s, id);
    }
  }

  lemma {:induction false} BooksKept(b: Backend, threads: nat, states: seq<Proto>, steps: seq<Step>, k: nat)
    requires IsRun(b, threads, states, steps) && k < |states|
    ensures Books(states[k])
    decreases k
  {
    if k > 0 {
      var s, step := states[k - 1], steps[k - 1];
      BooksKept(b, threads, states, steps, k - 1);
      assert StepAt(b, states, steps, k - 1);
      if step.Pop? {
        ExactlyOnePlace(b, threads, states, steps, k - 1, s.queue[step.i].id);
        PopBooks(b, s, step.t, step.i);
      } else if step.PushNew? {
        PushBooks(b, s, step.t);
      } else {
        MoveBooks(b, s, step);
      }
    }
  }

  /** In any run an accepted trace is delivered at most max(1, max_attempts - attempts used before) times. */
  lemma DeliveriesBounded(
      b: Backend, threads: nat, states: seq<Proto>, steps: seq<Step>, k: nat, id: nat)
    requires IsRun(b, threads, states, steps) && k < |states| && id in states[k].accepted
    ensures id in states[k].pops && states[k].pops[id] <= DeliveryBound(states[k].accepted[id])
  {
    BooksKept(b, threads, states, steps, k);
    assert BoundOk(states[k], id);
  }

  // ---------------------------------------------------------------------------
  // Totals
  // ---------------------------------------------------------------------------

  ghost function Total(pops: map<nat, nat>): nat {
    if pops == map[] then 0
    else
      var k :| k in pops;
      pops[k] + Total(pops - {k})
  }

  lemma {:induction false} TotalSplit(pops: map<nat, nat>, k: nat)
    requires k in pops
    ensures Total(pops) == pops[k] + Total(pops - {k})
    decreases |pops|
  {
    var a :| a in pops && Total(pops) == pops[a] + Total(pops - {a});
    if a != k {
      TotalSplit(pops - {a}, k);
      TotalSplit(pops - {k}, a);
      assert pops - {a} - {k} == pops - {k} - {a};
    }
  }

  lemma TotalSet(pops: map<nat, nat>, k: nat, n: nat)
    ensures Total(pops[k := n]) + (if k in pops then pops[k] else 0) == Total(pops) + n
  {
    TotalSplit(pops[k := n], k);
    if k in pops {
      TotalSplit(pops, k);
      assert pops[k := n] - {k} == pops - {k};
    } else {
      assert pops[k := n] - {k} == pops;
    }
  }

  ghost function Bounds(accepted: map<nat, Request>): map<nat, nat> {
    map id | id in accepted :: DeliveryBound(accepted[id])
  }

  lemma {:induction false} TotalMonotone(a: map<nat, nat>, b: map<nat, nat>)
    requires a.Keys == b.Keys && forall k :: k in a ==> a[k] <= b[k]
    ensures Total(a) <= Total(b)
    decreases |a|
  {
    if a != map[] {
      var k :| k in a;
      TotalSplit(a, k);
      TotalSplit(b, k);
      TotalMonotone(a - {k}, b - {k});
    } else {
      assert b == map[];
    }
  }

  /** Pops are counted trace by trace, and what was pushed but not popped is in the queue. */
  ghost predicate Balanced(s: Proto) {
    s.totalDequeued == Total(s.pops) && s.totalEnqueued == s.totalDequeued + |s.queue|
  }

  lemma StepBalanced(b: Backend, s: Proto, step: Step)
    requires Enabled(b, s, step) && Balanced(s) && Bounded(s)
    requires step.Pop? ==> s.queue[step.i].id in s.pops
    ensures Balanced(Apply(b, s, step))
  {
    hide Total;
    match step
    case PushNew(t) =>
      var id := s.threads[t].request.id;
      assert PopsAccepted(s, id);
      TotalSet(s.pops, id, 0);
    case Pop(t, i) => TotalSet(s.pops, s.queue[i].id, s.pops[s.queue[i].id] + 1);
    case _ =>
  }

  lemma {:induction false} BalancedRun(b: Backend, threads: nat, states: seq<Proto>, steps: seq<Step>, k: nat)
    requires IsRun(b, threads, states, steps) && k < |states|
    ensures Balanced(states[k])
    decreases k
  {
    if k > 0 {
      BalancedRun(b, threads, states, steps, k - 1);
      BooksKept(b, threads, states, steps, k - 1);
      assert StepAt(b, states, steps, k - 1);
      if steps[k - 1].Pop? {
        assert Waits(states[k - 1], states[k - 1].queue[steps[k - 1].i]);
      }
      StepBalanced(b, states[k - 1], steps[k - 1]);
    }
  }

  /**
   The books balance in every run, and the deliveries of a run cannot exceed the bounds of the traces
   it accepted: with finitely many submissions, retrying comes to an end.
   */
  lemma {:induction false} RetryingEnds(b: Backend, threads: nat, states: seq<Proto>, steps: seq<Step>, k: nat)
    requires IsRun(b, threads, states, steps) && k < |states|
    ensures states[k].totalEnqueued == states[k].totalDequeued + |states[k].queue|
    ensures states[k].totalDequeued <= Total(Bounds(states[k].accepted))
  {
    BalancedRun(b, threads, states, steps, k);
    BooksKept(b, threads, states, steps, k);
    var s := states[k];
    forall id ensures id in s.pops <==> id in s.accepted {
      assert BoundOk(s, id) && PopsAccepted(s, id);
    }
    assert s.pops.Keys == Bounds(s.accepted).Keys;
    forall id | id in s.pops ensures s.pops[id] <= Bounds(s.accepted)[id] {
      assert BoundOk(s, id);
    }
    TotalMonotone(s.pops, Bounds(s.accepted));
  }

  // ---------------------------------------------------------------------------
  // What a shutdown leaves behind
  // ---------------------------------------------------------------------------

  /** No trace is being worked on, or on its way to a worker. */
  ghost predicate Settled(s: Proto) {
    s.inFlight == map[] && !SomeoneHolds(s)
  }

  ghost predicate SomeoneAsks(s: Proto) {
    exists t {:trigger s.threads[t]} :: 0 <= t < |s.threads| && Asks(s.threads[t])
  }

  /** The thread is about to push, and the push is allowed. */
  predicate Brings(s: Proto, p: Pc) {
    p.Retrying? || IsNew(s, p)
  }

  ghost predicate SomeoneBrings(s: Proto) {
    exists t {:trigger s.threads[t]} :: 0 <= t < |s.threads| && Brings(s, s.threads[t])
  }

  /** A dequeue past its check can still find a request: one queued, or one on its way to a queue with room. */
  ghost predicate MayFind(b: Backend, s: Proto) {
    SomeoneAsks(s) && (s.queue != [] || (!Full(b, s) && SomeoneBrings(s)))
  }

  ghost predicate Calm(b: Backend, s: Proto) {
    s.shuttingDown && Settled(s) && !MayFind(b, s)
  }

  /** Nobody starts to hold, ask or bring without the step that makes it so. */
  lemma ThreadsMove(b: Backend, s: Proto, step: Step)
    requires Enabled(b, s, step) && s.shuttingDown
    ensures SomeoneAsks(Apply(b, s, step)) ==> SomeoneAsks(s)
    ensures SomeoneHolds(Apply(b, s, step)) ==> SomeoneHolds(s) || step.Pop?
    ensures SomeoneBrings(Apply(b, s, step)) ==> SomeoneBrings(s) || (step.NackTake? && step.id in s.inFlight)
  {
    var s' := Apply(b, s, step);
    forall t | 0 <= t < |s'.threads|
      ensures Asks(s'.threads[t]) ==> SomeoneAsks(s)
      ensures s'.threads[t].Holding? ==> SomeoneHolds(s) || step.Pop?
      ensures Brings(s', s'.threads[t]) ==> SomeoneBrings(s) || (step.NackTake? && step.id in s.inFlight)
    {
      assert s.threads[t] == s.threads[t];
    }
  }

  lemma StaysCalm(b: Backend, s: Proto, step: Step)
    requires Calm(b, s) && Enabled(b, s, step)
    ensures Calm(b, Apply(b, s, step)) && s.queue <= Apply(b, s, step).queue
  {
    ThreadsMove(b, s, step);
    if step.Pop? || step.PushNew? || step.NackPush? {
      assert step.Pop? ==> SomeoneAsks(s);
      assert !step.Pop? ==> SomeoneBrings(s);
    }
  }

  lemma {:induction false} CalmForever(b: Backend, s: Proto, states: seq<Proto>, steps: seq<Step>, k: nat)
    requires Follows(b, s, states, steps) && k < |states| && Calm(b, s)
    ensures Calm(b, states[k])
    decreases k
  {
    if k > 0 {
      CalmForever(b, s, states, steps, k - 1);
      assert StepAt(b, states, steps, k - 1);
      StaysCalm(b, states[k - 1], steps[k - 1]);
    }
  }

  /** The run goes on with one more step. */
  lemma Extend(b: Backend, first: Proto, states: seq<Proto>, steps: seq<Step>, step: Step)
      returns (states': seq<Proto>, steps': seq<Step>)
    requires Follows(b, first, states, steps) && Enabled(b, states[|steps|], step)
    ensures steps' == steps + [step] && states' == states + [Apply(b, states[|steps|], step)]
    ensures Follows(b, first, states', steps')
  {
    states', steps' := states + [Apply(b, states[|steps|], step)], steps + [step];
    forall k | 0 <= k < |steps'| ensures StepAt(b, states', steps', k) {
      if k < |steps| {
        assert StepAt(b, states, steps, k);
      }
    }
  }

  /** Something in a non-empty queue may always be taken. */
  lemma SomethingToTake(b: Backend, queue: seq<Request>) returns (i: nat)
    requires queue != []
    ensures MayTake(b, queue, i)
  {
    i := 0;
    if b.MemoryBackend? && b.config.priorityQueue {
      i := FirstExists(queue);
    }
  }

  /** Whoever asks can be handed something from a queue that is not empty. */
  lemma HandOut(b: Backend, first: Proto, before: seq<Proto>, made: seq<Step>)
      returns (states: seq<Proto>, steps: seq<Step>)
    requires Follows(b, first, before, made) && !QueueLocked(b, before[|made|])
    requires before[|made|].queue != [] && SomeoneAsks(before[|made|])
    ensures Follows(b, first, states, steps) && SomeoneHolds(states[|steps|])
    ensures states[|steps|].totalDequeued == before[|made|].totalDequeued + 1
  {
    var s := before[|made|];
    var t :| 0 <= t < |s.threads| && Asks(s.threads[t]);
    var i := SomethingToTake(b, s.queue);
    states, steps := Extend(b, first, before, made, Pop(t, i));
    assert states[|steps|].threads[t].Holding?;
  }

  /** What somebody brings can be handed to somebody who asks. */
  lemma BringAndHandOut(b: Backend, s: Proto) returns (states: seq<Proto>, steps: seq<Step>)
    requires Settled(s) && MayFind(b, s)
    ensures Follows(b, s, states, steps) && SomeoneHolds(states[|steps|])
  {
    states, steps := [s], [];
    if s.queue == [] {
      var t :| 0 <= t < |s.threads| && Brings(s, s.threads[t]);
      var u :| 0 <= u < |s.threads| && Asks(s.threads[u]);
      var push := if s.threads[t].Retrying? then NackPush(t) else PushNew(t);
      Unlocked(b, s, s.threads[t := Idle]);
      states, steps := Extend(b, s, states, steps, push);
      assert Asks(states[|steps|].threads[u]);
      assert states[|steps|].queue != [];
      assert states[|steps|].threads == s.threads[t := Idle];
    }
    states, steps := HandOut(b, s, states, steps);
  }

  /**
   Whatever the threads do after a shutdown, no trace is worked on or on its way to a worker any more, if
   and only if at the shutdown none was and no dequeue that is past its check can still find one.
   */
  lemma NoneLeftBehindIff(b: Backend, s: Proto)
    ensures (forall states, steps :: Follows(b, Apply(b, s, ShutdownStep), states, steps) ==>
                                       Settled(states[|steps|]))
            <==> Settled(s) && !MayFind(b, s)
  {
    var closed := Apply(b, s, ShutdownStep);
    assert Settled(closed) <==> Settled(s);
    assert MayFind(b, closed) <==> MayFind(b, s);
    if Settled(s) && !MayFind(b, s) {
      forall states, steps | Follows(b, closed, states, steps) ensures Settled(states[|steps|]) {
        CalmForever(b, closed, states, steps, |steps|);
      }
    } else if Settled(s) {
      var states, steps := BringAndHandOut(b, closed);
    } else {
      assert Follows(b, closed, [closed], []);
    }
  }

  /** Threads inside a dequeue, past its check. */
  ghost function Asking(threads: seq<Pc>): nat {
    if threads == [] then 0 else Asking(threads[..|threads| - 1]) + One(Asks(threads[|threads| - 1]))
  }

  lemma {:induction false} AskingUpdate(threads: seq<Pc>, t: nat, p: Pc)
    requires t < |threads|
    ensures Asking(threads[t := p]) + One(Asks(threads[t])) == Asking(threads) + One(Asks(p))
  {
    var last := |threads| - 1;
    if t == last {
      assert threads[t := p][..last] == threads[..last];
    } else {
      AskingUpdate(threads[..last], t, p);
      assert threads[t := p][..last] == threads[..last][t := p];
    }
  }

  lemma {:induction false} AskingIff(threads: seq<Pc>)
    ensures Asking(threads) == 0 <==> forall t :: 0 <= t < |threads| ==> !Asks(threads[t])
  {
    if threads != [] {
      AskingIff(threads[..|threads| - 1]);
    }
  }

  lemma PopUsesUp(b: Backend, s: Proto, step: Step)
    requires Enabled(b, s, step) && s.shuttingDown
    ensures Apply(b, s, step).totalDequeued + Asking(Apply(b, s, step).threads)
         <= s.totalDequeued + Asking(s.threads)
    ensures Apply(b, s, step).totalDequeued >= s.totalDequeued
    ensures step.Pop? || s.queue <= Apply(b, s, step).queue
  {
    if !step.AckStep? && !step.ShutdownStep? {
      AskingUpdate(s.threads, step.t, Apply(b, s, step).threads[step.t]);
    }
  }

  /**
   After a shutdown there are at most as many deliveries as dequeues were past their check at that moment.
   If there was none, what is queued stays, and what is put back later stays behind it.
   */
  lemma {:induction false} DeliveriesAfterShutdown(
      b: Backend, s: Proto, states: seq<Proto>, steps: seq<Step>, k: nat)
    requires Follows(b, Apply(b, s, ShutdownStep), states, steps) && k < |states|
    ensures states[k].shuttingDown && s.totalDequeued <= states[k].totalDequeued
    ensures states[k].totalDequeued + Asking(states[k].threads) <= s.totalDequeued + Asking(s.threads)
    ensures Asking(s.threads) == 0 ==> s.queue <= states[k].queue
    decreases k
  {
    if k > 0 {
      DeliveriesAfterShutdown(b, s, states, steps, k - 1);
      assert StepAt(b, states, steps, k - 1);
      PopUsesUp(b, states[k - 1], steps[k - 1]);
      AskingIff(states[k - 1].threads);
    }
  }

  /** In the Raft backend, whoever holds a trace is the only one. */
  ghost predicate OneHolder(b: Backend, s: Proto) {
    b.RaftBackend? ==> forall t, u :: 0 <= t < u < |s.threads| ==> !(s.threads[t].Holding? && s.threads[u].Holding?)
  }

  lemma {:induction false} HolderIsAlone(
      b: Backend, threads: nat, states: seq<Proto>, steps: seq<Step>, k: nat)
    requires IsRun(b, threads, states, steps) && k < |states|
    ensures OneHolder(b, states[k])
    decreases k
  {
    if k > 0 {
      HolderIsAlone(b, threads, states, steps, k - 1);
      assert StepAt(b, states, steps, k - 1);
    }
  }

  /** Nothing is handed out, and nothing queued disappears. */
  ghost predicate Stranded(s: Proto, s': Proto) {
    s'.totalDequeued == s.totalDequeued && s.queue <= s'.queue
  }

  /**
   A queue that is not empty at a shutdown is never handed out from again, in any continuation of any run,
   if and only if no dequeue was past its check at that moment.
   */
  lemma QueueIsStrandedIff(b: Backend, threads: nat, before: seq<Proto>, made: seq<Step>)
    requires IsRun(b, threads, before, made) && before[|made|].queue != []
    ensures
      var s := before[|made|];
      (forall states, steps :: Follows(b, Apply(b, s, ShutdownStep), states, steps) ==> Stranded(s, states[|steps|]))
      <==> !SomeoneAsks(s)
  {
    var s := before[|made|];
    var closed := Apply(b, s, ShutdownStep);
    AskingIff(s.threads);
    if SomeoneAsks(s) {
      HolderIsAlone(b, threads, before, made, |made|);
      var states, steps := LetInsert(b, closed);
      states, steps := HandOut(b, closed, states, steps);
      assert !Stranded(s, states[|steps|]);
    } else {
      forall states, steps | Follows(b, closed, states, steps) ensures Stranded(s, states[|steps|]) {
        DeliveriesAfterShutdown(b, s, states, steps, |steps|);
      }
    }
  }

  /** If the queue is locked, putting the trace that was popped in flight unlocks it. */
  lemma LetInsert(b: Backend, s: Proto) returns (states: seq<Proto>, steps: seq<Step>)
    requires OneHolder(b, s) && SomeoneAsks(s)
    ensures Follows(b, s, states, steps)
    ensures states[|steps|].queue == s.queue && states[|steps|].totalDequeued == s.totalDequeued
    ensures SomeoneAsks(states[|steps|]) && !QueueLocked(b, states[|steps|])
  {
    states, steps := [s], [];
    if QueueLocked(b, s) {
      var t :| 0 <= t < |s.threads| && s.threads[t].Holding?;
      var u :| 0 <= u < |s.threads| && Asks(s.threads[u]);
      states, steps := Extend(b, s, states, steps, Insert(t));
      assert Asks(states[|steps|].threads[u]);
    }
  }

  /** One trace is queued, and a dequeue is past its check. */
  lemma QueuedAndAsked(b: Backend) returns (states: seq<Proto>, steps: seq<Step>)
    requires b.MemoryBackend? ==> b.config.maxQueueSize > 0
    ensures IsRun(b, 2, states, steps) && |steps| == 3
    ensures states[3] == Start(2).(queue := [Sample(1)], threads := [Idle, Polling], totalEnqueued := 1,
                                   accepted := map[1 := Sample(1)], pops := map[1 := 0])
  {
    states, steps := [Start(2)], [];
    assert Start(2).threads == [Idle, Idle];
    states, steps := Extend(b, Start(2), states, steps, CheckAdmit(0, Sample(1)));
    assert states[1].threads == [Admitting(Sample(1)), Idle] && !SomeoneHolds(states[1]);
    states, steps := Extend(b, Start(2), states, steps, PushNew(0));
    states, steps := Extend(b, Start(2), states, steps, CheckPoll(1));
    assert states[3].threads == [Idle, Polling];
  }

  /** A dequeue past its check takes the one trace there is and puts it in flight. */
  lemma TakesIt(b: Backend, first: Proto, before: seq<Proto>, made: seq<Step>)
      returns (states: seq<Proto>, steps: seq<Step>)
    requires Follows(b, first, before, made)
    requires before[|made|].queue == [Sample(1)] && before[|made|].threads == [Idle, Polling]
    ensures Follows(b, first, states, steps) && |steps| == |made| + 2
    ensures before <= states && made <= steps && 1 in states[|steps|].inFlight
  {
    var s := before[|made|];
    var i := SomethingToTake(b, [Sample(1)]);
    var pop := Pop(1, i);
    assert Enabled(b, s, pop) && !SomeoneHolds(s);
    states, steps := Extend(b, first, before, made, pop);
    var held := states[|steps|];
    assert held == Apply(b, s, pop) && held.threads == [Idle, Holding(Sample(1).IncrementAttempt())];
    states, steps := Extend(b, first, states, steps, Insert(1));
  }

  /**
   A run in which a trace is in flight after a shutdown that found none: the dequeue has looked at the flag
   before the shutdown, and pops after it.
   */
  lemma HandedOutAfterShutdown(b: Backend)
    requires b.MemoryBackend? ==> b.config.maxQueueSize > 0
    ensures exists states: seq<Proto>, steps: seq<Step> ::
              && IsRun(b, 2, states, steps) && |steps| == 6 && steps[3] == ShutdownStep
              && states[3].inFlight == states[4].inFlight == map[] && 1 in states[6].inFlight
  {
    var before, made := QueuedAndAsked(b);
    var closed, shut := Extend(b, Start(2), before, made, ShutdownStep);
    var states, steps := TakesIt(b, Start(2), closed, shut);
    assert states[3] == closed[3] == before[3] && states[4] == closed[4] && steps[3] == shut[3];
    assert IsRun(b, 2, states, steps);
  }

  // ---------------------------------------------------------------------------
  // An operation alone is its lock steps in a row
  // ---------------------------------------------------------------------------

  /** What the memory backend object holds. */
  function View(s: Proto): Memory {
    Memory(s.queue, s.inFlight, s.shuttingDown, s.totalEnqueued, s.totalDequeued)
  }

  /** What the Raft backend object holds. */
  function RaftView(s: Proto): Raft {
    Raft(s.queue, s.inFlight, s.shuttingDown)
  }

  /** The shared state is what a whole operation leaves of `before`. */
  ghost predicate Did(b: Backend, before: Proto, op: Op, after: Proto) {
    match b
    case MemoryBackend(c) => View(after) == FifoOp(c, View(before), op).0
    case RaftBackend => RaftView(after) == RaftOp(RaftView(before), op).0
  }

  /** Undisturbed, check and push accept or refuse a request as the enqueue methods do. */
  lemma EnqueueIsItsSteps(b: Backend, s: Proto, t: nat, r: Request)
    requires Enabled(b, s, CheckAdmit(t, r)) && r.id !in s.accepted && !QueueLocked(b, s)
    ensures
      var checked := Apply(b, s, CheckAdmit(t, r));
      Enabled(b, checked, PushNew(t)) && Did(b, s, OpEnqueue(r), Apply(b, checked, PushNew(t)))
  {
    Unlocked(b, s, s.threads[t := Admitting(r)]);
  }

  /** An acknowledgement and a shutdown are one step each. */
  lemma AckIsItsStep(b: Backend, s: Proto, id: nat)
    ensures Did(b, s, OpAck(id), Apply(b, s, AckStep(id))) && Did(b, s, OpShutdown, Apply(b, s, ShutdownStep))
  {
    if id !in s.inFlight {
      assert s.inFlight - {id} == s.inFlight;
    }
  }

  /** Undisturbed, check, pop and insert deliver a request as the dequeue methods do. */
  lemma DequeueIsItsSteps(b: Backend, s: Proto, t: nat, i: nat)
    requires Enabled(b, s, CheckPoll(t)) && MayTake(b, s.queue, i) && !QueueLocked(b, s)
    ensures
      var polling := Apply(b, s, CheckPoll(t));
      Enabled(b, polling, Pop(t, i)) &&
      var holding := Apply(b, polling, Pop(t, i));
      && Enabled(b, holding, Insert(t))
      && View(Apply(b, holding, Insert(t))) == Delivered(View(s), i)
      && (b.RaftBackend? ==> RaftView(Apply(b, holding, Insert(t))) == RaftOp(RaftView(s), OpDequeue).0)
  {
    Unlocked(b, s, s.threads[t := Polling]);
    if b.RaftBackend? {
      assert Without(s.queue, 0) == s.queue[1..];
    }
  }

  /** Who does not hold a trace keeps no queue locked. */
  lemma Unlocked(b: Backend, s: Proto, threads: seq<Pc>)
    requires !QueueLocked(b, s) && |threads| == |s.threads|
    requires forall t :: 0 <= t < |threads| && threads[t].Holding? ==> s.threads[t].Holding?
    ensures !QueueLocked(b, s.(threads := threads))
  {
  }

  /** Undisturbed, take and push retry or fail a trace as the nack methods do. */
  lemma NackIsItsSteps(b: Backend, s: Proto, t: nat, id: nat, retry: bool)
    requires Enabled(b, s, NackTake(t, id, retry)) && !QueueLocked(b, s)
    ensures
      var taken := Apply(b, s, NackTake(t, id, retry));
      var wants := WantsRetry(s.inFlight, id, retry);
      && (wants ==> Enabled(b, taken, NackPush(t)))
      && Did(b, s, OpNack(id, retry), if wants then Apply(b, taken, NackPush(t)) else taken)
  {
    if WantsRetry(s.inFlight, id, retry) {
      Unlocked(b, s, s.threads[t := Retrying(s.inFlight[id])]);
    }
    if id !in s.inFlight {
      assert s.inFlight - {id} == s.inFlight;
    }
  }
}
