/**
 The two in-process dispatch backends: the bounded memory queue, first-in
 first-out or by priority, and the local mode of the Raft backend. The lemmas
 say on exactly which sequences of operations the two differ.
 */
module Dispatch {
  import opened Prelude

  datatype Request = Request(
    id: nat, pipeline: nat, payload: seq<byte>, createdAt: nat, priority: int, attempt: nat, maxAttempts: nat)
  {
    predicate IsExhausted() {
      attempt >= maxAttempts
    }

    function IncrementAttempt(): Request {
      this.(attempt := attempt + 1)
    }
  }

  datatype MemoryConfig = MemoryConfig(maxQueueSize: nat, priorityQueue: bool)

  datatype DispatchError = ShuttingDown | QueueFull(current: nat, max: nat)

  // ---------------------------------------------------------------------------
  // Order of delivery
  // ---------------------------------------------------------------------------

  /** Higher priority first, then the older request. */
  predicate Precedes(a: Request, b: Request) {
    a.priority > b.priority || (a.priority == b.priority && a.createdAt < b.createdAt)
  }

  /** No request in the queue precedes the one at `i`. */
  predicate IsFirst(queue: seq<Request>, i: nat)
    requires i < |queue|
  {
    forall j :: 0 <= j < |queue| ==> !Precedes(queue[j], queue[i])
  }

  /** Nothing in the queue has a higher priority, or the same and an earlier time. */
  lemma FirstIsHighest(queue: seq<Request>, i: nat)
    requires i < |queue| && IsFirst(queue, i)
    ensures forall q :: q in queue ==>
              queue[i].priority > q.priority || (queue[i].priority == q.priority && queue[i].createdAt <= q.createdAt)
  {
    forall q | q in queue ensures !Precedes(q, queue[i]) {
      var j :| 0 <= j < |queue| && queue[j] == q;
    }
  }

  /** The queue may next hand out the request at `i`. */
  predicate MayPop(c: MemoryConfig, queue: seq<Request>, i: nat) {
    i < |queue| && if c.priorityQueue then IsFirst(queue, i) else i == 0
  }

  /** A non-empty queue always has something to hand out. */
  lemma {:induction false} FirstExists(queue: seq<Request>) returns (i: nat)
    requires queue != []
    ensures i < |queue| && IsFirst(queue, i)
  {
    if |queue| == 1 {
      i := 0;
    } else {
      var last := |queue| - 1;
      var k := FirstExists(queue[..last]);
      assert forall j :: 0 <= j < last ==> !Precedes(queue[..last][j], queue[k]);
      i := if Precedes(queue[last], queue[k]) then last else k;
    }
  }

  /** The queue may be handed out, one request after another, in the order of `out`. */
  ghost predicate Drains(c: MemoryConfig, queue: seq<Request>, out: seq<Request>)
    decreases |queue|, 1
  {
    if queue == [] then out == [] else exists i: nat :: DrainsFrom(c, queue, out, i)
  }

  ghost predicate DrainsFrom(c: MemoryConfig, queue: seq<Request>, out: seq<Request>, i: nat)
    decreases |queue|, 0
  {
    MayPop(c, queue, i) && out != [] && out[0] == queue[i] && Drains(c, Without(queue, i), out[1..])
  }

  lemma WithoutOne(queue: seq<Request>, i: nat)
    requires i < |queue|
    ensures multiset(queue) == multiset(Without(queue, i)) + multiset{queue[i]}
  {
    assert queue == queue[..i] + [queue[i]] + queue[i + 1..];
  }

  /** Without new requests, each request comes out once; first in first out, in the order in which they came in. */
  lemma {:induction false} DrainsAll(c: MemoryConfig, queue: seq<Request>, out: seq<Request>)
    requires Drains(c, queue, out)
    ensures multiset(out) == multiset(queue)
    ensures !c.priorityQueue ==> out == queue
    decreases |queue|
  {
    if queue != [] {
      var i: nat :| DrainsFrom(c, queue, out, i);
      DrainsAll(c, Without(queue, i), out[1..]);
      WithoutOne(queue, i);
      assert out == [out[0]] + out[1..];
    }
  }

  /** In priority mode they come out by priority, and among equals the older first. */
  lemma {:induction false} DrainSorted(c: MemoryConfig, queue: seq<Request>, out: seq<Request>, j: nat, k: nat)
    requires Drains(c, queue, out) && c.priorityQueue && j < k < |out|
    ensures out[j].priority > out[k].priority
            || (out[j].priority == out[k].priority && out[j].createdAt <= out[k].createdAt)
    decreases |queue|
  {
    var i: nat :| DrainsFrom(c, queue, out, i);
    if j > 0 {
      DrainSorted(c, Without(queue, i), out[1..], j - 1, k - 1);
    } else {
      DrainsAll(c, queue, out);
      assert out[k] in multiset(queue);
      assert !Precedes(out[k], queue[i]);
    }
  }

  function Without(queue: seq<Request>, i: nat): seq<Request>
    requires i < |queue|
  {
    queue[..i] + queue[i + 1..]
  }

  // ---------------------------------------------------------------------------
  // The memory backend
  // ---------------------------------------------------------------------------

  datatype Memory = Memory(
    queue: seq<Request>, inFlight: map<nat, Request>, shuttingDown: bool, totalEnqueued: nat, totalDequeued: nat)

  function Pushed(m: Memory, r: Request): Memory {
    m.(queue := m.queue + [r], totalEnqueued := m.totalEnqueued + 1)
  }

  /** Handing out the request at `i`: one more attempt, and in flight. */
  function Delivered(m: Memory, i: nat): Memory
    requires i < |m.queue|
  {
    var r := m.queue[i].IncrementAttempt();
    m.(queue := Without(m.queue, i), inFlight := m.inFlight[r.id := r], totalDequeued := m.totalDequeued + 1)
  }

  function Landed(m: Memory, id: nat): Memory {
    m.(inFlight := m.inFlight - {id})
  }

  /** A failed trace goes back to the queue if it may be retried and there is room. */
  function Nacked(c: MemoryConfig, m: Memory, id: nat, retry: bool): Memory {
    if WantsRetry(m.inFlight, id, retry) && |m.queue| < c.maxQueueSize then Pushed(Landed(m, id), m.inFlight[id])
    else Landed(m, id)
  }

  predicate WantsRetry(inFlight: map<nat, Request>, id: nat, retry: bool) {
    id in inFlight && retry && !inFlight[id].IsExhausted()
  }

  class MemoryDispatch {
    const config: MemoryConfig
    var queue: seq<Request>
    var inFlight: map<nat, Request>
    var shuttingDown: bool
    var totalEnqueued: nat
    var totalDequeued: nat

    ghost function State(): Memory
      reads this
    {
      Memory(queue, inFlight, shuttingDown, totalEnqueued, totalDequeued)
    }

    constructor (config: MemoryConfig)
      ensures this.config == config && State() == Memory([], map[], false, 0, 0)
    {
      this.config := config;
      queue, inFlight, shuttingDown, totalEnqueued, totalDequeued := [], map[], false, 0, 0;
    }

    method Push(request: Request) returns (r: Result<(), DispatchError>)
      modifies this
      ensures r.Ok? <==> |old(queue)| < config.maxQueueSize
      ensures r.Ok? ==> queue == old(queue) + [request] && totalEnqueued == old(totalEnqueued) + 1
      ensures inFlight == old(inFlight) && shuttingDown == old(shuttingDown) && totalDequeued == old(totalDequeued)
      ensures r.Ok? ==> State() == Pushed(old(State()), request)
      ensures r.Err? ==> State() == old(State()) && r.error == QueueFull(|queue|, config.maxQueueSize)
    {
      var len := |queue|;
      if len >= config.maxQueueSize {
        return Err(QueueFull(len, config.maxQueueSize));
      }
      queue := queue + [request];
      totalEnqueued := totalEnqueued + 1;
      return Ok(());
    }

    /** In priority mode the heap hands out some request that none precedes. */
    method Pop() returns (r: Option<Request>, ghost i: nat)
      modifies this
      ensures old(queue) == [] ==> r == None && State() == old(State())
      ensures old(queue) != [] ==> MayPop(config, old(queue), i) && r == Some(old(queue)[i])
      ensures old(queue) != [] ==>
                State() == old(State()).(queue := Without(old(queue), i), totalDequeued := old(totalDequeued) + 1)
      ensures old(queue) != [] && config.priorityQueue ==>
                forall q :: q in old(queue) ==>
                  r.value.priority > q.priority || (r.value.priority == q.priority && r.value.createdAt <= q.createdAt)
    {
      if queue == [] {
        return None, 0;
      }
      var k: nat := 0;
      if config.priorityQueue {
        ghost var first := FirstExists(queue);
        k :| k < |queue| && IsFirst(queue, k);
        FirstIsHighest(queue, k);
      }
      i := k;
      r := Some(queue[k]);
      queue := queue[..k] + queue[k + 1..];
      totalDequeued := totalDequeued + 1;
    }

    method Enqueue(request: Request) returns (r: Result<nat, DispatchError>)
      modifies this
      ensures r == if old(shuttingDown) then Err(ShuttingDown)
                   else if |old(queue)| >= config.maxQueueSize then Err(QueueFull(|old(queue)|, config.maxQueueSize))
                   else Ok(request.id)
      ensures r.Ok? ==> queue == old(queue) + [request] && totalEnqueued == old(totalEnqueued) + 1
      ensures inFlight == old(inFlight) && shuttingDown == old(shuttingDown) && totalDequeued == old(totalDequeued)
      ensures State() == if r.Ok? then Pushed(old(State()), request) else old(State())
      ensures (State(), Reply(r)) == FifoOp(config, old(State()), OpEnqueue(request))
    {
      if shuttingDown {
        return Err(ShuttingDown);
      }
      var pushed := Push(request);
      if pushed.Err? {
        return Err(pushed.error);
      }
      return Ok(request.id);
    }

    /** `notified` says whether a wait for work ended with a notification. */
    method Dequeue(notified: bool) returns (r: Option<Request>, ghost i: nat)
      modifies this
      ensures old(shuttingDown) || old(queue) == [] ==> r == None && State() == old(State())
      ensures !old(shuttingDown) && old(queue) != [] ==>
                MayPop(config, old(queue), i) && State() == Delivered(old(State()), i)
                && r == Some(old(queue)[i].IncrementAttempt())
      ensures r.Some? ==>
                && MayPop(config, old(queue), i) && queue == old(queue)[..i] + old(queue)[i + 1..]
                && r.value == old(queue)[i].(attempt := old(queue)[i].attempt + 1)
                && inFlight == old(inFlight)[r.value.id := r.value] && totalDequeued == old(totalDequeued) + 1
      ensures r.Some? && config.priorityQueue ==>
                forall q :: q in old(queue) ==>
                  r.value.priority > q.priority || (r.value.priority == q.priority && r.value.createdAt <= q.createdAt)
      ensures shuttingDown == old(shuttingDown) && totalEnqueued == old(totalEnqueued)
      ensures !config.priorityQueue ==> (State(), AnswerWork(r)) == FifoOp(config, old(State()), OpDequeue)
    {
      if shuttingDown {
        return None, 0;
      }
      var request;
      request, i := Pop();
      if request.None? && notified {
        request, i := Pop();
      }
      if request.None? {
        return None, 0;
      }
      r := Some(request.value.IncrementAttempt());
      inFlight := inFlight[r.value.id := r.value];
    }

    method Ack(id: nat)
      modifies this
      ensures inFlight == old(inFlight) - {id} && queue == old(queue) && shuttingDown == old(shuttingDown)
      ensures (State(), AnswerDone) == FifoOp(config, old(State()), OpAck(id))
    {
      inFlight := inFlight - {id};
    }

    method Nack(id: nat, retry: bool)
      modifies this
      ensures inFlight == old(inFlight) - {id} && shuttingDown == old(shuttingDown)
      ensures queue == if id in old(inFlight) && retry && old(inFlight)[id].attempt < old(inFlight)[id].maxAttempts
                          && |old(queue)| < config.maxQueueSize
                       then old(queue) + [old(inFlight)[id]] else old(queue)
      ensures (State(), AnswerDone) == FifoOp(config, old(State()), OpNack(id, retry))
    {
      if id in inFlight {
        var request := inFlight[id];
        inFlight := inFlight - {id};
        if retry && !request.IsExhausted() {
          var ignored := Push(request);
        }
      } else {
        assert inFlight - {id} == inFlight;
      }
    }

    method Shutdown()
      modifies this
      ensures shuttingDown && queue == old(queue) && inFlight == old(inFlight)
      ensures (State(), AnswerDone) == FifoOp(config, old(State()), OpShutdown)
    {
      shuttingDown := true;
    }

    /** In priority mode the heap is listed in whatever order it holds its elements. */
    method GetPendingByPipeline(pipeline: nat) returns (r: seq<nat>)
      ensures forall id :: id in r <==> HasQueued(queue, id, pipeline)
      ensures !config.priorityQueue ==> r == PendingIds(queue, pipeline)
      ensures multiset(r) == multiset(PendingIds(queue, pipeline))
      ensures (State(), AnswerIds(multiset(r))) == FifoOp(config, State(), OpPending(pipeline))
    {
      PendingIff(queue, pipeline);
      if config.priorityQueue {
        r := ListInAnyOrder(queue, pipeline);
      } else {
        r := ListInOrder(queue, pipeline);
      }
      assert forall id :: id in r <==> id in multiset(r);
      assert forall id :: id in PendingIds(queue, pipeline) <==> id in multiset(PendingIds(queue, pipeline));
    }
  }

  method ListInOrder(queue: seq<Request>, pipeline: nat) returns (r: seq<nat>)
    ensures r == PendingIds(queue, pipeline)
  {
    r := [];
    for k := 0 to |queue|
      invariant r == PendingIds(queue[..k], pipeline)
    {
      assert queue[..k + 1][..k] == queue[..k];
      if queue[k].pipeline == pipeline {
        r := r + [queue[k].id];
      }
    }
    assert queue[..|queue|] == queue;
  }

  method ListInAnyOrder(queue: seq<Request>, pipeline: nat) returns (r: seq<nat>)
    ensures multiset(r) == multiset(PendingIds(queue, pipeline))
  {
    r := [];
    var left := queue;
    while left != []
      invariant multiset(r) + multiset(PendingIds(left, pipeline)) == multiset(PendingIds(queue, pipeline))
      decreases |left|
    {
      var k :| 0 <= k < |left|;
      PendingWithout(left, k, pipeline);
      r := r + Listed(left[k], pipeline);
      left := left[..k] + left[k + 1..];
    }
  }

  /** A request's line in the listing of a pipeline, if it has one. */
  function Listed(r: Request, pipeline: nat): seq<nat> {
    if r.pipeline == pipeline then [r.id] else []
  }

  /** The ids of a pipeline's queued traces, in queue order. */
  function PendingIds(queue: seq<Request>, pipeline: nat): seq<nat> {
    if queue == [] then []
    else PendingIds(queue[..|queue| - 1], pipeline) + Listed(queue[|queue| - 1], pipeline)
  }

  /** A queued request of the pipeline has this id. */
  ghost predicate HasQueued(queue: seq<Request>, id: nat, pipeline: nat) {
    exists i :: 0 <= i < |queue| && queue[i].id == id && queue[i].pipeline == pipeline
  }

  lemma {:induction false} PendingIff(queue: seq<Request>, pipeline: nat)
    ensures forall id :: id in PendingIds(queue, pipeline) <==> HasQueued(queue, id, pipeline)
  {
    if queue != [] {
      var front, last := queue[..|queue| - 1], queue[|queue| - 1];
      PendingIff(front, pipeline);
      forall id ensures HasQueued(queue, id, pipeline)
                        <==> HasQueued(front, id, pipeline) || (last.id == id && last.pipeline == pipeline) {
        if HasQueued(front, id, pipeline) {
          var i :| 0 <= i < |front| && front[i].id == id && front[i].pipeline == pipeline;
          assert queue[i] == front[i];
        }
      }
    }
  }

  lemma LastListed(queue: seq<Request>, r: Request, pipeline: nat)
    ensures PendingIds(queue + [r], pipeline) == PendingIds(queue, pipeline) + Listed(r, pipeline)
  {
    assert (queue + [r])[..|queue|] == queue;
  }

  lemma {:induction false} ListedApart(a: seq<Request>, b: seq<Request>, pipeline: nat)
    ensures PendingIds(a + b, pipeline) == PendingIds(a, pipeline) + PendingIds(b, pipeline)
  {
    if b == [] {
      assert a + b == a;
    } else {
      hide PendingIds, Listed;
      var front, last := b[..|b| - 1], b[|b| - 1];
      ListedApart(a, front, pipeline);
      LastListed(a + front, last, pipeline);
      LastListed(front, last, pipeline);
      assert b == front + [last];
      Regrouped(a, front, [last]);
      Regrouped(PendingIds(a, pipeline), PendingIds(front, pipeline), Listed(last, pipeline));
    }
  }

  lemma Regrouped<T>(a: seq<T>, b: seq<T>, c: seq<T>)
    ensures a + (b + c) == a + b + c
  {
  }

  /** Taking one request out of the queue takes its id, and no other, out of its pipeline's listing. */
  lemma PendingWithout(queue: seq<Request>, k: nat, pipeline: nat)
    requires k < |queue|
    ensures multiset(PendingIds(queue, pipeline))
         == multiset(PendingIds(Without(queue, k), pipeline)) + multiset(Listed(queue[k], pipeline))
  {
    hide PendingIds, Listed;
    ListedApart(queue[..k] + [queue[k]], queue[k + 1..], pipeline);
    LastListed(queue[..k], queue[k], pipeline);
    ListedApart(queue[..k], queue[k + 1..], pipeline);
    assert queue == queue[..k] + [queue[k]] + queue[k + 1..];
  }

  /** The ids of a pipeline's traces in flight. */
  function RunningIds(inFlight: map<nat, Request>, pipeline: nat): set<nat> {
    set id | id in inFlight && inFlight[id].pipeline == pipeline
  }

  /** A queued or running trace with this id exists. */
  ghost predicate Known(m: Memory, id: nat) {
    id in m.inFlight || exists i :: 0 <= i < |m.queue| && m.queue[i].id == id
  }

  /**
   A nack loses a trace that was to be retried, silently, if and only if the queue is full at that
   moment.
   */
  lemma RetryLostIff(c: MemoryConfig, m: Memory, id: nat)
    requires id in m.inFlight && m.inFlight[id].id == id && !m.inFlight[id].IsExhausted()
    requires forall i :: 0 <= i < |m.queue| ==> m.queue[i].id != id
    ensures !Known(Nacked(c, m, id, true), id) <==> |m.queue| >= c.maxQueueSize
  {
    var after := Nacked(c, m, id, true);
    if |m.queue| < c.maxQueueSize {
      assert after.queue[|m.queue|].id == id;
    }
  }

  // ---------------------------------------------------------------------------
  // The Raft backend without a cluster
  // ---------------------------------------------------------------------------

  datatype Raft = Raft(pending: seq<Request>, inFlight: map<nat, Request>, shuttingDown: bool)

  class RaftDispatch {
    var pending: seq<Request>
    var inFlight: map<nat, Request>
    var shuttingDown: bool

    ghost function State(): Raft
      reads this
    {
      Raft(pending, inFlight, shuttingDown)
    }

    constructor ()
      ensures State() == Raft([], map[], false)
    {
      pending, inFlight, shuttingDown := [], map[], false;
    }

    method Enqueue(request: Request) returns (r: Result<nat, DispatchError>)
      modifies this
      ensures r == if old(shuttingDown) then Err(ShuttingDown) else Ok(request.id)
      ensures pending == if old(shuttingDown) then old(pending) else old(pending) + [request]
      ensures inFlight == old(inFlight) && shuttingDown == old(shuttingDown)
      ensures (State(), Reply(r)) == RaftOp(old(State()), OpEnqueue(request))
    {
      if shuttingDown {
        return Err(ShuttingDown);
      }
      pending := pending + [request];
      return Ok(request.id);
    }

    method Dequeue() returns (r: Option<Request>)
      modifies this
      ensures r.Some? <==> !old(shuttingDown) && old(pending) != []
      ensures r.Some? ==>
                && r.value == old(pending)[0].(attempt := old(pending)[0].attempt + 1) && pending == old(pending)[1..]
                && inFlight == old(inFlight)[r.value.id := r.value]
      ensures r.None? ==> pending == old(pending) && inFlight == old(inFlight)
      ensures shuttingDown == old(shuttingDown)
      ensures (State(), AnswerWork(r)) == RaftOp(old(State()), OpDequeue)
    {
      if shuttingDown {
        return None;
      }
      if pending == [] {
        return None;
      }
      var request := pending[0].IncrementAttempt();
      pending := pending[1..];
      inFlight := inFlight[request.id := request];
      return Some(request);
    }

    method Ack(id: nat)
      modifies this
      ensures inFlight == old(inFlight) - {id} && pending == old(pending) && shuttingDown == old(shuttingDown)
      ensures (State(), AnswerDone) == RaftOp(old(State()), OpAck(id))
    {
      inFlight := inFlight - {id};
    }

    method Nack(id: nat, retry: bool)
      modifies this
      ensures inFlight == old(inFlight) - {id} && shuttingDown == old(shuttingDown)
      ensures pending == if id in old(inFlight) && retry && old(inFlight)[id].attempt < old(inFlight)[id].maxAttempts
                         then old(pending) + [old(inFlight)[id]] else old(pending)
      ensures (State(), AnswerDone) == RaftOp(old(State()), OpNack(id, retry))
    {
      if id in inFlight {
        var request := inFlight[id];
        inFlight := inFlight - {id};
        if retry && !request.IsExhausted() {
          pending := pending + [request];
        }
      } else {
        assert inFlight - {id} == inFlight;
      }
    }

    method Shutdown()
      modifies this
      ensures shuttingDown && pending == old(pending) && inFlight == old(inFlight)
      ensures (State(), AnswerDone) == RaftOp(old(State()), OpShutdown)
    {
      shuttingDown := true;
    }

    /** Unlike the memory backend, this one also lists the pipeline's traces in flight, each once. */
    method GetPendingByPipeline(pipeline: nat) returns (r: seq<nat>)
      ensures PendingIds(pending, pipeline) <= r
      ensures multiset(r[|PendingIds(pending, pipeline)|..]) == multiset(RunningIds(inFlight, pipeline))
      ensures (State(), AnswerIds(multiset(r))) == RaftOp(State(), OpPending(pipeline))
    {
      var queued := ListInOrder(pending, pipeline);
      var running := ListRunning(inFlight, pipeline);
      r := queued + running;
      assert r[|queued|..] == running;
    }
  }

  method ListRunning(inFlight: map<nat, Request>, pipeline: nat) returns (running: seq<nat>)
    ensures multiset(running) == multiset(RunningIds(inFlight, pipeline))
  {
    running := [];
    var left := inFlight.Keys;
    while left != {}
      invariant left <= inFlight.Keys
      invariant multiset(running) == multiset(RunningIds(inFlight, pipeline) - left)
      decreases left
    {
      var id :| id in left;
      ghost var done := RunningIds(inFlight, pipeline) - left;
      left := left - {id};
      if inFlight[id].pipeline == pipeline {
        running := running + [id];
        assert RunningIds(inFlight, pipeline) - left == done + {id};
      } else {
        assert RunningIds(inFlight, pipeline) - left == done;
      }
    }
    assert RunningIds(inFlight, pipeline) - left == RunningIds(inFlight, pipeline);
  }

  // ---------------------------------------------------------------------------
  // The two backends side by side
  // ---------------------------------------------------------------------------

  datatype Op =
    | OpEnqueue(request: Request)
    | OpDequeue
    | OpAck(id: nat)
    | OpNack(id: nat, retry: bool)
    | OpShutdown
    | OpPending(pipeline: nat)

  datatype Answer =
    | AnswerAccepted(id: nat)
    | AnswerRefused(error: DispatchError)
    | AnswerWork(work: Option<Request>)
    | AnswerIds(ids: multiset<nat>)
    | AnswerDone

  function Reply(r: Result<nat, DispatchError>): Answer {
    match r
    case Ok(id) => AnswerAccepted(id)
    case Err(e) => AnswerRefused(e)
  }

  function RaftOp(s: Raft, op: Op): (Raft, Answer) {
    match op
    case OpEnqueue(r) =>
      if s.shuttingDown then (s, AnswerRefused(ShuttingDown))
      else (s.(pending := s.pending + [r]), AnswerAccepted(r.id))
    case OpDequeue =>
      if s.shuttingDown || s.pending == [] then (s, AnswerWork(None))
      else
        var r := s.pending[0].IncrementAttempt();
        (s.(pending := s.pending[1..], inFlight := s.inFlight[r.id := r]), AnswerWork(Some(r)))
    case OpAck(id) => (s.(inFlight := s.inFlight - {id}), AnswerDone)
    case OpNack(id, retry) =>
      var landed := s.(inFlight := s.inFlight - {id});
      (if WantsRetry(s.inFlight, id, retry) then landed.(pending := s.pending + [s.inFlight[id]]) else landed,
       AnswerDone)
    case OpShutdown => (s.(shuttingDown := true), AnswerDone)
    case OpPending(pipeline) =>
      (s, AnswerIds(multiset(PendingIds(s.pending, pipeline)) + multiset(RunningIds(s.inFlight, pipeline))))
  }

  /** One operation of the memory backend in first-in first-out mode, as its methods promise it. */
  function FifoOp(c: MemoryConfig, m: Memory, op: Op): (Memory, Answer) {
    match op
    case OpEnqueue(r) =>
      if m.shuttingDown then (m, AnswerRefused(ShuttingDown))
      else if |m.queue| >= c.maxQueueSize then (m, AnswerRefused(QueueFull(|m.queue|, c.maxQueueSize)))
      else (Pushed(m, r), AnswerAccepted(r.id))
    case OpDequeue =>
      if m.shuttingDown || m.queue == [] then (m, AnswerWork(None))
      else (Delivered(m, 0), AnswerWork(Some(m.queue[0].IncrementAttempt())))
    case OpAck(id) => (Landed(m, id), AnswerDone)
    case OpNack(id, retry) => (Nacked(c, m, id, retry), AnswerDone)
    case OpShutdown => (m.(shuttingDown := true), AnswerDone)
    case OpPending(pipeline) => (m, AnswerIds(multiset(PendingIds(m.queue, pipeline))))
  }

  function FifoRun(c: MemoryConfig, ops: seq<Op>): (Memory, seq<Answer>) {
    if ops == [] then (Memory([], map[], false, 0, 0), [])
    else
      var (m, answers) := FifoRun(c, ops[..|ops| - 1]);
      var (m', answer) := FifoOp(c, m, ops[|ops| - 1]);
      (m', answers + [answer])
  }

  function RaftRun(ops: seq<Op>): (Raft, seq<Answer>) {
    if ops == [] then (Raft([], map[], false), [])
    else
      var (s, answers) := RaftRun(ops[..|ops| - 1]);
      var (s', answer) := RaftOp(s, ops[|ops| - 1]);
      (s', answers + [answer])
  }

  /** The operation has a request to push and finds the queue full. */
  predicate MeetsFullQueue(c: MemoryConfig, m: Memory, op: Op) {
    |m.queue| >= c.maxQueueSize && match op
                                   case OpEnqueue(_) => !m.shuttingDown
                                   case OpNack(id, retry) => WantsRetry(m.inFlight, id, retry)
                                   case _ => false
  }

  /** The operation lists a pipeline that has a trace in flight. */
  predicate ListsRunning(m: Memory, op: Op) {
    op.OpPending? && RunningIds(m.inFlight, op.pipeline) != {}
  }

  /** No operation of the run meets a full queue or lists a pipeline that has a trace in flight. */
  ghost predicate NeverApart(c: MemoryConfig, ops: seq<Op>) {
    ops == [] ||
    (var front, last := ops[..|ops| - 1], ops[|ops| - 1];
     var m := FifoRun(c, front).0;
     NeverApart(c, front) && !MeetsFullQueue(c, m, last) && !ListsRunning(m, last))
  }

  /** Same queue, same traces in flight, same mode. */
  ghost predicate SameState(m: Memory, s: Raft) {
    m.queue == s.pending && m.inFlight == s.inFlight && m.shuttingDown == s.shuttingDown
  }

  /** From the same state, the two listings hold the same ids if and only if no trace of the pipeline is in flight. */
  lemma ListingsAgreeIff(c: MemoryConfig, m: Memory, s: Raft, pipeline: nat)
    requires SameState(m, s)
    ensures FifoOp(c, m, OpPending(pipeline)).1 == RaftOp(s, OpPending(pipeline)).1
            <==> RunningIds(m.inFlight, pipeline) == {}
  {
    var running := RunningIds(m.inFlight, pipeline);
    var queued := multiset(PendingIds(m.queue, pipeline));
    if running != {} {
      var id :| id in running;
      assert (queued + multiset(running))[id] == queued[id] + 1;
    } else {
      assert queued + multiset(running) == queued;
    }
  }

  /** From the same state, an operation leaves the same state exactly when it meets no full queue. */
  lemma StepSameIff(c: MemoryConfig, m: Memory, s: Raft, op: Op)
    requires SameState(m, s)
    ensures SameState(FifoOp(c, m, op).0, RaftOp(s, op).0) <==> !MeetsFullQueue(c, m, op)
    ensures !MeetsFullQueue(c, m, op) ==> (FifoOp(c, m, op).1 == RaftOp(s, op).1 <==> !ListsRunning(m, op))
  {
    match op
    case OpEnqueue(r) =>
      assert |s.pending + [r]| == |m.queue| + 1;
    case OpDequeue =>
      if m.queue != [] {
        assert Without(m.queue, 0) == s.pending[1..];
      }
    case OpNack(id, retry) =>
      if WantsRetry(m.inFlight, id, retry) {
        assert |s.pending + [s.inFlight[id]]| == |m.queue| + 1;
      }
    case OpPending(pipeline) => ListingsAgreeIff(c, m, s, pipeline);
    case _ =>
  }

  /** One more operation adds its effect and its answer. */
  lemma RunNext(c: MemoryConfig, ops: seq<Op>, op: Op)
    ensures
      var (m, s) := (FifoRun(c, ops).0, RaftRun(ops).0);
      && FifoRun(c, ops + [op]) == (FifoOp(c, m, op).0, FifoRun(c, ops).1 + [FifoOp(c, m, op).1])
      && RaftRun(ops + [op]) == (RaftOp(s, op).0, RaftRun(ops).1 + [RaftOp(s, op).1])
  {
    assert (ops + [op])[..|ops|] == ops;
  }

  ghost predicate SameAfter(c: MemoryConfig, ops: seq<Op>) {
    SameState(FifoRun(c, ops).0, RaftRun(ops).0)
  }

  /** Same states after every prefix of the run, and the same answers. */
  ghost predicate AgreeThroughout(c: MemoryConfig, ops: seq<Op>) {
    && (forall k :: 0 <= k <= |ops| ==> SameAfter(c, ops[..k]))
    && FifoRun(c, ops).1 == RaftRun(ops).1
  }

  /** A longer run agrees throughout if the shorter one does and its last operation leaves it so. */
  lemma AgreeOnceMore(c: MemoryConfig, ops: seq<Op>, op: Op)
    ensures
      var (m, s) := (FifoRun(c, ops).0, RaftRun(ops).0);
      AgreeThroughout(c, ops + [op])
      <==> && AgreeThroughout(c, ops)
           && SameState(FifoOp(c, m, op).0, RaftOp(s, op).0) && FifoOp(c, m, op).1 == RaftOp(s, op).1
  {
    hide FifoRun, RaftRun, FifoOp, RaftOp;
    var all := ops + [op];
    var (m, s) := (FifoRun(c, ops).0, RaftRun(ops).0);
    RunNext(c, ops, op);
    OneAnswerEach(c, ops);
    SameLast(FifoRun(c, ops).1, RaftRun(ops).1, FifoOp(c, m, op).1, RaftOp(s, op).1);
    assert forall k :: 0 <= k <= |ops| ==> all[..k] == ops[..k];
    assert ops[..|ops|] == ops && all[..|all|] == all;
    assert SameAfter(c, all) <==> SameState(FifoOp(c, m, op).0, RaftOp(s, op).0);
  }

  lemma SameLast<T>(a: seq<T>, b: seq<T>, x: T, y: T)
    requires |a| == |b|
    ensures a + [x] == b + [y] <==> a == b && x == y
  {
    if a + [x] == b + [y] {
      assert a == (a + [x])[..|a|] && b == (b + [y])[..|a|];
      assert x == (a + [x])[|a|] && y == (b + [y])[|a|];
    }
  }

  /**
   The memory backend in first-in first-out mode and the local Raft backend agree throughout a run if and
   only if the run never meets a full queue and never lists a pipeline that has a trace in flight.
   */
  lemma {:induction false} BackendsAgreeIff(c: MemoryConfig, ops: seq<Op>)
    ensures AgreeThroughout(c, ops) <==> NeverApart(c, ops)
  {
    if ops == [] {
      assert ops[..0] == [];
    } else {
      var front, last := ops[..|ops| - 1], ops[|ops| - 1];
      BackendsAgreeIff(c, front);
      assert ops == front + [last];
      AgreeOnceMore(c, front, last);
      if AgreeThroughout(c, front) {
        assert front[..|front|] == front;
        StepSameIff(c, FifoRun(c, front).0, RaftRun(front).0, last);
      }
    }
  }

  lemma {:induction false} OneAnswerEach(c: MemoryConfig, ops: seq<Op>)
    ensures |FifoRun(c, ops).1| == |RaftRun(ops).1| == |ops|
  {
    if ops != [] {
      OneAnswerEach(c, ops[..|ops| - 1]);
    }
  }

  // ---------------------------------------------------------------------------
  // Runs that leave a trace behind, lose one, or tell the backends apart
  // ---------------------------------------------------------------------------

  function Sample(id: nat): Request {
    Request(id, 7, [], id, 0, 0, 3)
  }

  /** One request comes in and is handed out. */
  lemma OneInFlight(c: MemoryConfig)
    requires c.maxQueueSize > 0
    ensures
      var ops := [OpEnqueue(Sample(1)), OpDequeue];
      && FifoRun(c, ops).0.inFlight == RaftRun(ops).0.inFlight == map[1 := Sample(1).IncrementAttempt()]
      && NeverApart(c, ops)
  {
    var one, two := [OpEnqueue(Sample(1))], [OpEnqueue(Sample(1)), OpDequeue];
    assert one == [] + [OpEnqueue(Sample(1))] && two == one + [OpDequeue];
    RunNext(c, [], OpEnqueue(Sample(1)));
    RunNext(c, one, OpDequeue);
    assert one[..0] == [] && NeverApart(c, []) && NeverApart(c, one);
    assert two[..1] == one && two[1] == OpDequeue;
  }

  /** A run that shuts down with a trace in flight, on either backend. */
  lemma ShutdownLeavesATrace(c: MemoryConfig)
    requires c.maxQueueSize > 0
    ensures
      var ops := [OpEnqueue(Sample(1)), OpDequeue, OpShutdown];
      1 in FifoRun(c, ops).0.inFlight && 1 in RaftRun(ops).0.inFlight
  {
    hide FifoRun, RaftRun;
    var two := [OpEnqueue(Sample(1)), OpDequeue];
    OneInFlight(c);
    assert [OpEnqueue(Sample(1)), OpDequeue, OpShutdown] == two + [OpShutdown];
    RunNext(c, two, OpShutdown);
  }

  /** A run that loses a trace: with room for one, the second comes in while the first is being worked on. */
  lemma RetryIsLost()
    ensures
      var ops := [OpEnqueue(Sample(1)), OpDequeue, OpEnqueue(Sample(2)), OpNack(1, true)];
      var before := FifoRun(MemoryConfig(1, false), ops[..3]).0;
      && 1 in before.inFlight && !before.inFlight[1].IsExhausted()
      && !Known(FifoRun(MemoryConfig(1, false), ops).0, 1)
  {
    var c := MemoryConfig(1, false);
    var ops := [OpEnqueue(Sample(1)), OpDequeue, OpEnqueue(Sample(2)), OpNack(1, true)];
    assert ops[..0] == [] && ops[..1] == ops[..0] + [ops[0]] && ops[..2] == ops[..1] + [ops[1]];
    assert ops[..3] == ops[..2] + [ops[2]] && ops == ops[..3] + [ops[3]];
    RunNext(c, ops[..0], ops[0]);
    RunNext(c, ops[..1], ops[1]);
    RunNext(c, ops[..2], ops[2]);
    RunNext(c, ops[..3], ops[3]);
  }

  // ---------------------------------------------------------------------------
  // How often a failing trace is tried
  // ---------------------------------------------------------------------------

  /** The attempts a trace has left when it is accepted, and one delivery in any case. */
  function DeliveryBound(r: Request): (n: nat)
    ensures n >= 1 && r.maxAttempts - r.attempt <= n && (n == 1 || n == r.maxAttempts - r.attempt)
  {
    if r.maxAttempts <= r.attempt + 1 then 1 else r.maxAttempts - r.attempt
  }

  /** A worker that fails and asks for a retry, `k` times. */
  function Rounds(id: nat, k: nat): seq<Op> {
    if k == 0 then [] else Rounds(id, k - 1) + [OpDequeue, OpNack(id, true)]
  }

  /** What is left of the trace after `k` such rounds: back in the queue, or tried for the last time. */
  function Left(r: Request, k: nat): seq<Request> {
    if k < DeliveryBound(r) then [r.(attempt := r.attempt + k)] else []
  }

  lemma OneRound(c: MemoryConfig, ops: seq<Op>, id: nat)
    ensures
      var (m, s) := (FifoRun(c, ops).0, RaftRun(ops).0);
      var after := ops + [OpDequeue, OpNack(id, true)];
      && FifoRun(c, after).0 == FifoOp(c, FifoOp(c, m, OpDequeue).0, OpNack(id, true)).0
      && RaftRun(after).0 == RaftOp(RaftOp(s, OpDequeue).0, OpNack(id, true)).0
  {
    hide FifoRun, RaftRun, FifoOp, RaftOp;
    RunNext(c, ops, OpDequeue);
    RunNext(c, ops + [OpDequeue], OpNack(id, true));
    assert ops + [OpDequeue] + [OpNack(id, true)] == ops + [OpDequeue, OpNack(id, true)];
  }

  /**
   A trace that is retried every time, with room in the queue, is delivered exactly as often as it has
   attempts left, and once in any case, on either backend.
   */
  lemma {:induction false} TriedExactly(c: MemoryConfig, r: Request, k: nat)
    requires c.maxQueueSize > 0
    ensures
      var (m, s) := (FifoRun(c, [OpEnqueue(r)] + Rounds(r.id, k)).0, RaftRun([OpEnqueue(r)] + Rounds(r.id, k)).0);
      && m.totalDequeued == (if k <= DeliveryBound(r) then k else DeliveryBound(r))
      && m.queue == s.pending == Left(r, k) && m.inFlight == s.inFlight == map[]
      && !m.shuttingDown && !s.shuttingDown
  {
    var start := [OpEnqueue(r)];
    if k == 0 {
      assert start + Rounds(r.id, 0) == [] + start;
      RunNext(c, [], OpEnqueue(r));
    } else {
      TriedExactly(c, r, k - 1);
      OneRound(c, start + Rounds(r.id, k - 1), r.id);
      assert start + Rounds(r.id, k) == start + Rounds(r.id, k - 1) + [OpDequeue, OpNack(r.id, true)];
      RoundLeaves(c, FifoRun(c, start + Rounds(r.id, k - 1)).0, RaftRun(start + Rounds(r.id, k - 1)).0, r, k);
    }
  }

  /** One round gives the trace one attempt more, as long as it has any. */
  lemma RoundLeaves(c: MemoryConfig, m: Memory, s: Raft, r: Request, k: nat)
    requires c.maxQueueSize > 0 && k > 0 && !m.shuttingDown && !s.shuttingDown
    requires m.queue == s.pending == Left(r, k - 1) && m.inFlight == s.inFlight == map[]
    ensures
      var m' := FifoOp(c, FifoOp(c, m, OpDequeue).0, OpNack(r.id, true)).0;
      var s' := RaftOp(RaftOp(s, OpDequeue).0, OpNack(r.id, true)).0;
      && m'.queue == s'.pending == Left(r, k) && m'.inFlight == s'.inFlight == map[]
      && !m'.shuttingDown && !s'.shuttingDown
      && m'.totalDequeued == m.totalDequeued + (if k <= DeliveryBound(r) then 1 else 0)
  {
  }

  /** A run that never meets a full queue and still tells the backends apart. */
  lemma ListingTellsThemApart(c: MemoryConfig)
    requires c.maxQueueSize > 0
    ensures
      var ops := [OpEnqueue(Sample(1)), OpDequeue];
      AgreeThroughout(c, ops) && !AgreeThroughout(c, ops + [OpPending(7)])
  {
    hide FifoRun, RaftRun, AgreeThroughout;
    var ops := [OpEnqueue(Sample(1)), OpDequeue];
    OneInFlight(c);
    assert (ops + [OpPending(7)])[..2] == ops;
    assert 1 in RunningIds(FifoRun(c, ops).0.inFlight, 7);
    BackendsAgreeIff(c, ops);
    BackendsAgreeIff(c, ops + [OpPending(7)]);
  }
}
