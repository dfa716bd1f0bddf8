/**
 The arena's allocation tracker: which blocks exist, which are still live, and
 the running byte totals that decide when the arena is worth compacting.
 */
module Allocation {
  import opened Prelude

  datatype AllocationEntry = AllocationEntry(offset: nat, size: u32, generation: nat, live: bool)

  // ---------------------------------------------------------------------------
  // Sums over the tracked entries
  // ---------------------------------------------------------------------------

  /** Bytes of all entries, live or not. */
  ghost function SizeSum(m: map<nat, AllocationEntry>): nat {
    if m == map[] then 0
    else
      var k :| k in m;
      m[k].size + SizeSum(m - {k})
  }

  /** Bytes of the entries that are no longer live. */
  ghost function DeadSum(m: map<nat, AllocationEntry>): nat {
    if m == map[] then 0
    else
      var k :| k in m;
      (if m[k].live then 0 else m[k].size) + DeadSum(m - {k})
  }

  /** The sums do not depend on which entry is counted first. */
  lemma {:induction false} SumsSplit(m: map<nat, AllocationEntry>, k: nat)
    requires k in m
    ensures SizeSum(m) == m[k].size + SizeSum(m - {k})
    ensures DeadSum(m) == (if m[k].live then 0 else m[k].size) + DeadSum(m - {k})
    decreases |m|
  {
    var a :| a in m && SizeSum(m) == m[a].size + SizeSum(m - {a});
    if a != k {
      SumsSplit(m - {a}, k);
      SumsSplit(m - {k}, a);
      assert m - {a} - {k} == m - {k} - {a};
    }
    var b :| b in m && DeadSum(m) == (if m[b].live then 0 else m[b].size) + DeadSum(m - {b});
    if b != k {
      SumsSplit(m - {b}, k);
      SumsSplit(m - {k}, b);
      assert m - {b} - {k} == m - {k} - {b};
    }
  }

  lemma SumsAdd(m: map<nat, AllocationEntry>, k: nat, e: AllocationEntry)
    requires k !in m
    ensures SizeSum(m[k := e]) == SizeSum(m) + e.size
    ensures DeadSum(m[k := e]) == DeadSum(m) + (if e.live then 0 else e.size)
  {
    SumsSplit(m[k := e], k);
    assert m[k := e] - {k} == m;
  }

  lemma SumsReplace(m: map<nat, AllocationEntry>, k: nat, e: AllocationEntry)
    requires k in m
    ensures SizeSum(m[k := e]) + m[k].size == SizeSum(m) + e.size
    ensures DeadSum(m[k := e]) + (if m[k].live then 0 else m[k].size)
         == DeadSum(m) + (if e.live then 0 else e.size)
  {
    SumsSplit(m, k);
    SumsSplit(m[k := e], k);
    assert m[k := e] - {k} == m - {k};
  }

  // ---------------------------------------------------------------------------
  // Tracker state and its operations
  // ---------------------------------------------------------------------------

  datatype TrackerState = TrackerState(
    allocations: map<nat, AllocationEntry>, generation: nat, totalAllocated: nat, totalDead: nat)
  {
    /** Entries are filed under their own offset. */
    ghost predicate Keyed() {
      forall k :: k in allocations ==> allocations[k].offset == k
    }

    /** The running totals are the sums they stand for. */
    ghost predicate Exact() {
      totalAllocated == SizeSum(allocations) && totalDead == DeadSum(allocations)
    }

    /** What holds of the totals even after offsets were recorded twice. */
    ghost predicate Covers() {
      DeadSum(allocations) <= totalDead
      && totalDead + SizeSum(allocations) <= totalAllocated + DeadSum(allocations)
      && DeadSum(allocations) <= SizeSum(allocations)
    }
  }

  datatype TrackerOp = Record(offset: nat, size: u32) | MarkDead(dead: nat) | UpdateOffset(from: nat, to: nat)

  function Step(s: TrackerState, op: TrackerOp): TrackerState {
    match op
    case Record(offset, size) =>
      s.(allocations := s.allocations[offset := AllocationEntry(offset, size, s.generation, true)],
         totalAllocated := s.totalAllocated + size)
    case MarkDead(offset) =>
      if offset in s.allocations && s.allocations[offset].live then
        s.(allocations := s.allocations[offset := s.allocations[offset].(live := false)],
           totalDead := s.totalDead + s.allocations[offset].size)
      else s
    case UpdateOffset(from, to) =>
      if from in s.allocations then
        s.(allocations := (s.allocations - {from})[to := s.allocations[from].(offset := to)])
      else s
  }

  function Run(s: TrackerState, ops: seq<TrackerOp>): TrackerState {
    if ops == [] then s else Step(Run(s, ops[..|ops| - 1]), ops[|ops| - 1])
  }

  const EMPTY: TrackerState := TrackerState(map[], 1, 0, 0)

  /** Bytes of the entry that the operation overwrites with another. */
  function Overwritten(s: TrackerState, op: TrackerOp): nat {
    match op
    case Record(offset, _) => if offset in s.allocations then s.allocations[offset].size else 0
    case MarkDead(_) => 0
    case UpdateOffset(from, to) =>
      if from in s.allocations && from != to && to in s.allocations then s.allocations[to].size else 0
  }

  /** The operation records an allocation over, or moves one onto, another entry that has bytes. */
  predicate Overwrites(s: TrackerState, op: TrackerOp) {
    Overwritten(s, op) > 0
  }

  /** An entry under a new offset counts as before, and the one it lands on no more. */
  lemma SumsMove(m: map<nat, AllocationEntry>, from: nat, to: nat)
    requires from in m
    ensures
      var lost := if from != to && to in m then m[to].size else 0;
      var after := (m - {from})[to := m[from].(offset := to)];
      && SizeSum(after) + lost == SizeSum(m)
      && DeadSum(after) + (if lost > 0 && !m[to].live then lost else 0) == DeadSum(m)
  {
    var rest := m - {from};
    SumsSplit(m, from);
    if to in rest {
      SumsReplace(rest, to, m[from].(offset := to));
    } else {
      SumsAdd(rest, to, m[from].(offset := to));
    }
  }

  /** A step from exact totals keeps them exact, except over an entry that has bytes. */
  lemma StepExactIff(s: TrackerState, op: TrackerOp)
    requires s.Exact()
    ensures Step(s, op).Exact() <==> !Overwrites(s, op)
  {
    match op
    case Record(offset, size) =>
      var e := AllocationEntry(offset, size, s.generation, true);
      if offset in s.allocations {
        SumsReplace(s.allocations, offset, e);
      } else {
        SumsAdd(s.allocations, offset, e);
      }
    case MarkDead(offset) =>
      if offset in s.allocations && s.allocations[offset].live {
        SumsReplace(s.allocations, offset, s.allocations[offset].(live := false));
      }
    case UpdateOffset(from, to) =>
      if from in s.allocations {
        SumsMove(s.allocations, from, to);
      }
  }

  /** Bytes that the allocated total counts and no entry has. */
  ghost function Excess(s: TrackerState): int {
    s.totalAllocated - SizeSum(s.allocations)
  }

  /** They never get fewer, and overwriting an entry adds that entry's. */
  lemma ExcessStays(s: TrackerState, op: TrackerOp)
    ensures Excess(Step(s, op)) == Excess(s) + Overwritten(s, op)
  {
    match op
    case Record(offset, size) =>
      var e := AllocationEntry(offset, size, s.generation, true);
      if offset in s.allocations {
        SumsReplace(s.allocations, offset, e);
      } else {
        SumsAdd(s.allocations, offset, e);
      }
    case MarkDead(offset) =>
      if offset in s.allocations && s.allocations[offset].live {
        SumsReplace(s.allocations, offset, s.allocations[offset].(live := false));
      }
    case UpdateOffset(from, to) =>
      if from in s.allocations {
        SumsMove(s.allocations, from, to);
      }
  }

  /** No operation of `ops` puts an entry over another that has bytes. */
  ghost predicate NeverOverwrites(s: TrackerState, ops: seq<TrackerOp>) {
    ops == [] ||
    (NeverOverwrites(s, ops[..|ops| - 1]) && !Overwrites(Run(s, ops[..|ops| - 1]), ops[|ops| - 1]))
  }

  /**
   Over every run from exact totals, an empty tracker's or a rebuilt one's, the totals are the sums over
   the entries if and only if no operation has put an entry over another that has bytes.
   */
  lemma {:induction false} RunExactIff(s: TrackerState, ops: seq<TrackerOp>)
    requires s.Exact()
    ensures Run(s, ops).Exact() <==> NeverOverwrites(s, ops)
    ensures Excess(Run(s, ops)) >= 0 && (Excess(Run(s, ops)) == 0 <==> NeverOverwrites(s, ops))
  {
    if ops != [] {
      var front, last := ops[..|ops| - 1], ops[|ops| - 1];
      RunExactIff(s, front);
      ExcessStays(Run(s, front), last);
      if Run(s, front).Exact() {
        StepExactIff(Run(s, front), last);
      }
    }
  }

  /** No operation of `ops` records, or moves an entry to, an offset that is already tracked. */
  ghost predicate RecordsFresh(s: TrackerState, ops: seq<TrackerOp>) {
    ops == [] ||
    (var before := Run(s, ops[..|ops| - 1]);
     var op := ops[|ops| - 1];
     RecordsFresh(s, ops[..|ops| - 1])
     && (op.Record? ==> op.offset !in before.allocations) && (op.UpdateOffset? ==> op.to !in before.allocations))
  }

  lemma {:induction false} FreshIsNotOver(s: TrackerState, ops: seq<TrackerOp>)
    requires RecordsFresh(s, ops)
    ensures NeverOverwrites(s, ops)
  {
    if ops != [] {
      FreshIsNotOver(s, ops[..|ops| - 1]);
    }
  }

  /** So over every run that uses fresh offsets only, the totals are the sums over the entries. */
  lemma RunExact(ops: seq<TrackerOp>)
    requires RecordsFresh(EMPTY, ops)
    ensures Run(EMPTY, ops).Exact()
  {
    FreshIsNotOver(EMPTY, ops);
    RunExactIff(EMPTY, ops);
  }

  /** A new block recorded twice leaves its bytes in the total once too often, in every tracker with exact totals. */
  lemma RecordedTwice(s: TrackerState, offset: nat, size: u32)
    requires s.Exact() && offset !in s.allocations && size > 0
    ensures
      var once := Step(s, Record(offset, size));
      var twice := Step(once, Record(offset, size));
      once.Exact() && Excess(twice) == size && !twice.Exact()
  {
    var once := Step(s, Record(offset, size));
    StepExactIff(s, Record(offset, size));
    ExcessStays(once, Record(offset, size));
  }

  /** Over every run, the dead total never exceeds the allocated total: read together, they do not underflow. */
  lemma {:induction false} RunCovers(ops: seq<TrackerOp>)
    ensures Run(EMPTY, ops).Covers() && Run(EMPTY, ops).Keyed()
    ensures Run(EMPTY, ops).totalDead <= Run(EMPTY, ops).totalAllocated
  {
    if ops != [] {
      RunCovers(ops[..|ops| - 1]);
      StepCovers(Run(EMPTY, ops[..|ops| - 1]), ops[|ops| - 1]);
    }
  }

  /** Bytes that the operations add to the allocated total. */
  function Recorded(ops: seq<TrackerOp>): nat {
    if ops == [] then 0
    else Recorded(ops[..|ops| - 1]) + (if ops[|ops| - 1].Record? then ops[|ops| - 1].size else 0)
  }

  lemma {:induction false} RecordedIsAdded(s: TrackerState, ops: seq<TrackerOp>)
    ensures Run(s, ops).totalAllocated == s.totalAllocated + Recorded(ops)
  {
    if ops != [] {
      RecordedIsAdded(s, ops[..|ops| - 1]);
    }
  }

  lemma {:induction false} RunTwice(s: TrackerState, a: seq<TrackerOp>, b: seq<TrackerOp>)
    ensures Run(s, a + b) == Run(Run(s, a), b)
  {
    if b == [] {
      assert a + b == a;
    } else {
      RunTwice(s, a, b[..|b| - 1]);
      assert (a + b)[..|a + b| - 1] == a + b[..|b| - 1];
    }
  }

  /**
   total_live reads the two totals one after the other, and other threads may record and kill in between.
   After any run, its subtraction underflows if and only if the bytes recorded in between are more than all
   the bytes that are live at the second reading. It cannot if nothing is recorded in between.
   */
  lemma LiveReadUnderflowsIff(before: seq<TrackerOp>, between: seq<TrackerOp>)
    ensures
      var (first, second) := (Run(EMPTY, before), Run(EMPTY, before + between));
      && second.totalDead <= second.totalAllocated
      && (first.totalAllocated < second.totalDead
          <==> second.totalAllocated - second.totalDead < Recorded(between))
  {
    RunCovers(before + between);
    RunTwice(EMPTY, before, between);
    RecordedIsAdded(Run(EMPTY, before), between);
  }

  /** It does when a block comes and dies between the two readings of an empty tracker. */
  lemma LiveReadUnderflows(size: u32)
    requires size > 0
    ensures Run(EMPTY, []).totalAllocated < Run(EMPTY, [] + [Record(0, size), MarkDead(0)]).totalDead
  {
    var ops := [Record(0, size), MarkDead(0)];
    assert [] + ops == ops && ops[..1] == [Record(0, size)] && ops[..1][..0] == [];
    assert Run(EMPTY, ops[..1]) == Step(EMPTY, Record(0, size));
  }

  lemma StepCovers(s: TrackerState, op: TrackerOp)
    requires s.Covers() && s.Keyed()
    ensures Step(s, op).Covers() && Step(s, op).Keyed()
  {
    match op
    case Record(offset, size) =>
      var e := AllocationEntry(offset, size, s.generation, true);
      if offset in s.allocations {
        SumsReplace(s.allocations, offset, e);
        SumsSplit(s.allocations, offset);
        DeadWithinSize(s.allocations - {offset});
      } else {
        SumsAdd(s.allocations, offset, e);
      }
    case MarkDead(offset) =>
      if offset in s.allocations && s.allocations[offset].live {
        SumsReplace(s.allocations, offset, s.allocations[offset].(live := false));
        DeadWithinSize(Step(s, op).allocations);
      }
    case UpdateOffset(from, to) =>
      if from in s.allocations {
        SumsMove(s.allocations, from, to);
        DeadWithinSize(Step(s, op).allocations);
      }
  }

  lemma {:induction false} DeadWithinSize(m: map<nat, AllocationEntry>)
    ensures DeadSum(m) <= SizeSum(m)
    decreases |m|
  {
    if m != map[] {
      var k :| k in m;
      SumsSplit(m, k);
      DeadWithinSize(m - {k});
    }
  }

  // ---------------------------------------------------------------------------
  // Live entries in offset order
  // ---------------------------------------------------------------------------

  function LiveOffsets(m: map<nat, AllocationEntry>): set<nat> {
    set k | k in m && m[k].live
  }

  /** The live entries, sorted by offset. */
  function LiveSorted(m: map<nat, AllocationEntry>): (r: seq<AllocationEntry>)
    ensures |r| == |LiveOffsets(m)|
    ensures forall i :: 0 <= i < |r| ==> r[i] == m[Ascending(LiveOffsets(m))[i]] && r[i].live
  {
    var ks := Ascending(LiveOffsets(m));
    seq(|ks|, i requires 0 <= i < |ks| => m[ks[i]])
  }

  ghost predicate SortedByOffset(s: seq<AllocationEntry>) {
    forall i, j :: 0 <= i < j < |s| ==> s[i].offset < s[j].offset
  }

  /** `e` is one of the entries filed in `m`. */
  ghost predicate FiledIn(m: map<nat, AllocationEntry>, e: AllocationEntry) {
    e.offset in m && m[e.offset] == e
  }

  /** On a keyed map, LiveSorted lists live entries of the map, ascending. */
  lemma LiveSortedFiled(s: TrackerState)
    requires s.Keyed()
    ensures SortedByOffset(LiveSorted(s.allocations))
    ensures forall i :: 0 <= i < |LiveSorted(s.allocations)| ==> FiledIn(s.allocations, LiveSorted(s.allocations)[i])
  {
    var ks := Ascending(LiveOffsets(s.allocations));
    AscendingSorted(LiveOffsets(s.allocations));
    forall i | 0 <= i < |ks| ensures LiveSorted(s.allocations)[i].offset == ks[i] && ks[i] in s.allocations {
      assert ks[i] in LiveOffsets(s.allocations);
    }
  }

  /** And it lists them all. */
  lemma LiveSortedHas(s: TrackerState, k: nat) returns (i: nat)
    requires s.Keyed() && k in s.allocations && s.allocations[k].live
    ensures i < |LiveSorted(s.allocations)| && LiveSorted(s.allocations)[i] == s.allocations[k]
  {
    AscendingSorted(LiveOffsets(s.allocations));
    assert k in LiveOffsets(s.allocations);
    i :| 0 <= i < |Ascending(LiveOffsets(s.allocations))| && Ascending(LiveOffsets(s.allocations))[i] == k;
  }

  lemma LiveSortedIsLive(s: TrackerState)
    requires s.Keyed()
    ensures forall e: AllocationEntry :: e in LiveSorted(s.allocations) <==> e.live && FiledIn(s.allocations, e)
  {
    var r := LiveSorted(s.allocations);
    LiveSortedFiled(s);
    forall e: AllocationEntry | e.live && FiledIn(s.allocations, e) ensures e in r {
      var i := LiveSortedHas(s, e.offset);
    }
  }

  /** Bytes of a sequence of entries. */
  function SeqSize(es: seq<AllocationEntry>): nat {
    if es == [] then 0 else SeqSize(es[..|es| - 1]) + es[|es| - 1].size
  }

  function SeqDead(es: seq<AllocationEntry>): nat {
    if es == [] then 0
    else SeqDead(es[..|es| - 1]) + (if es[|es| - 1].live then 0 else es[|es| - 1].size)
  }

  /** The map that inserting the entries from left to right builds. */
  function Filed(es: seq<AllocationEntry>): map<nat, AllocationEntry> {
    if es == [] then map[]
    else Filed(es[..|es| - 1])[es[|es| - 1].offset := es[|es| - 1]]
  }

  /** Every entry filed from `es` is one of `es`, under its own offset. */
  lemma {:induction false} FiledFrom(es: seq<AllocationEntry>)
    ensures forall k :: k in Filed(es) ==> Filed(es)[k].offset == k && Filed(es)[k] in es
  {
    if es != [] {
      FiledFrom(es[..|es| - 1]);
    }
  }

  /** The next of some ascending entries finds its offset free. */
  lemma LastIsFresh(es: seq<AllocationEntry>)
    requires SortedByOffset(es) && es != []
    ensures es[|es| - 1].offset !in Filed(es[..|es| - 1])
  {
    FiledFrom(es[..|es| - 1]);
  }

  /** Filing entries with ascending offsets loses none of them, and the sums agree. */
  lemma {:induction false} FiledKeepsAll(es: seq<AllocationEntry>)
    requires SortedByOffset(es)
    ensures forall i :: 0 <= i < |es| ==> FiledIn(Filed(es), es[i])
    ensures |Filed(es)| == |es|
  {
    if es != [] {
      var front := es[..|es| - 1];
      FiledKeepsAll(front);
      LastIsFresh(es);
      forall i | 0 <= i < |front| ensures FiledIn(Filed(es), es[i]) {
        assert FiledIn(Filed(front), front[i]);
      }
    }
  }

  lemma {:induction false} FiledSums(es: seq<AllocationEntry>)
    requires SortedByOffset(es)
    ensures SizeSum(Filed(es)) == SeqSize(es) && DeadSum(Filed(es)) == SeqDead(es)
  {
    if es != [] {
      FiledSums(es[..|es| - 1]);
      LastIsFresh(es);
      SumsAdd(Filed(es[..|es| - 1]), es[|es| - 1].offset, es[|es| - 1]);
    }
  }

  /** A rebuild from entries with ascending offsets recounts the totals: they are exact whatever they were before. */
  lemma RebuildIsExact(entries: seq<AllocationEntry>, generation: nat)
    requires SortedByOffset(entries)
    ensures TrackerState(Filed(entries), generation, SeqSize(entries), SeqDead(entries)).Exact()
  {
    FiledSums(entries);
  }

  /** The live entries under their offsets. */
  function LiveOnly(m: map<nat, AllocationEntry>): map<nat, AllocationEntry> {
    map k | k in m && m[k].live :: m[k]
  }

  lemma FiledLive(s: TrackerState, live: seq<AllocationEntry>)
    requires s.Keyed() && live == LiveSorted(s.allocations)
    ensures Filed(live) == LiveOnly(s.allocations)
  {
    var lm := LiveOnly(s.allocations);
    FiledFrom(live);
    forall k | k in lm ensures k in Filed(live) && Filed(live)[k] == lm[k] {
      var i := LiveSortedHas(s, k);
      LiveSortedFiled(s);
      FiledKeepsAll(live);
      assert FiledIn(Filed(live), live[i]);
    }
    forall k | k in Filed(live) ensures k in lm {
      LiveSortedFiled(s);
      var i :| 0 <= i < |live| && live[i] == Filed(live)[k];
      assert FiledIn(s.allocations, live[i]);
    }
  }

  /** The live bytes of a map are the bytes of its sorted live entries. */
  lemma LiveSize(s: TrackerState)
    requires s.Keyed()
    ensures SeqSize(LiveSorted(s.allocations)) + DeadSum(s.allocations) == SizeSum(s.allocations)
  {
    var live := LiveSorted(s.allocations);
    LiveSortedFiled(s);
    FiledSums(live);
    FiledLive(s, live);
    LivePart(s.allocations);
  }

  lemma LiveWithout(m: map<nat, AllocationEntry>, k: nat)
    requires k in m
    ensures LiveOnly(m - {k}) == LiveOnly(m) - {k}
    ensures k in LiveOnly(m) <==> m[k].live
    ensures m[k].live ==> LiveOnly(m)[k] == m[k]
  {
  }

  lemma {:induction false} LivePart(m: map<nat, AllocationEntry>)
    ensures SizeSum(LiveOnly(m)) + DeadSum(m) == SizeSum(m)
    decreases |m|
  {
    if m == map[] {
      assert LiveOnly(m) == map[];
    } else {
      hide SizeSum, DeadSum, LiveOnly;
      var k :| k in m;
      SumsSplit(m, k);
      LiveWithout(m, k);
      LivePart(m - {k});
      if m[k].live {
        SumsSplit(LiveOnly(m), k);
      } else {
        assert LiveOnly(m) - {k} == LiveOnly(m);
      }
    }
  }

  // ---------------------------------------------------------------------------
  // The tracker object
  // ---------------------------------------------------------------------------

  class AllocationTracker {
    var allocations: map<nat, AllocationEntry>
    var generation: nat
    var totalAllocated: nat
    var totalDead: nat

    ghost function State(): TrackerState
      reads this
    {
      TrackerState(allocations, generation, totalAllocated, totalDead)
    }

    constructor ()
      ensures State() == EMPTY
    {
      allocations := map[];
      generation := 1;
      totalAllocated, totalDead := 0, 0;
    }

    method RecordAllocation(offset: nat, size: u32)
      modifies this
      ensures allocations == old(allocations)[offset := AllocationEntry(offset, size, generation, true)]
      ensures generation == old(generation)
      ensures totalAllocated == old(totalAllocated) + size && totalDead == old(totalDead)
      ensures State() == Step(old(State()), Record(offset, size))
    {
      allocations := allocations[offset := AllocationEntry(offset, size, generation, true)];
      totalAllocated := totalAllocated + size;
    }

    method MarkDead(offset: nat)
      modifies this
      ensures
        var dies := offset in old(allocations) && old(allocations)[offset].live;
        && allocations
           == (if dies then old(allocations)[offset := old(allocations)[offset].(live := false)] else old(allocations))
        && totalDead == old(totalDead) + (if dies then old(allocations)[offset].size else 0)
      ensures generation == old(generation) && totalAllocated == old(totalAllocated)
      ensures State() == Step(old(State()), TrackerOp.MarkDead(offset))
    {
      if offset in allocations {
        var entry := allocations[offset];
        if entry.live {
          allocations := allocations[offset := entry.(live := false)];
          totalDead := totalDead + entry.size;
        }
      }
    }

    method UpdateOffset(oldOffset: nat, newOffset: nat)
      modifies this
      ensures oldOffset !in old(allocations) ==> allocations == old(allocations)
      ensures oldOffset in old(allocations) ==>
                && newOffset in allocations
                && allocations[newOffset] == old(allocations)[oldOffset].(offset := newOffset)
                && (oldOffset != newOffset ==> oldOffset !in allocations)
                && allocations - {oldOffset, newOffset} == old(allocations) - {oldOffset, newOffset}
      ensures generation == old(generation) && totalAllocated == old(totalAllocated) && totalDead == old(totalDead)
      ensures State() == Step(old(State()), TrackerOp.UpdateOffset(oldOffset, newOffset))
    {
      if oldOffset in allocations {
        var entry := allocations[oldOffset];
        allocations := allocations - {oldOffset};
        allocations := allocations[newOffset := entry.(offset := newOffset)];
      }
    }

    function GetLiveAllocations(): seq<AllocationEntry>
      reads this
    {
      LiveSorted(allocations)
    }

    /** The counter is 32 bits wide and wraps. */
    method IncrementGeneration() returns (g: nat)
      modifies this`generation
      ensures g == generation == (old(generation) + 1) % U32_RANGE
    {
      generation := (generation + 1) % U32_RANGE;
      g := generation;
    }

    function TotalLive(): nat
      requires totalDead <= totalAllocated
      reads this
    {
      totalAllocated - totalDead
    }

    /** Dead bytes as a fraction of all bytes; 0 for an empty tracker. */
    function FragmentationRatio(): (r: real)
      reads this
      ensures totalAllocated > 0 ==> r * totalAllocated as real == totalDead as real
      ensures totalAllocated == 0 ==> r == 0.0
    {
      if totalAllocated == 0 then 0.0 else totalDead as real / totalAllocated as real
    }

    method Rebuild(entries: seq<AllocationEntry>)
      modifies this
      ensures State() == TrackerState(Filed(entries), old(generation), SeqSize(entries), SeqDead(entries))
    {
      allocations := map[];
      var alloc, dead := 0, 0;
      for i := 0 to |entries|
        invariant allocations == Filed(entries[..i])
        invariant alloc == SeqSize(entries[..i]) && dead == SeqDead(entries[..i])
        invariant generation == old(generation)
      {
        assert entries[..i + 1][..i] == entries[..i];
        alloc := alloc + entries[i].size;
        if !entries[i].live {
          dead := dead + entries[i].size;
        }
        allocations := allocations[entries[i].offset := entries[i]];
      }
      assert entries[..|entries|] == entries;
      totalAllocated := alloc;
      totalDead := dead;
    }
  }
}
