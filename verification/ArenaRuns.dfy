/**
 Whole lives of an arena: writes at the write position, blocks that die, and
 compactions, in any order. Every such life keeps the layout and the exact
 totals that the compactor's results rest on.
 */
module ArenaRuns {
  import opened Prelude
  import opened Allocation
  import opened SlidingMoves
  import opened Compaction

  const MAX_CAPACITY: nat := U32_RANGE

  /** The tracker and the writer's position. */
  datatype ArenaLife = ArenaLife(tracker: TrackerState, pos: nat)

  /** Where the data region starts, above the header, and where the arena ends. */
  datatype Region = Region(base: nat, capacity: nat) {
    predicate Sound() {
      Aligned(base) && 8 <= base <= capacity <= MAX_CAPACITY
    }
  }

  datatype LifeOp = Write(size: u32) | Kill(offset: nat) | Compact

  /** A write without room changes nothing. */
  function LifeStep(s: ArenaLife, g: Region, op: LifeOp): ArenaLife {
    match op
    case Write(size) =>
      if s.pos + AlignUp(size) > g.capacity then s
      else ArenaLife(Step(s.tracker, Record(s.pos, size)), s.pos + AlignUp(size))
    case Kill(offset) => s.(tracker := Step(s.tracker, MarkDead(offset)))
    case Compact =>
      var live := LiveSorted(s.tracker.allocations);
      ArenaLife(Compacted(s.tracker, g.base), PackedEnd(live, g.base, |live|))
  }

  function Life(g: Region, ops: seq<LifeOp>): ArenaLife {
    if ops == [] then ArenaLife(EMPTY, g.base) else LifeStep(Life(g, ops[..|ops| - 1]), g, ops[|ops| - 1])
  }

  /** A block lies aligned between the data region's start and the write position; an empty one at it. */
  ghost predicate InRegion(e: AllocationEntry, base: nat, pos: nat) {
    && Aligned(e.offset) && base <= e.offset && e.offset + AlignUp(e.size) <= pos && e.size + 7 < U32_RANGE
    && (e.size == 0 ==> e.offset == pos)
  }

  ghost predicate Apart(e: AllocationEntry, f: AllocationEntry) {
    e.offset < f.offset ==> e.offset + AlignUp(e.size) <= f.offset
  }

  ghost predicate Spaced(s: ArenaLife, base: nat) {
    var m := s.tracker.allocations;
    && Aligned(s.pos) && base <= s.pos && s.tracker.Keyed()
    && (forall k :: k in m ==> InRegion(m[k], base, s.pos))
    && (forall k, l :: k in m && l in m ==> Apart(m[k], m[l]))
  }

  lemma {:induction false} SpacedIsLayout(s: ArenaLife, base: nat)
    requires Spaced(s, base)
    ensures ArenaLayout(LiveSorted(s.tracker.allocations), base)
    ensures Fits(LiveSorted(s.tracker.allocations), s.pos)
  {
    LiveSortedFiled(s.tracker);
    SpacedEntries(s, base, LiveSorted(s.tracker.allocations));
  }

  lemma SpacedEntries(s: ArenaLife, base: nat, live: seq<AllocationEntry>)
    requires Spaced(s, base) && SortedByOffset(live)
    requires forall i :: 0 <= i < |live| ==> FiledIn(s.tracker.allocations, live[i])
    ensures ArenaLayout(live, base) && Fits(live, s.pos)
  {
    forall i, j | 0 <= i < j < |live|
      ensures live[i].offset + AlignUp(live[i].size) <= live[j].offset && live[i].size >= 1
    {
      assert FiledIn(s.tracker.allocations, live[i]) && FiledIn(s.tracker.allocations, live[j]);
    }
    forall i | 0 <= i < |live| - 1 ensures live[i].size >= 1 {
      assert live[i].offset < live[i + 1].offset;
    }
  }

  lemma WriteKeepsSpaced(s: ArenaLife, g: Region, size: u32)
    requires g.Sound() && Spaced(s, g.base)
    ensures Spaced(LifeStep(s, g, Write(size)), g.base)
  {
    var m, t := s.tracker.allocations, LifeStep(s, g, Write(size));
    if s.pos + AlignUp(size) <= g.capacity {
      AlignedSum(s.pos, AlignUp(size));
      forall k | k in m && k != s.pos ensures InRegion(m[k], g.base, t.pos) && k < s.pos && m[k].size > 0 {
        assert InRegion(m[k], g.base, s.pos);
      }
    }
  }

  lemma KillKeepsSpaced(s: ArenaLife, g: Region, offset: nat)
    requires Spaced(s, g.base)
    ensures Spaced(LifeStep(s, g, Kill(offset)), g.base)
  {
    var m, m' := s.tracker.allocations, LifeStep(s, g, Kill(offset)).tracker.allocations;
    forall k | k in m' ensures k in m && m'[k].offset == m[k].offset && m'[k].size == m[k].size {
    }
    forall k | k in m' ensures InRegion(m'[k], g.base, s.pos) {
      assert InRegion(m[k], g.base, s.pos);
    }
    forall k, l | k in m' && l in m' ensures Apart(m'[k], m'[l]) {
      assert Apart(m[k], m[l]);
    }
  }

  /** Writes and kills keep exact totals exact: the only entry a write can replace is an empty one. */
  lemma StepKeepsExact(s: ArenaLife, g: Region, op: LifeOp)
    requires Spaced(s, g.base) && s.tracker.Exact() && !op.Compact?
    ensures LifeStep(s, g, op).tracker.Exact()
  {
    match op
    case Write(size) =>
      if s.pos in s.tracker.allocations {
        assert InRegion(s.tracker.allocations[s.pos], g.base, s.pos);
      }
      StepExactIff(s.tracker, Record(s.pos, size));
    case Kill(offset) => StepExactIff(s.tracker, MarkDead(offset));
  }

  /** The blocks of a packing, filed by offset, are spaced below the packing's end. */
  lemma {:induction false} PackedIsSpaced(live: seq<AllocationEntry>, base: nat, generation: nat)
    requires ArenaLayout(live, base) && Aligned(base)
    ensures Spaced(
      ArenaLife(TrackerState(Filed(Relocated(live, base, generation)), 0, 0, 0), PackedEnd(live, base, |live|)), base)
  {
    var r, end := Relocated(live, base, generation), PackedEnd(live, base, |live|);
    PackedBase(live, base);
    forall i | 0 <= i < |r| ensures InRegion(r[i], base, end) {
      BlockInRegion(live, base, generation, i);
    }
    forall i, j | 0 <= i < |r| && 0 <= j < |r| ensures Apart(r[i], r[j]) {
      if i < j {
        BlocksApart(live, base, generation, i, j);
      } else if j < i {
        BlocksApart(live, base, generation, j, i);
      }
    }
    FiledIsSpaced(r, base, end);
  }

  lemma PackedBase(live: seq<AllocationEntry>, base: nat)
    requires Aligned(base)
    ensures Aligned(PackedEnd(live, base, |live|)) && base <= PackedEnd(live, base, |live|)
  {
    WritePosIsPackedSize(live, base, |live|);
  }

  lemma {:induction false} BlockInRegion(live: seq<AllocationEntry>, base: nat, generation: nat, i: nat)
    requires ArenaLayout(live, base) && i < |live|
    ensures InRegion(Relocated(live, base, generation)[i], base, PackedEnd(live, base, |live|))
  {
    PackingOrdered(live, base, i, |live|);
    if i == |live| - 1 {
      PlanStep(live, base, i);
    }
  }

  lemma {:induction false} BlocksApart(live: seq<AllocationEntry>, base: nat, generation: nat, i: nat, j: nat)
    requires ArenaLayout(live, base) && i < j < |live|
    ensures
      var r := Relocated(live, base, generation);
      r[i].offset < r[j].offset && Apart(r[i], r[j])
  {
    PackingOrdered(live, base, i, j);
    assert live[i].size >= 1;
  }

  lemma {:induction false} FiledIsSpaced(r: seq<AllocationEntry>, base: nat, end: nat)
    requires Aligned(end) && base <= end
    requires forall i :: 0 <= i < |r| ==> InRegion(r[i], base, end)
    requires forall i, j :: 0 <= i < |r| && 0 <= j < |r| ==> Apart(r[i], r[j])
    ensures Spaced(ArenaLife(TrackerState(Filed(r), 0, 0, 0), end), base)
  {
    FiledFrom(r);
  }

  lemma {:induction false} CompactKeepsSpaced(s: ArenaLife, g: Region)
    requires Spaced(s, g.base) && s.tracker.Exact() && Aligned(g.base)
    ensures Spaced(LifeStep(s, g, Compact), g.base) && LifeStep(s, g, Compact).tracker.Exact()
  {
    var live := LiveSorted(s.tracker.allocations);
    SpacedIsLayout(s, g.base);
    CompactionConserves(s.tracker, g.base);
    PackedIsSpaced(live, g.base, LifeStep(s, g, Compact).tracker.generation);
  }

  /** Compacting never moves the write position up. */
  lemma {:induction false} CompactionFreesSpace(s: ArenaLife, g: Region)
    requires Spaced(s, g.base)
    ensures LifeStep(s, g, Compact).pos <= s.pos
  {
    var live := LiveSorted(s.tracker.allocations);
    SpacedIsLayout(s, g.base);
    if live != [] {
      var last := |live| - 1;
      DestBelowSource(live, g.base, last);
      LiveSortedFiled(s.tracker);
      assert FiledIn(s.tracker.allocations, live[last]);
    }
  }

  /**
   Every life of an arena keeps its blocks in an arena layout below the write position, that inside the
   arena, and its totals exact, through any number of compactions and even with empty writes.
   */
  lemma {:induction false} LifeInvariant(g: Region, ops: seq<LifeOp>)
    requires g.Sound()
    ensures Spaced(Life(g, ops), g.base) && Life(g, ops).tracker.Exact() && Life(g, ops).pos <= g.capacity
    ensures ArenaLayout(LiveSorted(Life(g, ops).tracker.allocations), g.base)
    ensures Fits(LiveSorted(Life(g, ops).tracker.allocations), Life(g, ops).pos)
  {
    if ops != [] {
      var s, op := Life(g, ops[..|ops| - 1]), ops[|ops| - 1];
      LifeInvariant(g, ops[..|ops| - 1]);
      match op
      case Write(size) =>
        WriteKeepsSpaced(s, g, size);
        StepKeepsExact(s, g, op);
      case Kill(offset) =>
        KillKeepsSpaced(s, g, offset);
        StepKeepsExact(s, g, op);
      case Compact =>
        CompactKeepsSpaced(s, g);
        CompactionFreesSpace(s, g);
    }
    SpacedIsLayout(Life(g, ops), g.base);
  }

  /** The call succeeds, and every live block's old bytes are at its new place. */
  ghost predicate KeepsData(s: TrackerState, base: nat, buf: seq<byte>) {
    var (_, bytes, answer) := Execution(true, s, buf, base);
    var ps := Placements(LiveSorted(s.allocations), base);
    answer.Ok? && forall i :: 0 <= i < |ps| ==> Kept(buf, bytes, ps[i])
  }

  lemma KeepsDataIs(s: TrackerState, base: nat, buf: seq<byte>)
    requires ArenaLayout(LiveSorted(s.allocations), base) && Fits(LiveSorted(s.allocations), |buf|)
    ensures KeepsData(s, base, buf) <==> AllKept(Placements(LiveSorted(s.allocations), base), buf)
  {
    ExecutionSucceeds(s, buf, base);
  }

  lemma {:induction false} KeepsAllDataIff(s: TrackerState, base: nat, len: nat)
    requires ArenaLayout(LiveSorted(s.allocations), base) && Fits(LiveSorted(s.allocations), len)
    ensures (forall buf: seq<byte> {:trigger KeepsData(s, base, buf)} :: |buf| == len ==> KeepsData(s, base, buf))
            <==> DescendingSafe(LiveSorted(s.allocations), base)
  {
    var ps := Placements(LiveSorted(s.allocations), base);
    DescendingKeepsAllIff(LiveSorted(s.allocations), base, len);
    forall buf: seq<byte> | |buf| == len
      ensures KeepsData(s, base, buf) <==> AllKept(ps, buf)
    {
      KeepsDataIs(s, base, buf);
    }
  }

  /**
   After any life, a compaction of a buffer that holds the arena leaves the tracker that the life goes on
   with; and it keeps the data of every buffer if and only if the overlap check passes.
   */
  lemma {:induction false} LifeCompactionIff(g: Region, ops: seq<LifeOp>, len: nat)
    requires g.Sound() && g.capacity <= len
    ensures
      var s := Life(g, ops).tracker;
      && (forall buf: seq<byte> :: |buf| == len ==>
            Execution(true, s, buf, g.base).0 == Life(g, ops + [Compact]).tracker)
      && ((forall buf: seq<byte> {:trigger KeepsData(s, g.base, buf)} :: |buf| == len ==> KeepsData(s, g.base, buf))
          <==> DescendingSafe(LiveSorted(s.allocations), g.base))
  {
    var s := Life(g, ops).tracker;
    LifeInvariant(g, ops);
    KeepsAllDataIff(s, g.base, len);
    assert Life(g, ops + [Compact]).tracker == Compacted(s, g.base) by {
      assert (ops + [Compact])[..|ops|] == ops;
    }
    forall buf: seq<byte> | |buf| == len
      ensures Execution(true, s, buf, g.base).0 == Compacted(s, g.base)
    {
      ExecutionSucceeds(s, buf, g.base);
    }
  }
}
