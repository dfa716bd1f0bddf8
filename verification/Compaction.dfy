/**
 The compactor: where each live block goes, in which order the moves run, what a
 call answers, and for which arenas that order keeps the data.
 */
module Compaction {
  import opened Prelude
  import opened Allocation
  import opened SlidingMoves

  datatype CompactionConfig = CompactionConfig(fragmentationThreshold: real, minReclaimableBytes: nat)

  datatype CompactionPlan = CompactionPlan(moves: seq<Move>, bytesToReclaim: nat, newWritePos: nat)

  datatype CompactionResult = CompactionResult(
    offsetMap: map<nat, nat>, bytesReclaimed: nat, bytesUsed: nat,
    newGeneration: nat, allocationsMoved: nat, performed: bool)

  const NOT_PERFORMED: CompactionResult := CompactionResult(map[], 0, 0, 0, 0, false)

  datatype CompactionFailed = MoveOutOfBounds(oldStart: nat, newStart: nat, size: nat, bufferLen: nat)

  // ---------------------------------------------------------------------------
  // The plan
  // ---------------------------------------------------------------------------

  /** Where packing stands after the first `n` live blocks. */
  function PackedEnd(live: seq<AllocationEntry>, base: nat, n: nat): nat
    requires n <= |live|
  {
    if n == 0 then base else AlignUp(PackedEnd(live, base, n - 1)) + AlignSize(live[n - 1].size)
  }

  /** Live block `i` with the offset it is packed to. */
  function Placed(live: seq<AllocationEntry>, base: nat, i: nat): Move
    requires i < |live|
  {
    Move(live[i], AlignUp(PackedEnd(live, base, i)))
  }

  /** Every live block with the offset it is packed to. */
  function Placements(live: seq<AllocationEntry>, base: nat): (ps: seq<Move>)
    ensures |ps| == |live|
    ensures forall i {:trigger ps[i]} :: 0 <= i < |ps| ==>
              ps[i].entry == live[i] && ps[i].dest == AlignUp(PackedEnd(live, base, i))
  {
    seq(|live|, i requires 0 <= i < |live| => Placed(live, base, i))
  }

  function PlanOf(live: seq<AllocationEntry>, base: nat, dead: nat): CompactionPlan {
    CompactionPlan(Shifts(Placements(live, base)), dead, PackedEnd(live, base, |live|))
  }

  /** What one more block adds to the plan. */
  lemma {:induction false} PlanStep(live: seq<AllocationEntry>, base: nat, i: nat)
    requires i < |live|
    ensures
      var ps, to := Placements(live, base), AlignUp(PackedEnd(live, base, i));
      Shifts(ps[..i + 1]) == Shifts(ps[..i]) + (if live[i].offset != to then [Move(live[i], to)] else [])
    ensures PackedEnd(live, base, i + 1) == AlignUp(PackedEnd(live, base, i)) + AlignSize(live[i].size)
  {
    var ps := Placements(live, base);
    assert ps[..i + 1][..i] == ps[..i];
  }

  /**
   A tracker fed by the arena writer: live blocks start at multiples of 8 at or above the data region's
   start, each ends, rounded up, before the next begins, only the last may be empty, and none is so large
   that rounding it up leaves 32 bits.
   */
  ghost predicate ArenaLayout(live: seq<AllocationEntry>, base: nat) {
    && (forall i :: 0 <= i < |live| ==> Aligned(live[i].offset))
    && (forall i :: 0 <= i < |live| - 1 ==> live[i].size >= 1)
    && (forall i :: 0 <= i < |live| ==> live[i].size + 7 < U32_RANGE)
    && (|live| > 0 ==> base <= live[0].offset)
    && (forall i, j :: 0 <= i < j < |live| ==> live[i].offset + AlignUp(live[i].size) <= live[j].offset)
  }

  /** Any packing, whatever the layout, is ordered and free of overlap. */
  lemma {:induction false} PackingOrdered(live: seq<AllocationEntry>, base: nat, i: nat, j: nat)
    requires i < j <= |live|
    ensures base <= PackedEnd(live, base, i)
    ensures AlignUp(PackedEnd(live, base, i)) + AlignSize(live[i].size) <= PackedEnd(live, base, j)
    decreases j
  {
    if i < j - 1 {
      PackingOrdered(live, base, i, j - 1);
    } else if i > 0 {
      PackingOrdered(live, base, i - 1, i);
    }
  }

  /** A block is packed clear of the next one if and only if its size can be rounded up in 32 bits. */
  lemma PackedClearIff(live: seq<AllocationEntry>, base: nat, i: nat)
    requires i + 1 < |live|
    ensures
      var ps := Placements(live, base);
      ps[i].dest + live[i].size <= ps[i + 1].dest <==> live[i].size + 7 < U32_RANGE
  {
    var ps := Placements(live, base);
    PlanStep(live, base, i);
    if live[i].size + 7 >= U32_RANGE {
      AlignUpLeast(ps[i].dest, ps[i].dest);
      assert ps[i + 1].dest == ps[i].dest;
    }
  }

  /** On an arena layout no block moves up. */
  lemma {:induction false} DestBelowSource(live: seq<AllocationEntry>, base: nat, i: nat)
    requires ArenaLayout(live, base) && i < |live|
    ensures AlignUp(PackedEnd(live, base, i)) <= live[i].offset
  {
    if i > 0 {
      DestBelowSource(live, base, i - 1);
      assert live[i - 1].offset + AlignUp(live[i - 1].size) <= live[i].offset;
    }
    AlignUpLeast(PackedEnd(live, base, i), live[i].offset);
  }

  /** On an arena layout the placements slide: ordered and disjoint before and after, never upwards. */
  lemma {:induction false} PlacementsSlide(live: seq<AllocationEntry>, base: nat)
    requires ArenaLayout(live, base)
    ensures Sliding(Placements(live, base))
  {
    var ps := Placements(live, base);
    forall i | 0 <= i < |ps| ensures ps[i].dest <= ps[i].entry.offset {
      DestBelowSource(live, base, i);
    }
    forall i, j | 0 <= i < j < |ps|
      ensures ps[i].dest + ps[i].entry.size <= ps[j].dest
      ensures ps[i].entry.offset + ps[i].entry.size <= ps[j].entry.offset
    {
      PackingOrdered(live, base, i, j);
    }
  }

  function AlignedSize(live: seq<AllocationEntry>, n: nat): nat
    requires n <= |live|
  {
    if n == 0 then 0 else AlignedSize(live, n - 1) + AlignSize(live[n - 1].size)
  }

  /** The new write position is the start of the data region plus the rounded live sizes. */
  lemma {:induction false} WritePosIsPackedSize(live: seq<AllocationEntry>, base: nat, n: nat)
    requires n <= |live| && Aligned(base)
    ensures PackedEnd(live, base, n) == base + AlignedSize(live, n)
    ensures Aligned(PackedEnd(live, base, n))
  {
    if n > 0 {
      WritePosIsPackedSize(live, base, n - 1);
      AlignUpLeast(PackedEnd(live, base, n - 1), PackedEnd(live, base, n - 1));
      AlignedSum(PackedEnd(live, base, n - 1), AlignSize(live[n - 1].size));
    }
  }

  // ---------------------------------------------------------------------------
  // What the two orders do to the bytes
  // ---------------------------------------------------------------------------

  ghost predicate Fits(live: seq<AllocationEntry>, len: nat) {
    forall i :: 0 <= i < |live| ==> live[i].offset + live[i].size <= len
  }

  lemma {:induction false} LayoutHasRoom(live: seq<AllocationEntry>, base: nat, len: nat)
    requires ArenaLayout(live, base) && Fits(live, len)
    ensures Sliding(Placements(live, base)) && Room(Placements(live, base), len)
  {
    var ps := Placements(live, base);
    PlacementsSlide(live, base);
    forall i | 0 <= i < |ps| ensures ps[i].InBounds(len) {
      assert live[i].offset + live[i].size <= len;
    }
  }

  /** Ascending offset order keeps every live block, on every arena layout and every buffer. */
  lemma {:induction false} AscendingKeepsAll(buf: seq<byte>, live: seq<AllocationEntry>, base: nat)
    requires ArenaLayout(live, base) && Fits(live, |buf|)
    ensures
      var ps := Placements(live, base);
      var out := RunMoves(buf, Shifts(ps));
      out.refused == None && forall i :: 0 <= i < |ps| ==> Kept(buf, out.buffer, ps[i])
  {
    LayoutHasRoom(live, base, |buf|);
    AscendingRun(buf, Placements(live, base));
    forall i | 0 <= i < |live| {
      UpwardKeeps(buf, Placements(live, base), i);
    }
  }

  /** Do two byte ranges meet? */
  predicate Overlap(a: nat, aSize: nat, b: nat, bSize: nat) {
    aSize > 0 && bSize > 0 && a < b + bSize && b < a + aSize
  }

  /**
   The check a caller could make before compacting: no block's new range meets the old range of a
   lower block that still has to move.
   */
  predicate DescendingSafe(live: seq<AllocationEntry>, base: nat) {
    var ps := Placements(live, base);
    forall i, j :: 0 <= i < j < |ps| && ps[i].IsShift() ==>
      !Overlap(ps[j].dest, ps[j].entry.size, ps[i].entry.offset, ps[i].entry.size)
  }

  lemma {:induction false} SafeIsUnclobbered(live: seq<AllocationEntry>, base: nat)
    ensures DescendingSafe(live, base) <==> forall i :: 0 <= i < |live| ==> Unclobbered(Placements(live, base), i)
  {
    var ps := Placements(live, base);
    if forall i :: 0 <= i < |live| ==> Unclobbered(ps, i) {
      forall i, j | 0 <= i < j < |ps| && ps[i].IsShift()
        ensures !Overlap(ps[j].dest, ps[j].entry.size, ps[i].entry.offset, ps[i].entry.size)
      {
        assert Unclobbered(ps, i);
        var x := if ps[j].dest < ps[i].entry.offset then ps[i].entry.offset else ps[j].dest;
        assert !Clobbers(ps, i, j, x);
      }
    }
  }

  /**
   The program's order keeps all live data on every buffer if and only if the check passes; if it does
   not, some block is lost for some buffer contents.
   */
  lemma DescendingKeepsAllIff(live: seq<AllocationEntry>, base: nat, len: nat)
    requires ArenaLayout(live, base) && Fits(live, len)
    ensures
      var ps := Placements(live, base);
      (forall buf: seq<byte> {:trigger AllKept(ps, buf)} :: |buf| == len ==> AllKept(ps, buf))
      <==> DescendingSafe(live, base)
  {
    hide *;
    var ps := Placements(live, base);
    LayoutHasRoom(live, base, len);
    SafeIsUnclobbered(live, base);
    forall i | 0 <= i < |live| ensures KeptHighestFirst(ps, len, i) <==> Unclobbered(ps, i) {
      KeptHighestFirstIff(ps, len, i);
    }
    AllKeptIff(ps, len);
  }

  /** Two live 8-byte blocks behind a dead one at the start of the data region. */
  const SLIDING_PAIR: seq<AllocationEntry> := [AllocationEntry(136, 8, 1, true), AllocationEntry(144, 8, 1, true)]

  lemma SlidingPairPlaced()
    ensures ArenaLayout(SLIDING_PAIR, 128) && Fits(SLIDING_PAIR, 152)
    ensures Placements(SLIDING_PAIR, 128)[0] == Move(SLIDING_PAIR[0], 128)
    ensures Placements(SLIDING_PAIR, 128)[1] == Move(SLIDING_PAIR[1], 136)
  {
    AlignedIff(128);
    AlignedIff(136);
    AlignedIff(144);
    AlignUpLeast(128, 128);
    AlignUpLeast(136, 136);
    AlignUpLeast(8, 8);
    assert PackedEnd(SLIDING_PAIR, 128, 1) == 136;
  }

  /** Both slide down by 8, the upper one first: the lower one's bytes are lost. */
  lemma DescendingLosesData()
    ensures ArenaLayout(SLIDING_PAIR, 128) && Fits(SLIDING_PAIR, 152) && !DescendingSafe(SLIDING_PAIR, 128)
    ensures exists buf: seq<byte> :: |buf| == 152 &&
              AfterDescending(buf, Placements(SLIDING_PAIR, 128))[128] != buf[136]
  {
    var ps := Placements(SLIDING_PAIR, 128);
    SlidingPairPlaced();
    assert Clobbers(ps, 0, 1, 136);
    assert Overlap(ps[1].dest, ps[1].entry.size, ps[0].entry.offset, ps[0].entry.size);
    LayoutHasRoom(SLIDING_PAIR, 128, 152);
    var buf := ClobberedIsLost(ps, 152, 0, 1, 136);
  }

  // ---------------------------------------------------------------------------
  // The rebuilt tracker
  // ---------------------------------------------------------------------------

  /** Live block `i` at its new offset. */
  function Rehomed(live: seq<AllocationEntry>, base: nat, generation: nat, i: nat): AllocationEntry
    requires i < |live|
  {
    AllocationEntry(Placements(live, base)[i].dest, live[i].size, generation, true)
  }

  /** The live blocks at their new offsets. */
  function Relocated(live: seq<AllocationEntry>, base: nat, generation: nat): (r: seq<AllocationEntry>)
    ensures |r| == |live|
    ensures forall i {:trigger r[i]} :: 0 <= i < |r| ==>
              r[i] == AllocationEntry(Placements(live, base)[i].dest, live[i].size, generation, true)
  {
    seq(|live|, i requires 0 <= i < |live| => Rehomed(live, base, generation, i))
  }

  /** The pairs that inserting the moves one by one into a map leaves. */
  function OffsetMap(moves: seq<Move>): map<nat, nat> {
    if moves == [] then map[]
    else OffsetMap(moves[..|moves| - 1])[moves[|moves| - 1].entry.offset := moves[|moves| - 1].dest]
  }

  /** Every pair in the map comes from a move. */
  lemma {:induction false} OffsetMapFrom(moves: seq<Move>, o: nat) returns (i: nat)
    requires o in OffsetMap(moves)
    ensures i < |moves| && moves[i].entry.offset == o && moves[i].dest == OffsetMap(moves)[o]
  {
    var front, last := moves[..|moves| - 1], moves[|moves| - 1];
    if o == last.entry.offset {
      i := |front|;
    } else {
      i := OffsetMapFrom(front, o);
    }
  }

  /** Every move has its pair in the map. */
  lemma {:induction false} OffsetMapHas(moves: seq<Move>, i: nat)
    requires i < |moves|
    ensures moves[i].entry.offset in OffsetMap(moves)
  {
    if i < |moves| - 1 {
      OffsetMapHas(moves[..|moves| - 1], i);
    }
  }

  lemma {:induction false} ShiftFrom(ps: seq<Move>, i: nat) returns (k: nat)
    requires i < |Shifts(ps)|
    ensures i <= k < |ps| && Shifts(ps)[i] == ps[k] && ps[k].IsShift()
  {
    var front := ps[..|ps| - 1];
    if i < |Shifts(front)| {
      k := ShiftFrom(front, i);
    } else {
      k := |front|;
      ShiftsShorter(front);
    }
  }

  lemma {:induction false} ShiftsShorter(ps: seq<Move>)
    ensures |Shifts(ps)| <= |ps|
  {
    if ps != [] {
      ShiftsShorter(ps[..|ps| - 1]);
    }
  }

  lemma {:induction false} ShiftHas(ps: seq<Move>, k: nat) returns (i: nat)
    requires k < |ps| && ps[k].IsShift()
    ensures i < |Shifts(ps)| && Shifts(ps)[i] == ps[k]
  {
    if k < |ps| - 1 {
      i := ShiftHas(ps[..|ps| - 1], k);
    } else {
      i := |Shifts(ps)| - 1;
    }
  }

  function NewOffset(offsets: map<nat, nat>, o: nat): nat {
    if o in offsets then offsets[o] else o
  }

  /** A block that shifts is among the reversed moves, and they hold nothing but placements. */
  lemma ReversedShiftHas(ps: seq<Move>, k: nat) returns (i: nat)
    requires k < |ps| && ps[k].IsShift()
    ensures i < |Shifts(ps)| && Reverse(Shifts(ps))[i] == ps[k]
  {
    i := ShiftHas(ps, k);
    i := |Shifts(ps)| - 1 - i;
  }

  lemma ReversedShiftFrom(ps: seq<Move>, i: nat) returns (k: nat)
    requires i < |Shifts(ps)|
    ensures k < |ps| && Reverse(Shifts(ps))[i] == ps[k]
  {
    k := ShiftFrom(ps, |Shifts(ps)| - 1 - i);
  }

  /** Looking a block up in the offset map, with its old offset as the default, gives its destination. */
  lemma OffsetMapFinds(ps: seq<Move>, moves: seq<Move>, k: nat)
    requires k < |ps| && moves == Reverse(Shifts(ps))
    requires forall i, j :: 0 <= i < j < |ps| ==> ps[i].entry.offset < ps[j].entry.offset
    ensures NewOffset(OffsetMap(moves), ps[k].entry.offset) == ps[k].dest
  {
    var o := ps[k].entry.offset;
    if o in OffsetMap(moves) {
      var i := OffsetMapFrom(moves, o);
      var k' := ReversedShiftFrom(ps, i);
      assert k' == k;
    } else if ps[k].IsShift() {
      var i := ReversedShiftHas(ps, k);
      OffsetMapHas(moves, i);
    }
  }

  /** The offset map sends every live block, moved or not, to its place in the packing. */
  ghost predicate Finds(offsetMap: map<nat, nat>, live: seq<AllocationEntry>, base: nat) {
    forall i {:trigger Placements(live, base)[i]} ::
      0 <= i < |live| ==> NewOffset(offsetMap, live[i].offset) == Placements(live, base)[i].dest
  }

  lemma {:induction false} NewOffsetsAreDests(live: seq<AllocationEntry>, base: nat)
    requires SortedByOffset(live)
    ensures Finds(OffsetMap(Reverse(Shifts(Placements(live, base)))), live, base)
  {
    var ps := Placements(live, base);
    forall i | 0 <= i < |live|
      ensures NewOffset(OffsetMap(Reverse(Shifts(ps))), live[i].offset) == ps[i].dest
    {
      OffsetMapFinds(ps, Reverse(Shifts(ps)), i);
    }
  }

  lemma {:induction false} LiveBlocksFound(s: TrackerState, base: nat, moves: seq<Move>)
    requires s.Keyed() && moves == Reverse(Shifts(Placements(LiveSorted(s.allocations), base)))
    ensures Finds(OffsetMap(moves), LiveSorted(s.allocations), base)
  {
    LiveSortedFiled(s);
    NewOffsetsAreDests(LiveSorted(s.allocations), base);
  }

  lemma {:induction false} RelocatedSize(live: seq<AllocationEntry>, base: nat, generation: nat, n: nat)
    requires n <= |live|
    ensures SeqSize(Relocated(live, base, generation)[..n]) == SeqSize(live[..n])
    ensures SeqDead(Relocated(live, base, generation)[..n]) == 0
  {
    if n > 0 {
      var r := Relocated(live, base, generation);
      RelocatedSize(live, base, generation, n - 1);
      assert r[..n][..n - 1] == r[..n - 1] && live[..n][..n - 1] == live[..n - 1];
    }
  }

  lemma {:induction false} RelocatedTotals(live: seq<AllocationEntry>, base: nat, generation: nat)
    ensures SeqSize(Relocated(live, base, generation)) == SeqSize(live)
    ensures SeqDead(Relocated(live, base, generation)) == 0
  {
    var r := Relocated(live, base, generation);
    assert r[..|live|] == r && live[..|live|] == live;
    RelocatedSize(live, base, generation, |live|);
  }

  /** The tracker that a finished compaction leaves. */
  function Compacted(s: TrackerState, base: nat): TrackerState {
    var live := LiveSorted(s.allocations);
    var generation := (s.generation + 1) % U32_RANGE;
    TrackerState(Filed(Relocated(live, base, generation)), generation, SeqSize(live), 0)
  }

  /** Tracker, buffer and answer after a call of the compactor. */
  ghost function Execution(wanted: bool, s: TrackerState, buf: seq<byte>, base: nat)
    : (TrackerState, seq<byte>, Result<CompactionResult, CompactionFailed>)
  {
    var live := LiveSorted(s.allocations);
    var moves := Reverse(Shifts(Placements(live, base)));
    var out := RunMoves(buf, moves);
    if !wanted then (s, buf, Ok(NOT_PERFORMED))
    else if out.refused.Some? then
      var m := out.refused.value;
      (s, out.buffer, Err(MoveOutOfBounds(m.entry.offset, m.dest, m.entry.size, |buf|)))
    else
      var t := Compacted(s, base);
      (t, out.buffer,
       Ok(CompactionResult(OffsetMap(moves), s.totalDead, t.totalAllocated, t.generation, |moves|, true)))
  }

  /** On an arena layout inside the buffer no move is refused, so the call succeeds. */
  lemma {:induction false} ExecutionSucceeds(s: TrackerState, buf: seq<byte>, base: nat)
    requires ArenaLayout(LiveSorted(s.allocations), base) && Fits(LiveSorted(s.allocations), |buf|)
    ensures
      var (after, bytes, answer) := Execution(true, s, buf, base);
      && after == Compacted(s, base) && answer.Ok? && answer.value.performed
      && bytes == AfterDescending(buf, Placements(LiveSorted(s.allocations), base))
  {
    LayoutHasRoom(LiveSorted(s.allocations), base, |buf|);
    DescendingRun(buf, Placements(LiveSorted(s.allocations), base));
  }

  /**
   Compaction conserves the accounting: no live block is lost, nothing dead remains, the totals stay
   exact, and reclaimed plus used bytes are the bytes that were allocated before.
   */
  lemma {:induction false} CompactionConserves(s: TrackerState, base: nat)
    requires s.Keyed() && s.Exact() && ArenaLayout(LiveSorted(s.allocations), base)
    ensures
      var t := Compacted(s, base);
      && t.Keyed() && t.Exact() && t.totalDead == 0
      && LiveSorted(t.allocations) == Relocated(LiveSorted(s.allocations), base, t.generation)
      && |t.allocations| == |LiveSorted(s.allocations)|
      && s.totalDead + t.totalAllocated == s.totalAllocated
  {
    var live, t := LiveSorted(s.allocations), Compacted(s, base);
    var r := Relocated(live, base, t.generation);
    RelocatedSorted(live, base, t.generation);
    RelocatedTotals(live, base, t.generation);
    FiledKeepsAll(r);
    FiledSums(r);
    FiledFrom(r);
    LiveSize(s);
    SortedOfFiled(r);
  }

  lemma {:induction false} RelocatedSorted(live: seq<AllocationEntry>, base: nat, generation: nat)
    requires ArenaLayout(live, base)
    ensures SortedByOffset(Relocated(live, base, generation))
  {
    var r := Relocated(live, base, generation);
    forall i, j | 0 <= i < j < |live| ensures r[i].offset < r[j].offset {
      PackingOrdered(live, base, i, j);
      assert live[i].size >= 1;
    }
  }

  /** Filing live entries with ascending offsets and sorting them again gives them back. */
  lemma SortedOfFiled(r: seq<AllocationEntry>)
    requires SortedByOffset(r) && forall i :: 0 <= i < |r| ==> r[i].live
    ensures LiveSorted(Filed(r)) == r
  {
    var m := Filed(r);
    FiledKeepsAll(r);
    FiledFrom(r);
    LiveSortedIsLive(TrackerState(m, 0, 0, 0));
    LiveSortedFiled(TrackerState(m, 0, 0, 0));
    SameSorted(r, LiveSorted(m));
  }

  lemma {:induction false} SameSorted(a: seq<AllocationEntry>, b: seq<AllocationEntry>)
    requires SortedByOffset(a) && SortedByOffset(b)
    requires forall e: AllocationEntry :: e in a <==> e in b
    ensures a == b
  {
    assert a != [] ==> a[0] in b;
    assert b != [] ==> b[0] in a;
    if a != [] {
      assert a[0] == b[0];
      assert a == [a[0]] + a[1..] && b == [b[0]] + b[1..];
      forall e: AllocationEntry ensures e in a[1..] <==> e in b[1..] {
        assert e in a[1..] <==> e in a && e != a[0];
        assert e in b[1..] <==> e in b && e != b[0];
      }
      SameSorted(a[1..], b[1..]);
    }
  }

  /** The packing of the packed blocks ends where theirs does. */
  lemma {:induction false} ReplanEnd(live: seq<AllocationEntry>, base: nat, generation: nat, n: nat)
    requires n <= |live|
    ensures PackedEnd(Relocated(live, base, generation), base, n) == PackedEnd(live, base, n)
  {
    if n > 0 {
      ReplanEnd(live, base, generation, n - 1);
      assert Relocated(live, base, generation)[n - 1].size == live[n - 1].size;
    }
  }

  /** Planning again right after a compaction finds nothing to move and the same write position. */
  lemma {:induction false} ReplanIsIdle(live: seq<AllocationEntry>, base: nat, generation: nat, n: nat)
    requires n <= |live|
    ensures
      var r := Relocated(live, base, generation);
      && PackedEnd(r, base, n) == PackedEnd(live, base, n)
      && Shifts(Placements(r, base)[..n]) == []
  {
    hide PackedEnd, Placements, Relocated, AlignUp, AlignSize;
    var r := Relocated(live, base, generation);
    ReplanEnd(live, base, generation, n);
    if n > 0 {
      ReplanIsIdle(live, base, generation, n - 1);
      ReplanEnd(live, base, generation, n - 1);
      assert r[n - 1].offset == Placements(live, base)[n - 1].dest == AlignUp(PackedEnd(live, base, n - 1));
      PlanStep(r, base, n - 1);
    }
  }

  // ---------------------------------------------------------------------------
  // What a plan and a performed call answer
  // ---------------------------------------------------------------------------

  /** Every live block whose place differs from its offset is in the plan with that place, and nothing else. */
  lemma PlanMoves(live: seq<AllocationEntry>, base: nat, dead: nat)
    requires SortedByOffset(live)
    ensures
      var plan, ps := PlanOf(live, base, dead), Placements(live, base);
      && (forall m :: m in plan.moves <==> exists i :: 0 <= i < |live| && m == ps[i] && live[i].offset != m.dest)
      && forall i, j :: 0 <= i < j < |plan.moves| ==> plan.moves[i].entry.offset < plan.moves[j].entry.offset
  {
    var plan, ps := PlanOf(live, base, dead), Placements(live, base);
    ShiftsAscend(ps);
    forall m | m in plan.moves ensures exists i :: 0 <= i < |live| && m == ps[i] && live[i].offset != m.dest {
      var k :| 0 <= k < |plan.moves| && plan.moves[k] == m;
      var i := ShiftFrom(ps, k);
    }
    forall i | 0 <= i < |live| && live[i].offset != ps[i].dest ensures ps[i] in plan.moves {
      var k := ShiftHas(ps, i);
    }
  }

  /**
   The new write position is the data offset plus the rounded live sizes, and every block that can be rounded
   lies below it at its place, above the data offset.
   */
  lemma PlanEnd(live: seq<AllocationEntry>, base: nat, dead: nat)
    requires Aligned(base)
    ensures PlanOf(live, base, dead).newWritePos == base + AlignedSize(live, |live|)
    ensures forall i :: 0 <= i < |live| && live[i].size + 7 < U32_RANGE ==>
              base <= Placements(live, base)[i].dest
              && Placements(live, base)[i].dest + live[i].size <= PlanOf(live, base, dead).newWritePos
  {
    WritePosIsPackedSize(live, base, |live|);
    forall i | 0 <= i < |live| && live[i].size + 7 < U32_RANGE
      ensures base <= Placements(live, base)[i].dest
      ensures Placements(live, base)[i].dest + live[i].size <= PackedEnd(live, base, |live|)
    {
      PackingOrdered(live, base, i, |live|);
    }
  }

  /** A performed call answers with the place of every live block, an entry for each one that moved, and their number. */
  lemma AnswerMaps(s: TrackerState, buf: seq<byte>, base: nat)
    requires s.Keyed() && ArenaLayout(LiveSorted(s.allocations), base) && Fits(LiveSorted(s.allocations), |buf|)
    ensures
      var answer := Execution(true, s, buf, base).2;
      var live, ps := LiveSorted(s.allocations), Placements(LiveSorted(s.allocations), base);
      && answer.Ok? && answer.value.performed && Finds(answer.value.offsetMap, live, base)
      && (forall o :: o in answer.value.offsetMap <==> MovesFrom(ps, o))
      && answer.value.allocationsMoved == |answer.value.offsetMap|
  {
    hide Execution, LiveSorted, Placements, OffsetMap, Shifts, Reverse, Finds, ArenaLayout, Fits;
    var live := LiveSorted(s.allocations);
    var ps := Placements(live, base);
    PerformedAnswer(s, buf, base);
    LiveSortedFiled(s);
    LiveBlocksFound(s, base, Reverse(Shifts(ps)));
    SortedPlacements(live, base);
    OffsetMapKeys(ps);
  }

  lemma SortedPlacements(live: seq<AllocationEntry>, base: nat)
    requires SortedByOffset(live)
    ensures
      var ps := Placements(live, base);
      forall i, j :: 0 <= i < j < |ps| ==> ps[i].entry.offset < ps[j].entry.offset
  {
  }

  /** And with the bytes it has reclaimed and those in use; the new generation is that of the tracker. */
  lemma AnswerCounts(s: TrackerState, buf: seq<byte>, base: nat)
    requires s.Keyed() && ArenaLayout(LiveSorted(s.allocations), base) && Fits(LiveSorted(s.allocations), |buf|)
    ensures
      var (after, _, answer) := Execution(true, s, buf, base);
      && answer.Ok? && answer.value.newGeneration == after.generation == (s.generation + 1) % U32_RANGE
      && answer.value.bytesUsed == after.totalAllocated - after.totalDead == SeqSize(LiveSorted(s.allocations))
      && (s.Exact() ==> answer.value.bytesReclaimed == DeadSum(s.allocations)
                        && answer.value.bytesReclaimed + answer.value.bytesUsed == s.totalAllocated)
  {
    hide Execution, LiveSorted, Placements, OffsetMap, Shifts, Reverse, ArenaLayout, Fits;
    PerformedAnswer(s, buf, base);
    LiveSize(s);
  }

  lemma {:induction false} PerformedAnswer(s: TrackerState, buf: seq<byte>, base: nat)
    requires ArenaLayout(LiveSorted(s.allocations), base) && Fits(LiveSorted(s.allocations), |buf|)
    ensures
      var (after, bytes, answer) := Execution(true, s, buf, base);
      var moves := Reverse(Shifts(Placements(LiveSorted(s.allocations), base)));
      && answer.Ok? && answer.value.performed && after == Compacted(s, base)
      && answer.value.offsetMap == OffsetMap(moves) && answer.value.allocationsMoved == |moves|
      && answer.value.newGeneration == after.generation && answer.value.bytesUsed == after.totalAllocated
      && answer.value.bytesReclaimed == s.totalDead
  {
    LayoutHasRoom(LiveSorted(s.allocations), base, |buf|);
    DescendingRun(buf, Placements(LiveSorted(s.allocations), base));
  }

  /** The block at that offset moves. */
  ghost predicate MovesFrom(ps: seq<Move>, o: nat) {
    exists i :: 0 <= i < |ps| && ps[i].entry.offset == o && ps[i].dest != o
  }

  /** The offset map of some ascending placements has an entry for each one that moves, and no more. */
  lemma OffsetMapKeys(ps: seq<Move>)
    requires forall i, j :: 0 <= i < j < |ps| ==> ps[i].entry.offset < ps[j].entry.offset
    ensures |OffsetMap(Reverse(Shifts(ps)))| == |Shifts(ps)|
    ensures forall o :: o in OffsetMap(Reverse(Shifts(ps))) <==> MovesFrom(ps, o)
  {
    hide OffsetMap, Shifts, Reverse;
    var moves := Reverse(Shifts(ps));
    ReverseSortsDescending(ps);
    DistinctKeysCounted(moves);
    forall o ensures o in OffsetMap(moves) <==> MovesFrom(ps, o) {
      if o in OffsetMap(moves) {
        var i := OffsetMapFrom(moves, o);
        var k := ShiftFrom(ps, |moves| - 1 - i);
      }
      if MovesFrom(ps, o) {
        var k :| 0 <= k < |ps| && ps[k].entry.offset == o && ps[k].dest != o;
        var i := ReversedShiftHas(ps, k);
        OffsetMapHas(moves, i);
      }
    }
  }

  lemma {:induction false} DistinctKeysCounted(moves: seq<Move>)
    requires forall i, j :: 0 <= i < j < |moves| ==> moves[i].entry.offset > moves[j].entry.offset
    ensures |OffsetMap(moves)| == |moves|
  {
    if moves != [] {
      var front, last := moves[..|moves| - 1], moves[|moves| - 1];
      DistinctKeysCounted(front);
      assert forall i :: 0 <= i < |front| ==> front[i].entry.offset > last.entry.offset;
      if last.entry.offset in OffsetMap(front) {
        var i := OffsetMapFrom(front, last.entry.offset);
      }
    }
  }

  /** A share of some bytes reaches a threshold if and only if the part does, measured against the whole. */
  lemma ShareIff(part: real, whole: real, share: real, threshold: real)
    requires whole >= 0.0 && part >= 0.0 && (whole > 0.0 ==> share * whole == part) && (whole == 0.0 ==> share == 0.0)
    ensures share >= threshold <==> part >= threshold * whole && (whole == 0.0 ==> threshold <= 0.0)
  {
    if whole > 0.0 {
      assert (share - threshold) * whole == part - threshold * whole;
      if share >= threshold {
        assert (share - threshold) * whole >= 0.0;
      } else {
        assert (threshold - share) * whole > 0.0;
      }
    }
  }

  // ---------------------------------------------------------------------------
  // The compactor object
  // ---------------------------------------------------------------------------

  class ArenaCompactor {
    const config: CompactionConfig

    constructor (config: CompactionConfig)
      ensures this.config == config
    {
      this.config := config;
    }

    /** Are there enough dead bytes, as a share of all bytes and in themselves? */
    predicate ShouldCompact(tracker: AllocationTracker)
      reads tracker
      ensures ShouldCompact(tracker) <==>
              && tracker.totalDead >= config.minReclaimableBytes
              && tracker.totalDead as real >= config.fragmentationThreshold * tracker.totalAllocated as real
              && (tracker.totalAllocated == 0 ==> config.fragmentationThreshold <= 0.0)
    {
      ShareIff(tracker.totalDead as real, tracker.totalAllocated as real, tracker.FragmentationRatio(),
               config.fragmentationThreshold);
      tracker.FragmentationRatio() >= config.fragmentationThreshold
      && tracker.totalDead >= config.minReclaimableBytes
    }

    /** The packing loop. */
    method Pack(live: seq<AllocationEntry>, dataOffset: nat) returns (moves: seq<Move>, currentPos: nat)
      ensures moves == Shifts(Placements(live, dataOffset))
      ensures currentPos == PackedEnd(live, dataOffset, |live|)
    {
      moves, currentPos := [], dataOffset;
      ghost var ps := Placements(live, dataOffset);
      for i := 0 to |live|
        invariant moves == Shifts(ps[..i])
        invariant currentPos == PackedEnd(live, dataOffset, i)
      {
        var alignedPos := RoundUp8(currentPos);
        PlanStep(live, dataOffset, i);
        if live[i].offset != alignedPos {
          moves := moves + [Move(live[i], alignedPos)];
        }
        currentPos := alignedPos + RoundUp8In32(live[i].size);
      }
      assert ps[..|live|] == ps;
    }

    /** Its moves, the bytes it reclaims and the new write position: PlanMoves and PlanEnd say what they are. */
    method Plan(tracker: AllocationTracker, dataOffset: nat) returns (plan: CompactionPlan)
      ensures plan == PlanOf(LiveSorted(tracker.allocations), dataOffset, tracker.totalDead)
      ensures plan.bytesToReclaim == tracker.totalDead
    {
      var live := tracker.GetLiveAllocations();
      var moves, newWritePos := Pack(live, dataOffset);
      return CompactionPlan(moves, tracker.totalDead, newWritePos);
    }

    /** A byte-by-byte copy towards higher addresses, last byte first. */
    method CopyUp(buffer: array<byte>, oldStart: nat, newStart: nat, size: nat)
      requires oldStart < newStart && newStart + size <= buffer.Length
      modifies buffer
      ensures forall x :: 0 <= x < buffer.Length ==>
        buffer[x] == old(if newStart <= x < newStart + size then buffer[oldStart + x - newStart] else buffer[x])
    {
      for i := size downto 0
        invariant forall x :: 0 <= x < newStart + i ==> buffer[x] == old(buffer[x])
        invariant forall x :: newStart + i <= x < newStart + size ==> buffer[x] == old(buffer[oldStart + x - newStart])
        invariant forall x :: newStart + size <= x < buffer.Length ==> buffer[x] == old(buffer[x])
      {
        buffer[newStart + i] := buffer[oldStart + i];
      }
    }

    /** A byte-by-byte copy towards lower addresses, first byte first. */
    method CopyDown(buffer: array<byte>, oldStart: nat, newStart: nat, size: nat)
      requires oldStart > newStart && oldStart + size <= buffer.Length
      modifies buffer
      ensures forall x :: 0 <= x < buffer.Length ==>
        buffer[x] == old(if newStart <= x < newStart + size then buffer[oldStart + x - newStart] else buffer[x])
    {
      for i := 0 to size
        invariant forall x :: 0 <= x < newStart ==> buffer[x] == old(buffer[x])
        invariant forall x :: newStart <= x < newStart + i ==> buffer[x] == old(buffer[oldStart + x - newStart])
        invariant forall x :: newStart + i <= x < buffer.Length ==> buffer[x] == old(buffer[x])
      {
        buffer[newStart + i] := buffer[oldStart + i];
      }
    }

    /** A copy inside one buffer, from the end that overlap cannot spoil. */
    method CopyWithin(buffer: array<byte>, m: Move)
      requires m.InBounds(buffer.Length)
      modifies buffer
      ensures buffer[..] == Copied(old(buffer[..]), m)
    {
      var oldStart, newStart, size := m.entry.offset, m.dest, m.entry.size;
      if oldStart < newStart {
        CopyUp(buffer, oldStart, newStart, size);
      } else if oldStart > newStart {
        CopyDown(buffer, oldStart, newStart, size);
      }
    }

    /** The moves in turn, stopping at the first that leaves the buffer. */
    method MoveAll(buffer: array<byte>, moves: seq<Move>)
      returns (offsetMap: map<nat, nat>, failed: Option<CompactionFailed>)
      modifies buffer
      ensures
        var out := RunMoves(old(buffer[..]), moves);
        && buffer[..] == out.buffer
        && (out.refused == None ==> failed == None && offsetMap == OffsetMap(moves))
        && (out.refused.Some? ==>
              var m := out.refused.value;
              failed == Some(MoveOutOfBounds(m.entry.offset, m.dest, m.entry.size, buffer.Length)))
    {
      offsetMap := map[];
      for i := 0 to |moves|
        invariant RunMoves(buffer[..], moves[i..]) == RunMoves(old(buffer[..]), moves)
        invariant offsetMap == OffsetMap(moves[..i])
      {
        var m := moves[i];
        assert moves[i..][0] == m && moves[i..][1..] == moves[i + 1..];
        assert moves[..i + 1][..i] == moves[..i];
        if !m.InBounds(buffer.Length) {
          return offsetMap, Some(MoveOutOfBounds(m.entry.offset, m.dest, m.entry.size, buffer.Length));
        }
        CopyWithin(buffer, m);
        offsetMap := offsetMap[m.entry.offset := m.dest];
      }
      assert moves[..|moves|] == moves;
      failed := None;
    }

    /** The live blocks under the offsets that the map gives them. */
    method Relocate(live: seq<AllocationEntry>, offsetMap: map<nat, nat>, generation: nat, ghost base: nat)
      returns (entries: seq<AllocationEntry>)
      requires Finds(offsetMap, live, base)
      ensures entries == Relocated(live, base, generation)
    {
      entries := [];
      for i := 0 to |live|
        invariant |entries| == i
        invariant forall k :: 0 <= k < i ==>
          entries[k] == AllocationEntry(NewOffset(offsetMap, live[k].offset), live[k].size, generation, true)
      {
        var offset := if live[i].offset in offsetMap then offsetMap[live[i].offset] else live[i].offset;
        entries := entries + [AllocationEntry(offset, live[i].size, generation, true)];
      }
    }

    /** A new generation, with the live blocks filed under their new offsets. */
    method UpdateTracker(
        tracker: AllocationTracker, live: seq<AllocationEntry>, offsetMap: map<nat, nat>, ghost base: nat)
      requires Finds(offsetMap, live, base)
      modifies tracker
      ensures tracker.generation == (old(tracker.generation) + 1) % U32_RANGE
      ensures tracker.State() == TrackerState(
        Filed(Relocated(live, base, tracker.generation)), tracker.generation, SeqSize(live), 0)
    {
      var generation := tracker.IncrementGeneration();
      var entries := Relocate(live, offsetMap, generation, base);
      RelocatedTotals(live, base, generation);
      tracker.Rebuild(entries);
    }

    method Execute(tracker: AllocationTracker, buffer: array<byte>, dataOffset: nat)
      returns (r: Result<CompactionResult, CompactionFailed>)
      requires tracker.State().Keyed()
      modifies tracker, buffer
      ensures old(!ShouldCompact(tracker)) ==>
                && tracker.State() == old(tracker.State()) && buffer[..] == old(buffer[..])
                && r == Ok(CompactionResult(map[], 0, 0, 0, 0, false))
      ensures r.Ok? && old(ShouldCompact(tracker)) ==> r.value.performed
      ensures
        (tracker.State(), buffer[..], r)
        == Execution(old(ShouldCompact(tracker)), old(tracker.State()), old(buffer[..]), dataOffset)
    {
      hide LiveSorted, Shifts, RunMoves, Filed;
      if !ShouldCompact(tracker) {
        return Ok(NOT_PERFORMED);
      }
      var plan := Plan(tracker, dataOffset);
      // Sorting by descending offset reverses a list that ascends.
      var movesSorted := Reverse(plan.moves);
      var offsetMap, failed := MoveAll(buffer, movesSorted);
      if failed.Some? {
        return Err(failed.value);
      }
      var live := tracker.GetLiveAllocations();
      LiveBlocksFound(tracker.State(), dataOffset, movesSorted);
      UpdateTracker(tracker, live, offsetMap, dataOffset);
      return Ok(CompactionResult(
          offsetMap, plan.bytesToReclaim, tracker.TotalLive(), tracker.generation, |movesSorted|, true));
    }
  }

  /** The plan lists its moves by ascending offset, so reversing it is the descending sort. */
  lemma ReverseSortsDescending(ps: seq<Move>)
    requires forall i, j :: 0 <= i < j < |ps| ==> ps[i].entry.offset < ps[j].entry.offset
    ensures forall i, j :: 0 <= i < j < |Shifts(ps)| ==>
              Reverse(Shifts(ps))[i].entry.offset > Reverse(Shifts(ps))[j].entry.offset
    ensures multiset(Reverse(Shifts(ps))) == multiset(Shifts(ps))
  {
    ShiftsAscend(ps);
    ReversePermutes(Shifts(ps));
  }

  lemma {:induction false} ShiftsAscend(ps: seq<Move>)
    requires forall i, j :: 0 <= i < j < |ps| ==> ps[i].entry.offset < ps[j].entry.offset
    ensures forall i, j :: 0 <= i < j < |Shifts(ps)| ==> Shifts(ps)[i].entry.offset < Shifts(ps)[j].entry.offset
    decreases |ps|
  {
    if ps != [] {
      var front := ps[..|ps| - 1];
      ShiftsAscend(front);
      forall i | 0 <= i < |Shifts(front)| ensures Shifts(front)[i].entry.offset < ps[|ps| - 1].entry.offset {
        var k := ShiftFrom(front, i);
        assert front[k] == ps[k];
      }
    }
  }

  // ---------------------------------------------------------------------------
  // A refused call
  // ---------------------------------------------------------------------------

  /** The moves of a call, in the order in which they are made. */
  function MovesOf(s: TrackerState, base: nat): seq<Move> {
    Reverse(Shifts(Placements(LiveSorted(s.allocations), base)))
  }

  lemma MovesShift(s: TrackerState, base: nat)
    ensures forall i :: 0 <= i < |MovesOf(s, base)| ==> MovesOf(s, base)[i].IsShift()
  {
    hide LiveSorted, Placements;
    var ps := Placements(LiveSorted(s.allocations), base);
    var moves := MovesOf(s, base);
    forall i | 0 <= i < |moves| ensures moves[i].IsShift() {
      var k := ShiftFrom(ps, |moves| - 1 - i);
    }
  }

  /** A call stops where its moves do, with the buffer as they left it. */
  lemma ExecutionStops(s: TrackerState, buf: seq<byte>, base: nat)
    requires Performed(MovesOf(s, base), |buf|) < |MovesOf(s, base)|
    ensures
      var (after, bytes, answer) := Execution(true, s, buf, base);
      var m := MovesOf(s, base)[Performed(MovesOf(s, base), |buf|)];
      && after == s && bytes == RunMoves(buf, MovesOf(s, base)).buffer
      && answer == Err(MoveOutOfBounds(m.entry.offset, m.dest, m.entry.size, |buf|))
  {
    hide LiveSorted, Placements, RunMoves, Performed, Shifts, Reverse;
    PerformedIff(buf, MovesOf(s, base));
  }

  /** The tracker of a refused call is untouched; every buffer is if and only if the moves made so far were empty. */
  lemma RefusedLeavesIff(s: TrackerState, base: nat, len: nat)
    requires Performed(MovesOf(s, base), len) < |MovesOf(s, base)|
    ensures
      var m := MovesOf(s, base)[Performed(MovesOf(s, base), len)];
      forall buf: seq<byte> :: |buf| == len ==>
        && Execution(true, s, buf, base).2 == Err(MoveOutOfBounds(m.entry.offset, m.dest, m.entry.size, len))
        && Execution(true, s, buf, base).0 == s
    ensures (forall buf: seq<byte> :: |buf| == len ==> Execution(true, s, buf, base).1 == buf)
            <==> forall k :: 0 <= k < Performed(MovesOf(s, base), len) ==> MovesOf(s, base)[k].entry.size == 0
  {
    hide MovesOf, Execution, RunMoves, Performed;
    MovesShift(s, base);
    UnchangedIff(MovesOf(s, base), len);
    forall buf: seq<byte> | |buf| == len
      ensures
        var m := MovesOf(s, base)[Performed(MovesOf(s, base), len)];
        && Execution(true, s, buf, base).2 == Err(MoveOutOfBounds(m.entry.offset, m.dest, m.entry.size, len))
        && Execution(true, s, buf, base).0 == s
      ensures Execution(true, s, buf, base).1 == RunMoves(buf, MovesOf(s, base)).buffer
    {
      ExecutionStops(s, buf, base);
    }
  }

  lemma {:induction false} AllPerformed(moves: seq<Move>, len: nat)
    requires forall i :: 0 <= i < |moves| ==> moves[i].InBounds(len)
    ensures Performed(moves, len) == |moves|
  {
    if moves != [] {
      AllPerformed(moves[1..], len);
    }
  }

  /** Of sliding blocks that change their offset, those below one inside the buffer are inside it too. */
  lemma LowerFits(ps: seq<Move>, len: nat, k: nat, top: nat)
    requires Sliding(ps) && k < |ps| && top < |ps| && ps[top].InBounds(len)
    requires k == top || ps[k].entry.offset < ps[top].entry.offset
    ensures ps[k].InBounds(len)
  {
    assert k <= top;
  }

  /** On an arena layout a call is refused at its first move, with the buffer untouched, or not at all. */
  lemma LayoutRefusedAtOnce(s: TrackerState, base: nat, len: nat)
    requires ArenaLayout(LiveSorted(s.allocations), base)
    ensures Performed(MovesOf(s, base), len) in {0, |MovesOf(s, base)|}
  {
    hide LiveSorted, Performed, Shifts, Reverse;
    var ps, moves := Placements(LiveSorted(s.allocations), base), MovesOf(s, base);
    PlacementsSlide(LiveSorted(s.allocations), base);
    forall i, j | 0 <= i < j < |ps| ensures ps[i].entry.offset < ps[j].entry.offset {
      assert ps[i].entry.size >= 1;
    }
    ReverseSortsDescending(ps);
    ReversedMoves(ps, moves, len);
  }

  lemma {:induction false} ReversedMoves(ps: seq<Move>, moves: seq<Move>, len: nat)
    requires Sliding(ps) && moves == Reverse(Shifts(ps))
    requires forall i, j :: 0 <= i < j < |moves| ==> moves[i].entry.offset > moves[j].entry.offset
    ensures Performed(moves, len) in {0, |moves|}
  {
    if moves != [] && moves[0].InBounds(len) {
      var top := ShiftFrom(ps, |moves| - 1);
      forall i | 0 <= i < |moves| ensures moves[i].InBounds(len) {
        var k := ShiftFrom(ps, |moves| - 1 - i);
        assert ps[k] == moves[i] && ps[top] == moves[0];
        LowerFits(ps, len, k, if i == 0 then k else top);
      }
      AllPerformed(moves, len);
    }
  }

  /** A block too large to be rounded, and a small one inside it. */
  const WIDE_PAIR: seq<AllocationEntry> :=
    [AllocationEntry(8, 0xFFFF_FFFF, 1, true), AllocationEntry(16, 8, 1, true)]

  /** Both are packed onto the same place. */
  lemma WidePairPlaced()
    ensures Placements(WIDE_PAIR, 0)[0] == Move(WIDE_PAIR[0], 0)
    ensures Placements(WIDE_PAIR, 0)[1] == Move(WIDE_PAIR[1], 0)
  {
    AlignUpLeast(0, 0);
    assert PackedEnd(WIDE_PAIR, 0, 1) == 0;
  }

  lemma WidePairShifts()
    ensures Shifts(Placements(WIDE_PAIR, 0)) == [Move(WIDE_PAIR[0], 0), Move(WIDE_PAIR[1], 0)]
  {
    hide Placements;
    WidePairPlaced();
    var ps := Placements(WIDE_PAIR, 0);
    assert ps[..1] == [ps[0]] && ps[..1][..0] == [] && Shifts([]) == [];
    assert Shifts(ps[..1]) == [ps[0]];
  }

  /** In a buffer of 64 bytes the small one is moved before the large one is refused. */
  lemma RefusedHalfWay()
    ensures
      var s := TrackerState(Filed(WIDE_PAIR), 1, SeqSize(WIDE_PAIR), 0);
      && s.Keyed() && Performed(MovesOf(s, 0), 64) == 1 < |MovesOf(s, 0)| && MovesOf(s, 0)[0].entry.size > 0
  {
    hide LiveSorted, Placements, Shifts, Filed, SeqSize;
    FiledFrom(WIDE_PAIR);
    SortedOfFiled(WIDE_PAIR);
    WidePairShifts();
    var small, large := Move(WIDE_PAIR[1], 0), Move(WIDE_PAIR[0], 0);
    var moves := Reverse([large, small]);
    assert moves[0] == small && moves[1..][0] == large;
    assert !large.InBounds(64) && Performed(moves[1..], 64) == 0;
  }
}
