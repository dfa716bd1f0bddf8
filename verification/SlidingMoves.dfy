/**
 In-place moves of disjoint blocks that slide towards lower addresses, one
 after another, and what the two processing orders do to the blocks' bytes.
 */
module SlidingMoves {
  import opened Prelude
  import opened Allocation

  /** A block and the offset it is to be found at afterwards. */
  datatype Move = Move(entry: AllocationEntry, dest: nat) {
    predicate IsShift() {
      entry.offset != dest
    }

    predicate InBounds(len: nat) {
      entry.offset + entry.size <= len && dest + entry.size <= len
    }

    /** Does the move's destination contain `x`? */
    predicate Writes(x: int) {
      dest <= x < dest + entry.size
    }

    /** Is `x` one of the bytes the move copies? */
    predicate Reads(x: int) {
      entry.offset <= x < entry.offset + entry.size
    }
  }

  /** A copy as if through a separate buffer. */
  function Copied(buf: seq<byte>, m: Move): (r: seq<byte>)
    requires m.InBounds(|buf|)
    ensures |r| == |buf|
    ensures forall x {:trigger r[x]} :: 0 <= x < |buf| ==>
              r[x] == if m.Writes(x) then buf[m.entry.offset + (x - m.dest)] else buf[x]
  {
    var src, dst, size := m.entry.offset, m.dest, m.entry.size;
    buf[..dst] + buf[src..src + size] + buf[dst + size..]
  }

  /** The buffer after a list of moves, and the move that was refused, if any. */
  datatype MoveOutcome = MoveOutcome(buffer: seq<byte>, refused: Option<Move>)

  function RunMoves(buf: seq<byte>, moves: seq<Move>): (r: MoveOutcome)
    ensures |r.buffer| == |buf|
    decreases |moves|
  {
    if moves == [] then MoveOutcome(buf, None)
    else if !moves[0].InBounds(|buf|) then MoveOutcome(buf, Some(moves[0]))
    else RunMoves(Copied(buf, moves[0]), moves[1..])
  }

  lemma {:induction false} RunMovesSnoc(buf: seq<byte>, moves: seq<Move>, m: Move)
    requires RunMoves(buf, moves).refused.None? && m.InBounds(|buf|)
    ensures RunMoves(buf, moves + [m]) == MoveOutcome(Copied(RunMoves(buf, moves).buffer, m), None)
    decreases |moves|
  {
    if moves == [] {
      assert (moves + [m])[1..] == [];
    } else {
      assert (moves + [m])[1..] == moves[1..] + [m];
      RunMovesSnoc(Copied(buf, moves[0]), moves[1..], m);
    }
  }

  /** The placements that change an offset, in the same order. */
  function Shifts(ps: seq<Move>): seq<Move> {
    if ps == [] then []
    else Shifts(ps[..|ps| - 1]) + (if ps[|ps| - 1].IsShift() then [ps[|ps| - 1]] else [])
  }

  /** Blocks ascend without overlap, before and after, and none moves up. */
  ghost predicate Sliding(ps: seq<Move>) {
    && (forall i :: 0 <= i < |ps| ==> ps[i].dest <= ps[i].entry.offset)
    && (forall i, j :: 0 <= i < j < |ps| ==>
          && ps[i].dest + ps[i].entry.size <= ps[j].dest
          && ps[i].entry.offset + ps[i].entry.size <= ps[j].entry.offset)
  }

  /** Every block lies inside a buffer of `len` bytes; a sliding block then also lands inside it. */
  ghost predicate Room(ps: seq<Move>, len: nat) {
    forall i :: 0 <= i < |ps| ==> ps[i].InBounds(len)
  }

  /** The block's old bytes are found at its destination. */
  ghost predicate Kept(before: seq<byte>, after: seq<byte>, m: Move) {
    && |before| == |after| && m.InBounds(|before|)
    && forall x :: m.Writes(x) ==> after[x] == before[m.entry.offset + (x - m.dest)]
  }

  // ---------------------------------------------------------------------------
  // Lowest block first
  // ---------------------------------------------------------------------------

  /** All blocks placed, lowest first; one that is already in place is copied onto itself. */
  ghost function Upward(buf: seq<byte>, ps: seq<Move>): (r: seq<byte>)
    requires Room(ps, |buf|)
    ensures |r| == |buf|
    decreases |ps|
  {
    if ps == [] then buf else Copied(Upward(buf, ps[..|ps| - 1]), ps[|ps| - 1])
  }

  lemma {:induction false} AscendingRun(buf: seq<byte>, ps: seq<Move>)
    requires Room(ps, |buf|)
    ensures RunMoves(buf, Shifts(ps)) == MoveOutcome(Upward(buf, ps), None)
    decreases |ps|
  {
    if ps != [] {
      var front, last := ps[..|ps| - 1], ps[|ps| - 1];
      AscendingRun(buf, front);
      if last.IsShift() {
        RunMovesSnoc(buf, Shifts(front), last);
      } else {
        assert Shifts(ps) == Shifts(front);
        assert Copied(Upward(buf, front), last) == Upward(buf, front);
      }
    }
  }

  /** No destination covers `x`. */
  ghost predicate Untouched(ps: seq<Move>, x: int) {
    forall i :: 0 <= i < |ps| ==> !ps[i].Writes(x)
  }

  /** Neither the source nor the destination of the highest block meets a lower destination. */
  lemma LastIsClear(ps: seq<Move>, x: int)
    requires Sliding(ps) && ps != []
    requires ps[|ps| - 1].Reads(x) || ps[|ps| - 1].Writes(x)
    ensures Untouched(ps[..|ps| - 1], x)
  {
    var last := ps[|ps| - 1];
    forall i | 0 <= i < |ps| - 1 ensures !ps[i].Writes(x) {
      assert ps[i].dest + ps[i].entry.size <= last.dest <= last.entry.offset;
    }
  }

  /** Placing the highest block leaves a lower block's destination alone. */
  lemma KeptUnderLast(before: seq<byte>, prev: seq<byte>, ps: seq<Move>, i: nat)
    requires Sliding(ps) && i < |ps| - 1 && |before| == |prev| && ps[|ps| - 1].InBounds(|before|)
    requires Kept(before, prev, ps[i])
    ensures Kept(before, Copied(prev, ps[|ps| - 1]), ps[i])
  {
    assert ps[i].dest + ps[i].entry.size <= ps[|ps| - 1].dest;
  }

  lemma {:induction false} UpwardFrame(buf: seq<byte>, ps: seq<Move>, x: int)
    requires Room(ps, |buf|) && 0 <= x < |buf| && Untouched(ps, x)
    ensures Upward(buf, ps)[x] == buf[x]
    decreases |ps|
  {
    if ps != [] {
      assert !ps[|ps| - 1].Writes(x);
      UpwardFrame(buf, ps[..|ps| - 1], x);
    }
  }

  /** When the highest block's turn comes, its source is still intact. */
  lemma {:induction false} HighestPlaced(buf: seq<byte>, ps: seq<Move>)
    requires ps != [] && Sliding(ps) && Room(ps, |buf|)
    ensures Kept(buf, Upward(buf, ps), ps[|ps| - 1])
  {
    var front, last := ps[..|ps| - 1], ps[|ps| - 1];
    assert last.InBounds(|buf|);
    forall x | last.Reads(x) ensures Upward(buf, front)[x] == buf[x] {
      LastIsClear(ps, x);
      UpwardFrame(buf, front, x);
    }
  }

  /** Lowest first keeps every block. */
  lemma {:induction false} UpwardKeeps(buf: seq<byte>, ps: seq<Move>, i: nat)
    requires i < |ps| && Sliding(ps) && Room(ps, |buf|)
    ensures Kept(buf, Upward(buf, ps), ps[i])
    decreases |ps|
  {
    if i < |ps| - 1 {
      UpwardKeeps(buf, ps[..|ps| - 1], i);
      KeptUnderLast(buf, Upward(buf, ps[..|ps| - 1]), ps, i);
    } else {
      HighestPlaced(buf, ps);
    }
  }

  // ---------------------------------------------------------------------------
  // Highest block first
  // ---------------------------------------------------------------------------

  /** All blocks placed, highest first. */
  ghost function Downward(buf: seq<byte>, ps: seq<Move>): (r: seq<byte>)
    requires Room(ps, |buf|)
    ensures |r| == |buf|
    decreases |ps|
  {
    if ps == [] then buf else Downward(Copied(buf, ps[|ps| - 1]), ps[..|ps| - 1])
  }

  lemma {:induction false} DescendingRun(buf: seq<byte>, ps: seq<Move>)
    requires Room(ps, |buf|)
    ensures RunMoves(buf, Reverse(Shifts(ps))) == MoveOutcome(Downward(buf, ps), None)
    decreases |ps|
  {
    if ps != [] {
      var front, last := ps[..|ps| - 1], ps[|ps| - 1];
      var next := Copied(buf, last);
      DescendingRun(next, front);
      if last.IsShift() {
        assert Reverse(Shifts(ps))[1..] == Reverse(Shifts(front));
      } else {
        assert Shifts(ps) == Shifts(front);
        assert next == buf;
      }
    }
  }

  /** A byte that no destination covers stays. */
  lemma {:induction false} DownwardFrame(buf: seq<byte>, ps: seq<Move>, x: nat)
    requires Room(ps, |buf|) && x < |buf|
    requires Untouched(ps, x)
    ensures Downward(buf, ps)[x] == buf[x]
    decreases |ps|
  {
    if ps != [] {
      assert !ps[|ps| - 1].Writes(x);
      DownwardFrame(Copied(buf, ps[|ps| - 1]), ps[..|ps| - 1], x);
    }
  }

  /** Some block above `i` lands on a byte that block `i` has yet to be copied from. */
  ghost predicate Clobbers(ps: seq<Move>, i: nat, j: nat, x: int)
    requires i < |ps| && j < |ps|
  {
    i < j && ps[i].IsShift() && ps[j].Writes(x) && ps[i].Reads(x)
  }

  ghost predicate Unclobbered(ps: seq<Move>, i: nat)
    requires i < |ps|
  {
    forall j, x :: 0 <= j < |ps| ==> !Clobbers(ps, i, j, x)
  }

  /** The highest block is placed first and then left alone. */
  lemma {:induction false} HighestKept(buf: seq<byte>, ps: seq<Move>)
    requires ps != [] && Sliding(ps) && Room(ps, |buf|)
    ensures Kept(buf, Downward(buf, ps), ps[|ps| - 1])
  {
    var front, last := ps[..|ps| - 1], ps[|ps| - 1];
    forall x | last.Writes(x) ensures Downward(buf, ps)[x] == Copied(buf, last)[x] {
      LastIsClear(ps, x);
      DownwardFrame(Copied(buf, last), front, x);
    }
  }

  /** Placing the highest block spares the source of a block it does not clobber. */
  lemma SourceSpared(buf: seq<byte>, ps: seq<Move>, i: nat, x: int)
    requires Sliding(ps) && Room(ps, |buf|) && i < |ps| - 1 && Unclobbered(ps, i) && ps[i].Reads(x)
    ensures 0 <= x < |buf| && Copied(buf, ps[|ps| - 1])[x] == buf[x]
  {
    var last := |ps| - 1;
    assert !Clobbers(ps, i, last, x);
    assert ps[i].InBounds(|buf|);
    assert ps[i].dest + ps[i].entry.size <= ps[last].dest;
  }

  lemma {:induction false} DownwardKeeps(buf: seq<byte>, ps: seq<Move>, i: nat)
    requires i < |ps| && Sliding(ps) && Room(ps, |buf|) && Unclobbered(ps, i)
    ensures Kept(buf, Downward(buf, ps), ps[i])
    decreases |ps|
  {
    if i == |ps| - 1 {
      HighestKept(buf, ps);
    } else {
      var front, next := ps[..|ps| - 1], Copied(buf, ps[|ps| - 1]);
      forall j, x | 0 <= j < |front| ensures !Clobbers(front, i, j, x) {
        assert !Clobbers(ps, i, j, x);
      }
      DownwardKeeps(next, front, i);
      forall x | ps[i].Reads(x) ensures 0 <= x < |buf| && next[x] == buf[x] {
        SourceSpared(buf, ps, i, x);
      }
    }
  }

  ghost predicate ZeroExcept(buf: seq<byte>, p: nat) {
    forall x :: 0 <= x < |buf| && x != p ==> buf[x] == 0
  }

  ghost predicate AllZero(buf: seq<byte>) {
    forall x :: 0 <= x < |buf| ==> buf[x] == 0
  }

  lemma {:induction false} ZeroStays(buf: seq<byte>, ps: seq<Move>)
    requires Room(ps, |buf|) && AllZero(buf)
    ensures AllZero(Downward(buf, ps))
    decreases |ps|
  {
    if ps != [] {
      ZeroStays(Copied(buf, ps[|ps| - 1]), ps[..|ps| - 1]);
    }
  }

  /**
   If block `j` lands on byte `p` of the lower block `i`, then a one at `p` among zeros is gone once
   all blocks are in place: nobody reads `p` before `j` overwrites it.
   */
  lemma {:induction false} MarkerLost(buf: seq<byte>, ps: seq<Move>, i: nat, j: nat, p: nat)
    requires Sliding(ps) && Room(ps, |buf|) && i < |ps| && j < |ps|
    requires Clobbers(ps, i, j, p) && ZeroExcept(buf, p)
    ensures AllZero(Downward(buf, ps))
    decreases |ps|
  {
    var front, last := ps[..|ps| - 1], ps[|ps| - 1];
    var next := Copied(buf, last);
    assert !last.Reads(p) by {
      assert ps[i].entry.offset + ps[i].entry.size <= last.entry.offset;
    }
    assert ZeroExcept(next, p);
    if j < |front| {
      assert Clobbers(front, i, j, p);
      MarkerLost(next, front, i, j, p);
    } else {
      assert next[p] == 0;
      ZeroStays(next, front);
    }
  }

  /** The buffer that the shifts leave when they run highest first. */
  ghost function AfterDescending(buf: seq<byte>, ps: seq<Move>): (r: seq<byte>)
    ensures |r| == |buf|
  {
    RunMoves(buf, Reverse(Shifts(ps))).buffer
  }

  /** Highest first keeps block `i` whatever the `len` bytes of the buffer are. */
  ghost predicate KeptHighestFirst(ps: seq<Move>, len: nat, i: nat)
    requires i < |ps|
  {
    forall buf: seq<byte> :: |buf| == len ==> Kept(buf, AfterDescending(buf, ps), ps[i])
  }

  /** Highest first keeps every block of this buffer. */
  ghost predicate AllKept(ps: seq<Move>, buf: seq<byte>) {
    forall i :: 0 <= i < |ps| ==> Kept(buf, AfterDescending(buf, ps), ps[i])
  }

  lemma AllKeptIff(ps: seq<Move>, len: nat)
    ensures (forall buf: seq<byte> {:trigger AllKept(ps, buf)} :: |buf| == len ==> AllKept(ps, buf))
            <==> forall i {:trigger KeptHighestFirst(ps, len, i)} :: 0 <= i < |ps| ==> KeptHighestFirst(ps, len, i)
  {
    if forall buf: seq<byte> {:trigger AllKept(ps, buf)} :: |buf| == len ==> AllKept(ps, buf) {
      forall i | 0 <= i < |ps| ensures KeptHighestFirst(ps, len, i) {
        forall buf: seq<byte> | |buf| == len ensures Kept(buf, AfterDescending(buf, ps), ps[i]) {
          assert AllKept(ps, buf);
        }
      }
    } else {
      var buf: seq<byte> :| |buf| == len && !AllKept(ps, buf);
      var i :| 0 <= i < |ps| && !Kept(buf, AfterDescending(buf, ps), ps[i]);
      assert !KeptHighestFirst(ps, len, i);
    }
  }

  /** A buffer that shows the loss: zeros, and a one on the byte that is overwritten too early. */
  lemma ClobberedIsLost(ps: seq<Move>, len: nat, i: nat, j: nat, p: nat) returns (buf: seq<byte>)
    requires Sliding(ps) && Room(ps, len) && i < |ps| && j < |ps|
    requires Clobbers(ps, i, j, p)
    ensures |buf| == len && !Kept(buf, AfterDescending(buf, ps), ps[i])
    ensures buf[p] == 1 && AfterDescending(buf, ps)[ps[i].dest + (p - ps[i].entry.offset)] == 0
  {
    assert ps[i].InBounds(len);
    buf := seq(len, x => if x == p then 1 else 0);
    DescendingRun(buf, ps);
    MarkerLost(buf, ps, i, j, p);
    assert ps[i].Writes(ps[i].dest + (p - ps[i].entry.offset));
  }

  /**
   The exact condition, block by block: highest first keeps block `i` on every buffer if and only if
   no higher block's destination meets block `i`'s source.
   */
  lemma KeptHighestFirstIff(ps: seq<Move>, len: nat, i: nat)
    requires Sliding(ps) && Room(ps, len) && i < |ps|
    ensures KeptHighestFirst(ps, len, i) <==> Unclobbered(ps, i)
  {
    if Unclobbered(ps, i) {
      forall buf: seq<byte> | |buf| == len ensures Kept(buf, AfterDescending(buf, ps), ps[i]) {
        DescendingRun(buf, ps);
        DownwardKeeps(buf, ps, i);
      }
    } else {
      var j, p: int :| 0 <= j < |ps| && Clobbers(ps, i, j, p);
      var buf := ClobberedIsLost(ps, len, i, j, p);
    }
  }

  // ---------------------------------------------------------------------------
  // A run that stops half-way
  // ---------------------------------------------------------------------------

  /** How many moves are made in a buffer of `len` bytes before one is refused. */
  function Performed(moves: seq<Move>, len: nat): (n: nat)
    ensures n <= |moves| && forall i :: 0 <= i < n ==> moves[i].InBounds(len)
    ensures n < |moves| ==> !moves[n].InBounds(len)
  {
    if moves == [] || !moves[0].InBounds(len) then 0 else 1 + Performed(moves[1..], len)
  }

  lemma {:induction false} PerformedIff(buf: seq<byte>, moves: seq<Move>)
    ensures RunMoves(buf, moves).refused.None? <==> Performed(moves, |buf|) == |moves|
    ensures RunMoves(buf, moves).refused.Some? ==>
              Performed(moves, |buf|) < |moves| && RunMoves(buf, moves).refused.value == moves[Performed(moves, |buf|)]
    decreases |moves|
  {
    if moves != [] && moves[0].InBounds(|buf|) {
      PerformedIff(Copied(buf, moves[0]), moves[1..]);
    }
  }

  /** Zeros stay zeros, whatever is moved. */
  lemma {:induction false} ZeroRun(buf: seq<byte>, moves: seq<Move>)
    requires AllZero(buf)
    ensures AllZero(RunMoves(buf, moves).buffer)
    decreases |moves|
  {
    if moves != [] && moves[0].InBounds(|buf|) {
      ZeroRun(Copied(buf, moves[0]), moves[1..]);
    }
  }

  /** A byte that a move writes and does not read. */
  function LostByte(m: Move): (p: nat)
    requires m.IsShift() && m.entry.size > 0
    ensures m.Writes(p) && !m.Reads(p)
  {
    if m.dest < m.entry.offset then m.dest else m.dest + m.entry.size - 1
  }

  /** Once a move has bytes, some buffer is changed for good: no later move brings the lost byte back. */
  lemma {:induction false} ChangedForGood(moves: seq<Move>, len: nat, k: nat) returns (buf: seq<byte>)
    requires k < Performed(moves, len) && moves[k].entry.size > 0 && forall i :: 0 <= i < |moves| ==> moves[i].IsShift()
    ensures |buf| == len && RunMoves(buf, moves).buffer != buf
    decreases |moves|
  {
    var m := moves[0];
    if m.entry.size > 0 {
      var p := LostByte(m);
      buf := seq(len, x => if x == p then 1 else 0);
      assert AllZero(Copied(buf, m));
      ZeroRun(Copied(buf, m), moves[1..]);
      assert buf[p] == 1;
    } else {
      buf := ChangedForGood(moves[1..], len, k - 1);
      assert Copied(buf, m) == buf;
    }
  }

  lemma {:induction false} EmptyMovesKeep(buf: seq<byte>, moves: seq<Move>)
    requires forall k :: 0 <= k < Performed(moves, |buf|) ==> moves[k].entry.size == 0
    ensures RunMoves(buf, moves).buffer == buf
    decreases |moves|
  {
    if moves != [] && moves[0].InBounds(|buf|) {
      assert moves[0].entry.size == 0 && Copied(buf, moves[0]) == buf;
      forall k | 0 <= k < Performed(moves[1..], |buf|) ensures moves[1..][k].entry.size == 0 {
        assert moves[1..][k] == moves[k + 1];
      }
      EmptyMovesKeep(buf, moves[1..]);
    }
  }

  /** Moves leave every buffer as it was if and only if all that are made before one is refused are empty. */
  lemma UnchangedIff(moves: seq<Move>, len: nat)
    requires forall i :: 0 <= i < |moves| ==> moves[i].IsShift()
    ensures (forall buf: seq<byte> :: |buf| == len ==> RunMoves(buf, moves).buffer == buf)
            <==> forall k :: 0 <= k < Performed(moves, len) ==> moves[k].entry.size == 0
  {
    hide RunMoves, Performed;
    if k :| 0 <= k < Performed(moves, len) && moves[k].entry.size != 0 {
      var buf := ChangedForGood(moves, len, k);
    } else {
      forall buf: seq<byte> | |buf| == len ensures RunMoves(buf, moves).buffer == buf {
        EmptyMovesKeep(buf, moves);
      }
    }
  }
}
