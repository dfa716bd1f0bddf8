/**
 The append-only arena: writes through any of its handles, the header on disk,
 and reopening. Every pointer handed out keeps reading back its bytes, and a
 reopened arena holds exactly what was written before the header was last saved.
 */
module Arena {
  import opened Prelude
  import opened Bytes
  import opened ArenaHeader

  /** A pointer handed out by a write; its size is 32 bits wide. */
  datatype RelPtr = RelPtr(offset: nat, size: nat)

  /** Panicked stands for a slice out of the mapped file's bounds, at which the program stops. */
  datatype ArenaError =
    | CapacityExceeded(requested: nat, available: int)
    | InvalidOffset(offset: nat)
    | Corruption(cause: ReadError)
    | Panicked

  datatype ArenaState = ArenaState(mem: seq<byte>, writePos: nat, header: Header, capacity: nat)

  // ---------------------------------------------------------------------------
  // The operations as functions of the state
  // ---------------------------------------------------------------------------

  function Zeros(n: nat): (r: seq<byte>)
    ensures |r| == n && forall i :: 0 <= i < n ==> r[i] == 0
  {
    seq(n, _ => 0)
  }

  function Created(traceId: seq<byte>, capacity: nat, now: nat): ArenaState
    requires HEADER_SIZE <= capacity && |traceId| == 16
  {
    var h := NewHeader(traceId, capacity, now);
    ArenaState(ToBytes(h) + Zeros(capacity - HEADER_SIZE), HEADER_SIZE, h, capacity)
  }

  /** `bytes` over the old content from `at` on. */
  function Overwritten(mem: seq<byte>, at: nat, bytes: seq<byte>): (r: seq<byte>)
    requires at + |bytes| <= |mem|
    ensures |r| == |mem|
    ensures forall i {:trigger r[i]} :: 0 <= i < |mem| ==>
              r[i] == if at <= i < at + |bytes| then bytes[i - at] else mem[i]
  {
    mem[..at] + bytes + mem[at + |bytes|..]
  }

  predicate HasRoom(s: ArenaState, bytes: seq<byte>) {
    s.writePos + AlignUp(|bytes|) <= s.capacity
  }

  function Padded(bytes: seq<byte>): (r: seq<byte>)
    ensures |r| == AlignUp(|bytes|) && r[..|bytes|] == bytes
  {
    bytes + Zeros(AlignUp(|bytes|) - |bytes|)
  }

  function Written(s: ArenaState, bytes: seq<byte>): ArenaState
    requires HasRoom(s, bytes) && |s.mem| == s.capacity
  {
    s.(mem := Overwritten(s.mem, s.writePos, Padded(bytes)), writePos := s.writePos + AlignUp(|bytes|))
  }

  /** The bytes at the old write position, zeros up to the new one, and everything else as it was. */
  lemma WrittenTells(s: ArenaState, bytes: seq<byte>)
    requires HasRoom(s, bytes) && |s.mem| == s.capacity
    ensures
      var t, end := Written(s, bytes), s.writePos + |bytes|;
      && t.writePos == s.writePos + AlignUp(|bytes|) && t.header == s.header && t.capacity == s.capacity == |t.mem|
      && t.mem[s.writePos..end] == bytes && (forall i :: end <= i < t.writePos ==> t.mem[i] == 0)
      && t.mem[..s.writePos] == s.mem[..s.writePos] && t.mem[t.writePos..] == s.mem[t.writePos..]
      && PointerTo(s, bytes) == RelPtr(s.writePos, |bytes| % 0x1_0000_0000)
  {
  }

  function PointerTo(s: ArenaState, bytes: seq<byte>): RelPtr {
    RelPtr(s.writePos, |bytes| % U32_RANGE)
  }

  function Saved(s: ArenaState): ArenaState
    requires HEADER_SIZE <= |s.mem| && |ToBytes(s.header.(writePos := s.writePos))| == HEADER_SIZE
  {
    var h := s.header.(writePos := s.writePos);
    s.(header := h, mem := Overwritten(s.mem, 0, ToBytes(h)))
  }

  /** The bytes of a range below the write position; the file may still end before it. */
  function Read(s: ArenaState, offset: nat, size: nat): Result<seq<byte>, ArenaError> {
    if offset + size > s.writePos then Err(InvalidOffset(offset))
    else if offset + size > |s.mem| then Err(Panicked)
    else Ok(s.mem[offset..offset + size])
  }

  /** Opening a file; of one shorter than a header there is no slice to read it from. */
  function Opened(mem: seq<byte>): Result<ArenaState, ArenaError> {
    if |mem| < HEADER_SIZE then Err(Panicked)
    else
      match FromBytes(mem[..HEADER_SIZE])
      case Err(e) => Err(Corruption(e))
      case Ok(h) =>
        match Validate(h)
        case Err(cause) => Err(Corruption(Invalid(cause)))
        case Ok(_) => Ok(ArenaState(mem, h.writePos, h, |mem|))
  }

  // ---------------------------------------------------------------------------
  // What every operation keeps
  // ---------------------------------------------------------------------------

  /** The file starts with the bytes of the header. */
  ghost predicate OnDisk(mem: seq<byte>, h: Header) {
    HEADER_SIZE <= |mem| && mem[..HEADER_SIZE] == ToBytes(h)
  }

  lemma OnDiskOver(mem: seq<byte>, h: Header)
    requires |ToBytes(h)| == HEADER_SIZE <= |mem|
    ensures OnDisk(Overwritten(mem, 0, ToBytes(h)), h)
  {
    assert Overwritten(mem, 0, ToBytes(h))[..HEADER_SIZE] == ToBytes(h);
  }

  ghost predicate HeaderFits(s: ArenaState) {
    && s.header.WellSized() && s.header.magic == ARENA_MAGIC && s.header.version == ARENA_VERSION
    && s.header.capacity == s.capacity && HEADER_SIZE <= s.header.writePos <= s.writePos && Aligned(s.header.writePos)
  }

  ghost predicate Sound(s: ArenaState) {
    && |s.mem| == s.capacity && s.capacity < U64_RANGE
    && HEADER_SIZE <= s.writePos <= s.capacity && Aligned(s.writePos) && HeaderFits(s)
  }

  lemma CreatedIsSound(traceId: seq<byte>, capacity: nat, now: nat)
    requires HEADER_SIZE <= capacity < U64_RANGE && |traceId| == 16 && now < U64_RANGE
    ensures Sound(Created(traceId, capacity, now))
  {
    CreatedLength(traceId, capacity, now);
    FreshIsSound(Created(traceId, capacity, now), traceId, now);
  }

  lemma FreshIsSound(s: ArenaState, traceId: seq<byte>, now: nat)
    requires |traceId| == 16 && now < U64_RANGE && s.header == NewHeader(traceId, s.capacity, now)
    requires |s.mem| == s.capacity && HEADER_SIZE == s.writePos <= s.capacity < U64_RANGE
    ensures Sound(s)
  {
    AlignedIff(HEADER_SIZE);
  }

  lemma {:induction false} CreatedLength(traceId: seq<byte>, capacity: nat, now: nat)
    requires HEADER_SIZE <= capacity && |traceId| == 16
    ensures |Created(traceId, capacity, now).mem| == capacity
  {
    HeaderLength(NewHeader(traceId, capacity, now));
  }

  lemma {:induction false} CreatedOnDisk(traceId: seq<byte>, capacity: nat, now: nat)
    requires HEADER_SIZE <= capacity && |traceId| == 16
    ensures OnDisk(Created(traceId, capacity, now).mem, Created(traceId, capacity, now).header)
  {
    var h := NewHeader(traceId, capacity, now);
    HeaderLength(h);
  }

  lemma WrittenIsSound(s: ArenaState, bytes: seq<byte>)
    requires Sound(s) && HasRoom(s, bytes)
    ensures Sound(Written(s, bytes))
  {
    AlignedSum(s.writePos, AlignUp(|bytes|));
  }

  lemma {:induction false} SaveFits(s: ArenaState)
    requires |s.header.traceId| == 16 && |s.header.reserved| == 32
    ensures |ToBytes(s.header.(writePos := s.writePos))| == HEADER_SIZE
  {
    HeaderLength(s.header.(writePos := s.writePos));
  }

  lemma {:induction false} SavedIsSound(s: ArenaState)
    requires Sound(s)
    ensures |ToBytes(s.header.(writePos := s.writePos))| == HEADER_SIZE
    ensures Sound(Saved(s)) && Saved(s).header.writePos == s.writePos
    ensures forall i :: HEADER_SIZE <= i < s.capacity ==> Saved(s).mem[i] == s.mem[i]
  {
    SaveFits(s);
  }

  // ---------------------------------------------------------------------------
  // Whole runs
  // ---------------------------------------------------------------------------

  /** Writes through any handle; header updates, explicit or when the owner is dropped; opening the file again. */
  datatype Op = Write(bytes: seq<byte>) | UpdateHeader | Reopen

  datatype Entry = Entry(pointer: RelPtr, bytes: seq<byte>)

  /**
   The arena, what its successful writes stored, and how many of them the saved header covers. The
   others are given up when the file is opened again.
   */
  datatype History = History(arena: ArenaState, log: seq<Entry>, covered: nat)

  ghost predicate Wrote(before: History, after: History, bytes: seq<byte>) {
    if HasRoom(before.arena, bytes) && |before.arena.mem| == before.arena.capacity then
      after == before.(arena := Written(before.arena, bytes),
                       log := before.log + [Entry(PointerTo(before.arena, bytes), bytes)])
    else after == before
  }

  /** `after` is what the operation makes of `before`; a write without room changes nothing. */
  ghost predicate OpStep(before: History, after: History, op: Op) {
    match op
    case Write(bytes) => Wrote(before, after, bytes)
    case UpdateHeader =>
      && HEADER_SIZE <= |before.arena.mem|
      && |ToBytes(before.arena.header.(writePos := before.arena.writePos))| == HEADER_SIZE
      && after == before.(arena := Saved(before.arena), covered := |before.log|)
    case Reopen =>
      && before.covered <= |before.log| && Opened(before.arena.mem).Ok?
      && after == before.(arena := Opened(before.arena.mem).value, log := before.log[..before.covered])
  }

  ghost predicate IsRun(first: ArenaState, hs: seq<History>, ops: seq<Op>) {
    && |hs| == |ops| + 1 && hs[0] == History(first, [], 0)
    && forall k {:trigger StepAt(hs, ops, k)} :: 0 <= k < |ops| ==> StepAt(hs, ops, k)
  }

  ghost predicate StepAt(hs: seq<History>, ops: seq<Op>, k: nat)
    requires k < |ops| && |hs| == |ops| + 1
  {
    OpStep(hs[k], hs[k + 1], ops[k])
  }

  /** The entry's bytes are where its pointer says, below `limit`. */
  ghost predicate Stored(mem: seq<byte>, e: Entry, limit: nat) {
    && HEADER_SIZE <= e.pointer.offset && Aligned(e.pointer.offset) && e.pointer.size == |e.bytes| % U32_RANGE
    && e.pointer.offset + AlignUp(|e.bytes|) <= limit <= |mem|
    && mem[e.pointer.offset..e.pointer.offset + |e.bytes|] == e.bytes
  }

  /** Entries covered by the saved header end below its write position, later ones start at or above it. */
  ghost predicate Placed(h: History, k: nat)
    requires k < |h.log|
  {
    var e := h.log[k];
    if k < h.covered then e.pointer.offset + AlignUp(|e.bytes|) <= h.arena.header.writePos
    else h.arena.header.writePos <= e.pointer.offset
  }

  ghost predicate Apart(log: seq<Entry>, k: nat, l: nat)
    requires k < |log| && l < |log|
  {
    k < l ==> log[k].pointer.offset + AlignUp(|log[k].bytes|) <= log[l].pointer.offset
  }

  ghost predicate Kept(h: History) {
    && Sound(h.arena) && h.covered <= |h.log|
    && (forall k {:trigger h.log[k]} :: 0 <= k < |h.log| ==> Stored(h.arena.mem, h.log[k], h.arena.writePos))
    && (forall k {:trigger Placed(h, k)} :: 0 <= k < |h.log| ==> Placed(h, k))
    && (forall k, l {:trigger Apart(h.log, k, l)} :: 0 <= k < |h.log| && 0 <= l < |h.log| ==> Apart(h.log, k, l))
  }

  lemma WriteKeeps(h: History, bytes: seq<byte>)
    requires Kept(h) && HasRoom(h.arena, bytes)
    ensures
      Kept(h.(arena := Written(h.arena, bytes), log := h.log + [Entry(PointerTo(h.arena, bytes), bytes)]))
  {
    var s := h.arena;
    var h' := h.(arena := Written(s, bytes), log := h.log + [Entry(PointerTo(s, bytes), bytes)]);
    WrittenIsSound(s, bytes);
    forall k | 0 <= k < |h'.log| ensures Stored(h'.arena.mem, h'.log[k], h'.arena.writePos) && Placed(h', k) {
      if k < |h.log| {
        assert h'.log[k] == h.log[k] && Placed(h, k);
      }
    }
    forall k, l | 0 <= k < |h'.log| && 0 <= l < |h'.log| ensures Apart(h'.log, k, l) {
      if k < l {
        assert h'.log[k] == h.log[k] && Stored(s.mem, h.log[k], s.writePos);
        if l < |h.log| {
          assert Apart(h.log, k, l);
        }
      }
    }
  }

  lemma {:induction false} SaveKeeps(h: History)
    requires Kept(h)
    ensures |ToBytes(h.arena.header.(writePos := h.arena.writePos))| == HEADER_SIZE
    ensures Kept(h.(arena := Saved(h.arena), covered := |h.log|))
  {
    var s := h.arena;
    SavedIsSound(s);
    var h' := h.(arena := Saved(s), covered := |h.log|);
    forall k | 0 <= k < |h'.log| ensures Stored(h'.arena.mem, h'.log[k], h'.arena.writePos) && Placed(h', k) {
    }
    forall k, l | 0 <= k < |h'.log| && 0 <= l < |h'.log| ensures Apart(h'.log, k, l) {
      assert Apart(h.log, k, l);
    }
  }

  /** A sound arena's file opens, with the write position its header was last saved with. */
  lemma {:induction false} OpensAsSaved(s: ArenaState)
    requires Sound(s) && OnDisk(s.mem, s.header)
    ensures Opened(s.mem) == Ok(s.(writePos := s.header.writePos))
  {
    HeaderRoundTrip(s.header, []);
    assert ToBytes(s.header) + [] == ToBytes(s.header);
  }

  /** Going back to the saved write position keeps the covered entries. */
  lemma ReopenKeeps(h: History)
    requires Kept(h)
    ensures Kept(h.(arena := h.arena.(writePos := h.arena.header.writePos), log := h.log[..h.covered]))
  {
    var s := h.arena;
    var h' := h.(arena := s.(writePos := s.header.writePos), log := h.log[..h.covered]);
    forall k | 0 <= k < |h'.log| ensures Stored(h'.arena.mem, h'.log[k], h'.arena.writePos) && Placed(h', k) {
      assert h'.log[k] == h.log[k] && Stored(s.mem, h.log[k], s.writePos) && Placed(h, k);
    }
    forall k, l | 0 <= k < |h'.log| && 0 <= l < |h'.log| ensures Apart(h'.log, k, l) {
      assert Apart(h.log, k, l);
    }
  }

  lemma {:induction false} WriteStep(before: History, after: History, bytes: seq<byte>)
    requires Kept(before) && OnDisk(before.arena.mem, before.arena.header) && Wrote(before, after, bytes)
    ensures Kept(after) && OnDisk(after.arena.mem, after.arena.header)
  {
    if HasRoom(before.arena, bytes) {
      WriteKeeps(before, bytes);
    }
  }

  lemma {:induction false} SaveStep(h: History)
    requires Kept(h)
    ensures |ToBytes(h.arena.header.(writePos := h.arena.writePos))| == HEADER_SIZE
    ensures Kept(h.(arena := Saved(h.arena), covered := |h.log|))
    ensures OnDisk(Saved(h.arena).mem, Saved(h.arena).header)
  {
    SaveKeeps(h);
    OnDiskOver(h.arena.mem, h.arena.header.(writePos := h.arena.writePos));
  }

  lemma {:induction false} ReopenStep(h: History)
    requires Kept(h) && OnDisk(h.arena.mem, h.arena.header)
    ensures Opened(h.arena.mem).Ok?
    ensures Kept(h.(arena := Opened(h.arena.mem).value, log := h.log[..h.covered]))
    ensures OnDisk(Opened(h.arena.mem).value.mem, Opened(h.arena.mem).value.header)
  {
    OpensAsSaved(h.arena);
    ReopenKeeps(h);
  }

  /** A sound arena whose file starts with its header and whose header is up to date: a created or a reopened one. */
  ghost predicate Start(first: ArenaState) {
    Sound(first) && first.header.writePos == first.writePos && OnDisk(first.mem, first.header)
  }

  lemma CreatedIsStart(traceId: seq<byte>, capacity: nat, now: nat)
    requires HEADER_SIZE <= capacity < U64_RANGE && |traceId| == 16 && now < U64_RANGE
    ensures Start(Created(traceId, capacity, now))
  {
    CreatedIsSound(traceId, capacity, now);
    CreatedOnDisk(traceId, capacity, now);
  }

  /** At any time in any run the entries are kept and the file starts with the last saved header. */
  lemma {:induction false} RunKeeps(first: ArenaState, hs: seq<History>, ops: seq<Op>, n: nat)
    requires Start(first) && IsRun(first, hs, ops) && n < |hs|
    ensures Kept(hs[n]) && OnDisk(hs[n].arena.mem, hs[n].arena.header)
    decreases n
  {
    if n > 0 {
      RunKeeps(first, hs, ops, n - 1);
      assert StepAt(hs, ops, n - 1);
      hide ToBytes, Opened, Kept, OnDisk, Saved;
      match ops[n - 1]
      case Write(bytes) => WriteStep(hs[n - 1], hs[n], bytes);
      case UpdateHeader => SaveStep(hs[n - 1]);
      case Reopen => ReopenStep(hs[n - 1]);
    }
  }

  /**
   At any time in any run, with any number of reopenings, every pointer handed out, and not given up,
   reads back the bytes that it can count: all of them if and only if there were fewer than 2^32. Entries
   are aligned and do not overlap.
   */
  lemma {:induction false} PointersStable(first: ArenaState, hs: seq<History>, ops: seq<Op>, n: nat, k: nat)
    requires Start(first) && IsRun(first, hs, ops) && n < |hs| && k < |hs[n].log|
    ensures
      var s, e := hs[n].arena, hs[n].log[k];
      && e.pointer.size <= |e.bytes|
      && Read(s, e.pointer.offset, e.pointer.size) == Ok(e.bytes[..e.pointer.size])
      && (Read(s, e.pointer.offset, e.pointer.size) == Ok(e.bytes) <==> |e.bytes| < U32_RANGE)
      && e.pointer.offset % 8 == 0
    ensures forall l :: k < l < |hs[n].log| ==>
              hs[n].log[k].pointer.offset + |hs[n].log[k].bytes| <= hs[n].log[l].pointer.offset
  {
    RunKeeps(first, hs, ops, n);
    var h := hs[n];
    assert Stored(h.arena.mem, h.log[k], h.arena.writePos);
    AlignedIff(h.log[k].pointer.offset);
    PointerReads(h.arena, h.log[k]);
    forall l | k < l < |h.log| ensures h.log[k].pointer.offset + |h.log[k].bytes| <= h.log[l].pointer.offset {
      assert Apart(h.log, k, l);
    }
  }

  /** A pointer's size is cut to 32 bits, and it reads as many of the entry's bytes as it then counts. */
  lemma PointerReads(s: ArenaState, e: Entry)
    requires Stored(s.mem, e, s.writePos)
    ensures e.pointer.size <= |e.bytes|
    ensures Read(s, e.pointer.offset, e.pointer.size) == Ok(e.bytes[..e.pointer.size])
    ensures e.bytes[..e.pointer.size] == e.bytes <==> |e.bytes| < U32_RANGE
  {
    var o, z := e.pointer.offset, e.pointer.size;
    assert s.mem[o..o + z] == s.mem[o..o + |e.bytes|][..z];
  }

  /**
   Reopening the file at any moment of a run recovers exactly the writes made before the last header
   update: those read back their bytes, and any later pointer with something to read is refused.
   */
  lemma {:induction false} ReopenRecoversCovered(first: ArenaState, hs: seq<History>, ops: seq<Op>, n: nat, k: nat)
    requires Start(first) && IsRun(first, hs, ops) && n < |hs| && k < |hs[n].log| && hs[n].log[k].pointer.size > 0
    ensures
      var h, e := hs[n], hs[n].log[k];
      var reopened := Opened(h.arena.mem);
      && reopened.Ok? && e.pointer.size <= |e.bytes|
      && Read(reopened.value, e.pointer.offset, e.pointer.size)
         == if k < h.covered then Ok(e.bytes[..e.pointer.size]) else Err(InvalidOffset(e.pointer.offset))
  {
    RunKeeps(first, hs, ops, n);
    OpensAsSaved(hs[n].arena);
    CoveredReads(hs[n], k);
  }

  /** Below the saved write position lie the covered entries, and only they. */
  lemma CoveredReads(h: History, k: nat)
    requires Kept(h) && k < |h.log| && h.log[k].pointer.size > 0
    ensures
      var e := h.log[k];
      && e.pointer.size <= |e.bytes|
      && Read(h.arena.(writePos := h.arena.header.writePos), e.pointer.offset, e.pointer.size)
         == if k < h.covered then Ok(e.bytes[..e.pointer.size]) else Err(InvalidOffset(e.pointer.offset))
  {
    assert Stored(h.arena.mem, h.log[k], h.arena.writePos) && Placed(h, k);
    PointerReads(h.arena, h.log[k]);
  }

  /**
   A saved arena, also one opened from a file whose length its header does not tell, opens again if and
   only if it was not written past the capacity that the header records.
   */
  lemma SavedOpensIff(s: ArenaState)
    requires HEADER_SIZE <= |s.mem| && s.header.WellSized() && s.writePos < U64_RANGE
    requires s.header.magic == ARENA_MAGIC && s.header.version == ARENA_VERSION
    ensures |ToBytes(s.header.(writePos := s.writePos))| == HEADER_SIZE
    ensures Opened(Saved(s).mem).Ok? <==> s.writePos <= s.header.capacity
  {
    var h := s.header.(writePos := s.writePos);
    SaveFits(s);
    OnDiskOver(s.mem, h);
    HeaderRoundTrip(h, []);
    assert ToBytes(h) + [] == ToBytes(h);
  }

  /** What opening a file answers, by the bytes that stand in it. */
  lemma OpenedIs(mem: seq<byte>)
    ensures |mem| < 128 ==> Opened(mem) == Err(Panicked)
    ensures |mem| >= 128 && Value(mem[0..8]) != 0x5845_5256_4152_454E ==>
              Opened(mem) == Err(Corruption(Invalid("Invalid magic number")))
    ensures |mem| >= 128 && Value(mem[0..8]) == 0x5845_5256_4152_454E && Value(mem[8..12]) != 1 ==>
              Opened(mem) == Err(Corruption(Invalid("Unsupported arena version")))
    ensures |mem| >= 128 && Value(mem[0..8]) == 0x5845_5256_4152_454E && Value(mem[8..12]) == 1
            && Value(mem[56..64]) > Value(mem[64..72]) ==>
              Opened(mem) == Err(Corruption(Invalid("Write position exceeds capacity")))
    ensures Opened(mem).Ok? ==> Opened(mem).value.mem == mem && Opened(mem).value.capacity == |mem|
  {
    if |mem| >= 128 {
      HeaderOf(mem);
    }
  }

  /** The first 128 bytes tell the same as all of them. */
  lemma HeaderOf(mem: seq<byte>)
    requires 128 <= |mem|
    ensures
      && FromBytes(mem[..HEADER_SIZE]).Ok?
      && var h := FromBytes(mem[..HEADER_SIZE]).value;
      && h.magic == Value(mem[0..8]) && h.version == Value(mem[8..12])
      && h.writePos == Value(mem[56..64]) && h.capacity == Value(mem[64..72])
  {
    hide FromBytes, Value;
    var front := mem[..HEADER_SIZE];
    FieldsAt(front);
    assert front[0..8] == mem[0..8] && front[8..12] == mem[8..12];
    assert front[56..64] == mem[56..64] && front[64..72] == mem[64..72];
  }

  /**
   A file opens if and only if it is long enough for a header, starts with the magic number and the version,
   and its write position is within its capacity; it is the write position that the arena goes on from.
   */
  lemma OpensIff(mem: seq<byte>)
    ensures Opened(mem).Ok? <==>
            && |mem| >= 128 && Value(mem[0..8]) == 0x5845_5256_4152_454E && Value(mem[8..12]) == 1
            && Value(mem[56..64]) <= Value(mem[64..72])
    ensures Opened(mem).Ok? ==>
              Opened(mem).value.writePos == Value(mem[56..64]) && Opened(mem).value.header.capacity == Value(mem[64..72])
  {
    if |mem| >= 128 {
      HeaderOf(mem);
    }
  }

  /** A created file: magic number and version, the trace, the data region right after the header, and zeros. */
  lemma CreatedTells(traceId: seq<byte>, capacity: nat, now: nat)
    requires HEADER_SIZE <= capacity < U64_RANGE && |traceId| == 16 && now < U64_RANGE
    ensures
      var s := Created(traceId, capacity, now);
      && |s.mem| == capacity == s.capacity && s.writePos == 128
      && Value(s.mem[0..8]) == 0x5845_5256_4152_454E && Value(s.mem[8..12]) == 1 && s.mem[16..32] == traceId
      && Value(s.mem[48..56]) == Value(s.mem[56..64]) == 128 && Value(s.mem[64..72]) == capacity
      && Value(s.mem[72..80]) == now && forall i :: 128 <= i < capacity ==> s.mem[i] == 0
  {
    hide Value, ToBytes;
    var h, s := NewHeader(traceId, capacity, now), Created(traceId, capacity, now);
    CreatedLength(traceId, capacity, now);
    HeaderRoundTrip(h, Zeros(capacity - HEADER_SIZE));
    FieldsAt(s.mem);
  }

  /** A file of 256 bytes whose header tells of 136, all of them written. */
  function LongFile(traceId: seq<byte>): seq<byte> {
    ToBytes(NewHeader(traceId, 136, 0).(writePos := 136)) + Zeros(128)
  }

  lemma LongFileOpens(traceId: seq<byte>)
    requires |traceId| == 16
    ensures
      var h := NewHeader(traceId, 136, 0).(writePos := 136);
      |LongFile(traceId)| == 256 && Opened(LongFile(traceId)) == Ok(ArenaState(LongFile(traceId), 136, h, 256))
  {
    var h := NewHeader(traceId, 136, 0).(writePos := 136);
    HeaderRoundTrip(h, []);
    assert ToBytes(h) + [] == ToBytes(h) == LongFile(traceId)[..HEADER_SIZE];
  }

  /** It opens, takes eight more bytes, and cannot be opened again once they are saved. */
  lemma WrittenPastItsHeader(traceId: seq<byte>)
    requires |traceId| == 16
    ensures
      && Opened(LongFile(traceId)).Ok?
      && var s := Opened(LongFile(traceId)).value;
      && |s.mem| == s.capacity && HasRoom(s, Zeros(8))
      && var w := Written(s, Zeros(8));
      && |ToBytes(w.header.(writePos := w.writePos))| == HEADER_SIZE && Opened(Saved(w).mem).Err?
  {
    hide Opened, Saved, ToBytes;
    LongFileOpens(traceId);
    AlignUpLeast(8, 8);
    var s := Opened(LongFile(traceId)).value;
    SavedOpensIff(Written(s, Zeros(8)));
  }

  /** Of an entry of exactly 2^32 bytes a pointer counts none. */
  lemma HugeEntryReadsEmpty(s: ArenaState, bytes: seq<byte>)
    requires |s.mem| == s.capacity && HasRoom(s, bytes) && |bytes| == U32_RANGE
    ensures
      var p := PointerTo(s, bytes);
      Read(Written(s, bytes), p.offset, p.size) == Ok([]) && bytes != []
  {
    var p, w := PointerTo(s, bytes), Written(s, bytes);
    assert p.size == 0 && p.offset <= w.writePos <= |w.mem|;
    assert w.mem[p.offset..p.offset] == [];
  }

  // ---------------------------------------------------------------------------
  // The shared arena and its handles
  // ---------------------------------------------------------------------------

  class ArenaInner {
    const mmap: array<byte>
    var writePos: nat
    var header: Header
    const capacity: nat

    ghost function State(): ArenaState
      reads this, mmap
    {
      ArenaState(mmap[..], writePos, header, capacity)
    }

    /** The capacity is the mapped length, there is room for the header, and its byte fields have their widths. */
    ghost predicate Valid()
      reads this
    {
      mmap.Length == capacity && HEADER_SIZE <= capacity && |header.traceId| == 16 && |header.reserved| == 32
    }

    constructor Fresh(traceId: seq<byte>, capacity: nat, now: nat)
      requires HEADER_SIZE <= capacity && |traceId| == 16
      ensures fresh(mmap) && Valid() && State() == Created(traceId, capacity, now)
    {
      var h := NewHeader(traceId, capacity, now);
      this.capacity := capacity;
      writePos := h.writePos;
      header := h;
      mmap := new byte[capacity](i => 0);
      new;
      HeaderLength(h);
      CopyIn(0, ToBytes(h));
      assert mmap[..] == Created(traceId, capacity, now).mem;
    }

    constructor Mapped(file: array<byte>, h: Header)
      requires HEADER_SIZE <= file.Length && |h.traceId| == 16 && |h.reserved| == 32
      ensures mmap == file && Valid() && State() == ArenaState(file[..], h.writePos, h, file.Length)
    {
      mmap := file;
      capacity := file.Length;
      writePos := h.writePos;
      header := h;
    }

    /** A file of the configured size with its header written; one too small for a header is none. */
    static method Create(traceId: seq<byte>, capacity: nat, now: nat) returns (r: Result<ArenaInner, ArenaError>)
      requires |traceId| == 16
      ensures capacity < HEADER_SIZE ==> r == Err(Panicked)
      ensures capacity >= HEADER_SIZE ==>
                r.Ok? && fresh(r.value) && fresh(r.value.mmap) && r.value.Valid()
                && r.value.State() == Created(traceId, capacity, now)
    {
      if capacity < HEADER_SIZE {
        return Err(Panicked);
      }
      var inner := new ArenaInner.Fresh(traceId, capacity, now);
      return Ok(inner);
    }

    /** The file's bytes and size as they are, and the write position of its header; or why there is no arena in it. */
    static method Open(file: array<byte>) returns (r: Result<ArenaInner, ArenaError>)
      ensures r.Ok? <==> Opened(file[..]).Ok?
      ensures r.Ok? ==> fresh(r.value) && r.value.mmap == file && r.value.Valid()
                        && Opened(file[..]) == Ok(r.value.State())
      ensures r.Err? ==> Opened(file[..]) == Err(r.error)
    {
      if file.Length < HEADER_SIZE {
        return Err(Panicked);
      }
      assert file[..][..HEADER_SIZE] == file[..HEADER_SIZE];
      var header := FromBytes(file[..HEADER_SIZE]);
      if header.Err? {
        return Err(Corruption(header.error));
      }
      var valid := Validate(header.value);
      if valid.Err? {
        return Err(Corruption(Invalid(valid.error)));
      }
      ReadWidths(file[..HEADER_SIZE]);
      var inner := new ArenaInner.Mapped(file, header.value);
      return Ok(inner);
    }

    method CopyIn(at: nat, bytes: seq<byte>)
      requires at + |bytes| <= mmap.Length
      modifies mmap
      ensures mmap[..] == Overwritten(old(mmap[..]), at, bytes)
    {
      forall i | 0 <= i < |bytes| {
        mmap[at + i] := bytes[i];
      }
      assert mmap[..] == Overwritten(old(mmap[..]), at, bytes);
    }

    /** The bytes, and zeros up to the aligned size. */
    method Store(at: nat, bytes: seq<byte>, alignedSize: nat)
      requires alignedSize == AlignUp(|bytes|) && at + alignedSize <= mmap.Length
      modifies mmap
      ensures mmap[..] == Overwritten(old(mmap[..]), at, Padded(bytes))
    {
      var size := |bytes|;
      CopyIn(at, bytes);
      if alignedSize > size {
        CopyIn(at + size, Zeros(alignedSize - size));
      }
      OverwriteTwice(old(mmap[..]), at, bytes, Zeros(alignedSize - size));
    }

    method WriteBytes(bytes: seq<byte>) returns (r: Result<RelPtr, ArenaError>)
      requires Valid()
      modifies this`writePos, mmap
      ensures Valid() && (old(Sound(State())) ==> Sound(State()))
      ensures r.Ok? <==> old(writePos) + AlignUp(|bytes|) <= capacity
      ensures HasRoom(old(State()), bytes) ==>
                State() == Written(old(State()), bytes) && r == Ok(PointerTo(old(State()), bytes))
      ensures !HasRoom(old(State()), bytes) ==>
                State() == old(State()) && r == Err(CapacityExceeded(AlignUp(|bytes|), capacity - writePos))
    {
      hide Sound, Overwritten, Padded;
      var size := |bytes|;
      var alignedSize := RoundUp8(size);
      var newPos := writePos + alignedSize;
      if newPos > capacity {
        return Err(CapacityExceeded(alignedSize, capacity - writePos));
      }
      if Sound(State()) {
        WrittenIsSound(State(), bytes);
      }
      var offset := writePos;
      Store(writePos, bytes, alignedSize);
      writePos := newPos;
      return Ok(RelPtr(offset, size % U32_RANGE));
    }

    method ReadBytes(offset: nat, size: nat) returns (r: Result<seq<byte>, ArenaError>)
      ensures r.Ok? <==> offset + size <= writePos && offset + size <= mmap.Length
      ensures r.Ok? ==> r.value == mmap[offset..offset + size]
      ensures r == Err(InvalidOffset(offset)) <==> offset + size > writePos
      ensures r == Read(State(), offset, size)
    {
      if offset + size > writePos {
        return Err(InvalidOffset(offset));
      }
      if offset + size > mmap.Length {
        return Err(Panicked);
      }
      assert mmap[..][offset..offset + size] == mmap[offset..offset + size];
      return Ok(mmap[offset..offset + size]);
    }

    method WriteHeader()
      requires Valid()
      modifies this`header, mmap
      ensures Valid() && |ToBytes(old(header).(writePos := writePos))| == HEADER_SIZE
      ensures State() == Saved(old(State()))
    {
      SaveFits(State());
      header := header.(writePos := writePos);
      CopyIn(0, ToBytes(header));
    }
  }

  /** The owning handle; dropping it saves the header. */
  class ArenaHandle {
    const inner: ArenaInner

    constructor (inner: ArenaInner)
      ensures this.inner == inner
    {
      this.inner := inner;
    }

    method WriteBytes(bytes: seq<byte>) returns (r: Result<RelPtr, ArenaError>)
      requires inner.Valid()
      modifies inner`writePos, inner.mmap
      ensures inner.Valid() && (old(Sound(inner.State())) ==> Sound(inner.State()))
      ensures r.Ok? <==> HasRoom(old(inner.State()), bytes)
      ensures inner.State() == if r.Ok? then Written(old(inner.State()), bytes) else old(inner.State())
      ensures r.Ok? ==> r.value == PointerTo(old(inner.State()), bytes)
    {
      r := inner.WriteBytes(bytes);
    }

    method Writer() returns (w: ArenaWriter)
      ensures fresh(w) && w.inner == inner
    {
      w := new ArenaWriter(inner);
    }

    method Drop()
      requires inner.Valid()
      modifies inner`header, inner.mmap
      ensures inner.Valid() && |ToBytes(old(inner.header).(writePos := inner.writePos))| == HEADER_SIZE
      ensures inner.State() == Saved(old(inner.State()))
    {
      inner.WriteHeader();
    }
  }

  /** A cloned writer shares the arena; it may outlive the owner, and saves no header. */
  class ArenaWriter {
    const inner: ArenaInner

    constructor (inner: ArenaInner)
      ensures this.inner == inner
    {
      this.inner := inner;
    }

    method WriteBytes(bytes: seq<byte>) returns (r: Result<RelPtr, ArenaError>)
      requires inner.Valid()
      modifies inner`writePos, inner.mmap
      ensures inner.Valid() && (old(Sound(inner.State())) ==> Sound(inner.State()))
      ensures r.Ok? <==> HasRoom(old(inner.State()), bytes)
      ensures inner.State() == if r.Ok? then Written(old(inner.State()), bytes) else old(inner.State())
      ensures r.Ok? ==> r.value == PointerTo(old(inner.State()), bytes)
    {
      r := inner.WriteBytes(bytes);
    }
  }

  /** Writing a part and then the part after it is writing both. */
  lemma OverwriteTwice(mem: seq<byte>, at: nat, a: seq<byte>, b: seq<byte>)
    requires at + |a| + |b| <= |mem|
    ensures Overwritten(Overwritten(mem, at, a), at + |a|, b) == Overwritten(mem, at, a + b)
    ensures b == [] ==> Overwritten(mem, at, a) == Overwritten(mem, at, a + b)
  {
    assert b == [] ==> a + b == a;
  }
}
