# XERV: a verified model of the engine's storage, dispatch and schema core

XERV is a workflow engine written in Rust. This project models, in Dafny, the parts of it whose
correctness depends on state kept over many operations, and proves what those parts are there for.
`dafny verify dfyconfig.toml` checks everything.

Code that changes things step by step is a class or a method with loops here, proved against functions
on values; the properties are lemmas about those functions, over every input and every run.

| files | what they model |
|---|---|
| `Allocation.dfy`, `SlidingMoves.dfy`, `Compaction.dfy`, `ArenaRuns.dfy` | the arena's allocation tracker and its in-place sliding compactor, up to whole lives of writes, deaths and compactions |
| `Bytes.dfy`, `ArenaHeader.dfy`, `Arena.dfy` | the append-only arena file: writes through shared handles, the header on disk, reopening |
| `MigrationGraph.dfy`, `MigrationRegistry.dfy`, `RegistryLocks.dfy` | breadth-first search for a migration path, the registry of three structures around it, and the order in which its calls take their locks |
| `Compatibility.dfy` | the schema change report and the quick compatibility check |
| `CycleDetection.dfy` | depth-first cycle detection over a pipeline |
| `Dispatch.dfy`, `DispatchProtocol.dfy` | the memory and local Raft dispatch backends, each operation as a whole and at the grain of its locks |
| `CircuitBreaker.dfy`, `CircuitBreakerSteps.dfy` | the circuit breaker as a timed state machine with a pruned failure history, each operation as a whole and at the grain of its locks |
| `WalRecord.dfy`, `Snapshots.dfy` | the write-ahead log's record format, and snapshots written by rename and cleaned up |
| `SecretIndex.dfy` | the operator's index between secrets and pipelines |
| `Prelude.dfy` | shared datatypes, alignment, sorted enumeration |

## What the proofs found

Each of these is a condition that holds if and only if the code meets the property, with a concrete input or
run beside it where it does not.

- **Compaction order.** The moves run from the highest offset down, and the comment beside the sort
  (`xerv-core/src/arena/compaction.rs:193-196`) says that this avoids overwriting. Blocks slide towards
  lower addresses, so it does the opposite: a higher block's destination can cover a lower block's unmoved
  bytes. `Compaction.DescendingKeepsAllIff` gives the exact condition, `Compaction.DescendingLosesData` two
  adjacent 8-byte blocks, `Compaction.AscendingKeepsAll` the order that is always right, and
  `ArenaRuns.LifeCompactionIff` the condition after every life of an arena.
- **Sizes near 2^32.** Rounding a size up in 32 bits wraps for the seven largest sizes, and the next block is
  then packed onto this one (`Prelude.AlignSizeIff`, `Compaction.PackedClearIff`, `Compaction.WidePairPlaced`).
  A pointer's size is cut to 32 bits, so it reads back all of its entry if and only if the entry is shorter than
  2^32 (`Arena.PointersStable`, `Arena.HugeEntryReadsEmpty`).
- **A refused compaction.** A call that is refused leaves the tracker alone, and every buffer if and only if all
  moves before the refused one are empty (`Compaction.RefusedLeavesIff`; a tracker for which one is not:
  `Compaction.RefusedHalfWay`). On an arena layout it is refused at once or not at all
  (`Compaction.LayoutRefusedAtOnce`).
- **Tracker totals.** The totals of a run of records, deaths and changes of offset are exact if and only if
  nothing was put over an entry that has bytes (`Allocation.RunExactIff`, `Allocation.RecordedTwice`); a rebuild
  counts them afresh (`Allocation.RebuildIsExact`). The live total reads the two totals one after the other: its
  subtraction underflows if and only if more bytes were recorded in between than are live at the second reading
  (`Allocation.LiveReadUnderflowsIff`, `Allocation.LiveReadUnderflows`).
- **Reopening.** An arena opened from a file longer than its header says can be written past the recorded
  capacity; once saved, it opens again if and only if it was not (`Arena.SavedOpensIff`,
  `Arena.WrittenPastItsHeader`).
- **Retries can vanish.** A negative acknowledgement ignores a push that meets a full queue, so the trace is
  in no structure afterwards (`Dispatch.RetryLostIff`, `DispatchProtocol.DroppedIff`; a run:
  `Dispatch.RetryIsLost`).
- **Two backends, two listings.** The memory backend lists a pipeline's queued traces, the Raft backend also
  those in flight: the listings agree if and only if there are none (`Dispatch.ListingsAgreeIff`). The backends
  agree throughout a run if and only if it meets no full queue and lists no pipeline with a trace in flight
  (`Dispatch.BackendsAgreeIff`; a run without a full queue that tells them apart:
  `Dispatch.ListingTellsThemApart`).
- **Shutdown does not wait.** It is documented to wait for the traces in flight
  (`xerv-core/src/dispatch/traits.rs:121-126`), but both backends only set a flag, and a dequeue looks at the flag
  before it pops. Whatever follows a shutdown, no trace is in flight or on its way there if and only if none was
  at that moment and no dequeue past its check could still find one (`DispatchProtocol.NoneLeftBehindIff`; runs
  with a trace left behind: `Dispatch.ShutdownLeavesATrace`, `DispatchProtocol.HandedOutAfterShutdown`). There are
  at most as many deliveries afterwards as dequeues were past their check
  (`DispatchProtocol.DeliveriesAfterShutdown`), and a queue that is not empty is stranded for good if and only if
  there was no such dequeue (`DispatchProtocol.QueueIsStrandedIff`).
- **Registry length.** `len` and `list` are documented to give the registered migrations, and do if and only if
  none was ever unregistered; `is_empty` is true if and only if, besides, nothing is registered
  (`MigrationRegistry.Registry.Len`, `MigrationRegistry.Registry.List`, `MigrationRegistry.Registry.IsEmpty`; an
  empty registry of length one: `MigrationRegistry.UnregisteredLingers`).
- **Registry locks.** Registering takes the vector first, a direct lookup and a path search take it last.
  Threads can stop for good if and only if there are two or more, and they register and look up or search
  (`RegistryLocks.MayStopIff`; the runs: `RegistryLocks.LookupStops`, `RegistryLocks.SearchStops`).
- **Gaps in the breaker.** With any number of threads that report, reset and ask, a request gets through before
  the recovery timeout of the latest trip if and only if the circuit was taken out of Open in one of three ways:
  reopened between the two writes of the trip, reopened on an older time stamped over it, or closed on a decision
  made before it was last opened (`CircuitBreakerSteps.EarlyIff`; a run for each:
  `CircuitBreakerSteps.SlipsThrough`, `CircuitBreakerSteps.OlderTimeLetsThrough`,
  `CircuitBreakerSteps.ClosesLate`). With one reporting thread only the first is left
  (`CircuitBreakerSteps.OnlyThroughTheGap`).
- **Too few successes.** A reopening sets the count of successes back in a write of its own. A success decides to
  close the circuit on fewer than the required ones if and only if the count has not been set back since the
  reopening and what was left in it makes up for the rest (`CircuitBreakerSteps.ShortClosingIff`; a run:
  `CircuitBreakerSteps.OneSuccessCloses`).
- **A breaker that sticks.** A closing wipes out the time of a trip that falls between its writes. With no call
  under way, the breaker will never admit a request again without a reset if and only if it is open and has no
  time (`CircuitBreakerSteps.NeverAgainIff`; a run that gets there: `CircuitBreakerSteps.SticksOpen`).
- **Snapshots.** Suspension metadata does not survive (`Snapshots.RecoveryIsExactIff`, `Snapshots.MetadataIsLost`),
  and a retention of 0 removes the snapshot just written (`Snapshots.NewSurvivesIff`, `Snapshots.NothingRetained`).
- **Log records.** An empty string comes back as an absent one (`WalRecord.RoundTripExactIff`,
  `WalRecord.EmptyMessageVanishes`), and a length field below the minimum makes the decoder panic
  (`WalRecord.PanicsIff`, `WalRecord.ZerosPanic`).
- **Compatibility.** Passing the quick check both ways is weaker than having no breaking change
  (`Compatibility.BothWaysIsCompatibleIff`, `Compatibility.DroppedOptionalPassesBothWays`). Direct compatibility
  does not compose in general: a step goes in front of, or behind, every compatible step if and only if it breaks
  nothing itself and no hash vouches for the schema in the middle alone (`Compatibility.ComposesInFrontIff`,
  `Compatibility.ComposesBehindIff`). Sharing a hash is harmless exactly when the fields fit
  (`Compatibility.SharedHashIsHarmlessIff`; `Compatibility.CollisionBreaksTransitivity` has three schemas where
  they do not).
- **Migrations nobody registered.** A breaking change is reported with a migration on offer although none is
  registered if and only if neither schema has a hash (`Compatibility.OfferedWithoutMigrationsIff`,
  `Compatibility.UnhashedSchemasOfferOne`); migrating then hands the data back as it is
  (`Compatibility.FreeMigrationChangesNothing`).

## Model

| member | source | states |
|---|---|---|
| `Prelude.AlignUp` | xerv-core/src/arena/compaction.rs:277-283 | the aligned offset is the multiple of 8 that is not below the raw one and less than 8 above it |
| `Prelude.RoundUp8` | xerv-core/src/arena/compaction.rs:277-283 | the formula for offsets gives that multiple of 8 |
| `Prelude.AlignSizeIff` | xerv-core/src/arena/compaction.rs:285-289 | the 32-bit formula for sizes rounds up if and only if the size is not one of the seven largest |
| `Prelude.RoundUp8In32` | xerv-core/src/arena/compaction.rs:285-289 | the sum cut to 32 bits gives the rounded size, or 0 where it wraps |
| `Allocation.StepExactIff` | xerv-core/src/arena/allocation.rs:69-206 | a step, also a change of offset, keeps exact totals exact if and only if it does not put an entry over another that has bytes |
| `Allocation.RunExactIff` | xerv-core/src/arena/allocation.rs:69-206 | over every run of records, deaths and changes of offset from exact totals, they are the sums over the entries if and only if nothing was put over an entry that has bytes |
| `Allocation.RecordedTwice` | xerv-core/src/arena/allocation.rs:69-78 | a new block recorded twice leaves its bytes in the total once too often |
| `Allocation.RunExact` | xerv-core/src/arena/allocation.rs:69-92 | so over every run that uses fresh offsets only, the running totals are the sums over all entries and over the dead ones |
| `Allocation.RunCovers` | xerv-core/src/arena/allocation.rs:139-142 | over every run of whole operations, dead bytes never exceed allocated bytes, so the two totals read together do not underflow |
| `Allocation.LiveReadUnderflowsIff` | xerv-core/src/arena/allocation.rs:139-142 | read one after the other with any operations in between, their difference underflows if and only if more bytes were recorded in between than are live at the second reading |
| `Allocation.LiveReadUnderflows` | xerv-core/src/arena/allocation.rs:139-142 | it does when a block comes and dies in between |
| `Allocation.LiveSortedIsLive` | xerv-core/src/arena/allocation.rs:103-109 | the list of live allocations holds the live entries of the map and no others |
| `Allocation.LiveSortedFiled` | xerv-core/src/arena/allocation.rs:103-109 | that list ascends strictly by offset |
| `Allocation.LiveSize` | xerv-core/src/arena/allocation.rs:139-142 | the bytes of the listed live entries and the dead bytes add up to all bytes |
| `Allocation.FiledKeepsAll` | xerv-core/src/arena/allocation.rs:176-196 | rebuilding from entries with ascending offsets loses none of them |
| `Allocation.FiledSums` | xerv-core/src/arena/allocation.rs:176-196 | and the totals counted on the way are the sums over the rebuilt map |
| `Allocation.RebuildIsExact` | xerv-core/src/arena/allocation.rs:176-196 | so a rebuild leaves exact totals, whatever they were before |
| `Allocation.AllocationTracker.RecordAllocation` | xerv-core/src/arena/allocation.rs:69-78 | the new state of all four fields: a live entry of the current generation, its bytes added to the total |
| `Allocation.AllocationTracker.MarkDead` | xerv-core/src/arena/allocation.rs:81-92 | only a live entry dies, and its bytes are counted dead once |
| `Allocation.AllocationTracker.UpdateOffset` | xerv-core/src/arena/allocation.rs:199-206 | a tracked entry is filed under its new offset, over whatever was there; the totals stay |
| `Allocation.AllocationTracker.IncrementGeneration` | xerv-core/src/arena/allocation.rs:125-127 | the generation grows by one modulo 2^32 and nothing else changes |
| `Allocation.AllocationTracker.Rebuild` | xerv-core/src/arena/allocation.rs:176-196 | the loop leaves the filed entries and both totals recounted, the generation untouched |
| `SlidingMoves.UpwardKeeps` | xerv-core/src/arena/compaction.rs:198-232 | moving sliding blocks in place, lowest first, leaves every block's old bytes at its destination |
| `SlidingMoves.AscendingRun` | xerv-core/src/arena/compaction.rs:198-232 | running only the moves that change an offset is the same as placing all blocks, and no move is refused |
| `SlidingMoves.DescendingRun` | xerv-core/src/arena/compaction.rs:193-232 | the same for the program's order, highest first |
| `SlidingMoves.DownwardKeeps` | xerv-core/src/arena/compaction.rs:193-232 | highest first keeps a block whose source no higher destination meets |
| `SlidingMoves.MarkerLost` | xerv-core/src/arena/compaction.rs:193-232 | a byte that a higher block lands on before it is copied is gone from the whole buffer |
| `SlidingMoves.ClobberedIsLost` | xerv-core/src/arena/compaction.rs:193-232 | for every such clobbered byte there is a buffer of any length that fits on which the block is lost |
| `SlidingMoves.KeptHighestFirstIff` | xerv-core/src/arena/compaction.rs:193-232 | block by block: highest first keeps it on every buffer if and only if no higher destination meets its source |
| `SlidingMoves.UnchangedIff` | xerv-core/src/arena/compaction.rs:198-232 | moves leave every buffer as it was if and only if all that are made before one is refused are empty |
| `Compaction.PackingOrdered` | xerv-core/src/arena/compaction.rs:149-162 | destinations are ordered, at or above the data offset and free of overlap, whatever the layout |
| `Compaction.PackedClearIff` | xerv-core/src/arena/compaction.rs:149-162 | a block is packed clear of the next if and only if its size can be rounded up in 32 bits |
| `Compaction.WidePairPlaced` | xerv-core/src/arena/compaction.rs:149-162 | a block of 2^32 - 1 bytes and the next one are packed onto the same place |
| `Compaction.DestBelowSource` | xerv-core/src/arena/compaction.rs:149-162 | on an arena layout no block is moved up |
| `Compaction.PlacementsSlide` | xerv-core/src/arena/compaction.rs:143-168 | on an arena layout the plan slides: ordered and disjoint before and after, never upwards |
| `Compaction.WritePosIsPackedSize` | xerv-core/src/arena/compaction.rs:160-167 | the new write position is the data offset plus the sum of the rounded live sizes, and aligned |
| `Compaction.AscendingKeepsAll` | xerv-core/src/arena/compaction.rs:188-232 | in ascending order, every arena layout and every buffer keeps all live blocks, and no move is refused |
| `Compaction.DescendingKeepsAllIff` | xerv-core/src/arena/compaction.rs:188-232 | in the program's order all live blocks are kept on every buffer if and only if no new range meets the old range of a lower block that still has to move |
| `Compaction.DescendingLosesData` | xerv-core/src/arena/compaction.rs:193-196 | two live 8-byte blocks behind a dead one fail that condition, and a buffer loses the lower one |
| `Compaction.ReverseSortsDescending` | xerv-core/src/arena/compaction.rs:195-196 | the reversed plan is the plan's moves sorted by descending offset |
| `Compaction.NewOffsetsAreDests` | xerv-core/src/arena/compaction.rs:238-243 | looking any live block up in the offset map, with its old offset as the default, gives its place in the packing |
| `Compaction.ExecutionSucceeds` | xerv-core/src/arena/compaction.rs:178-263 | on an arena layout inside the buffer the call succeeds, performs, and leaves the rebuilt tracker |
| `Compaction.RefusedLeavesIff` | xerv-core/src/arena/compaction.rs:198-232 | a refused call names the move that does not fit and leaves the tracker, and leaves every buffer if and only if all moves before that one are empty |
| `Compaction.LayoutRefusedAtOnce` | xerv-core/src/arena/compaction.rs:198-232 | on an arena layout a call is refused at its first move or not at all |
| `Compaction.RefusedHalfWay` | xerv-core/src/arena/compaction.rs:198-232 | a tracker and a buffer length for which a move with bytes is made before one is refused |
| `Compaction.CompactionConserves` | xerv-core/src/arena/compaction.rs:234-262 | no live block is lost, nothing dead remains, the totals stay exact, and reclaimed plus used bytes equal the bytes allocated before |
| `Compaction.ReplanIsIdle` | xerv-core/src/arena/compaction.rs:143-168 | planning again after a compaction finds no moves and the same write position |
| `Compaction.PlanMoves` | xerv-core/src/arena/compaction.rs:143-168 | a plan lists exactly the live blocks whose place differs from their offset, each with that place, by ascending offset |
| `Compaction.PlanEnd` | xerv-core/src/arena/compaction.rs:160-166 | its new write position is the aligned data offset plus the rounded live sizes, and every block that can be rounded ends at or below it at its place |
| `Compaction.AnswerMaps` | xerv-core/src/arena/compaction.rs:231-262 | a performed call answers with a map that sends every live block to its place, with an entry for exactly the blocks that moved, and with their number |
| `Compaction.AnswerCounts` | xerv-core/src/arena/compaction.rs:234-262 | and with the dead bytes it reclaimed, which with those in use make all that were allocated, and the new generation of the tracker |
| `Compaction.ArenaCompactor.ShouldCompact` | xerv-core/src/arena/compaction.rs:131-137 | a call is performed if and only if the dead bytes reach both thresholds, the one measured against all bytes; an empty tracker has a share of 0 |
| `Compaction.ArenaCompactor.Pack` | xerv-core/src/arena/compaction.rs:146-162 | the packing loop yields exactly the blocks whose place in the packing differs from their offset, and the packing's end |
| `Compaction.ArenaCompactor.Plan` | xerv-core/src/arena/compaction.rs:143-168 | the plan is that packing of the tracker's live entries, reclaiming its dead total; `PlanMoves` and `PlanEnd` say what it tells |
| `Compaction.ArenaCompactor.CopyUp` | xerv-core/src/arena/compaction.rs:218-222 | the byte loop from the end copies an overlapping range upwards as if through a second buffer and touches nothing else |
| `Compaction.ArenaCompactor.CopyDown` | xerv-core/src/arena/compaction.rs:223-228 | the byte loop from the start does the same downwards |
| `Compaction.ArenaCompactor.MoveAll` | xerv-core/src/arena/compaction.rs:198-232 | the buffer, the offset map and the first refused move are those of running the moves one after another |
| `Compaction.ArenaCompactor.UpdateTracker` | xerv-core/src/arena/compaction.rs:234-252 | the tracker is rebuilt from the live entries at their packed offsets, under a new generation |
| `Compaction.ArenaCompactor.Execute` | xerv-core/src/arena/compaction.rs:178-263 | tracker, buffer and answer after a call: untouched and empty if not wanted, refused half-way, or performed with what `AnswerMaps` and `AnswerCounts` say |
| `ArenaRuns.LifeInvariant` | xerv-core/src/arena/allocation.rs:66-92 | every life of writes into an arena of up to 4 GiB, deaths and compactions keeps an arena layout below the write position and exact totals |
| `ArenaRuns.CompactionFreesSpace` | xerv-core/src/arena/compaction.rs:160-167 | compacting never moves the write position up |
| `ArenaRuns.LifeCompactionIff` | xerv-core/src/arena/compaction.rs:178-263 | after any life, a compaction succeeds with the tracker the life goes on with, and keeps the data of every buffer if and only if the overlap condition holds |
| `ArenaHeader.HeaderRoundTrip` | xerv-core/src/arena/header.rs:91-169 | a header is 128 bytes and is read back field by field from them, whatever follows |
| `ArenaHeader.FieldsAt` | xerv-core/src/arena/header.rs:91-139 | where each field stands in the 128 bytes, the padding between them skipped |
| `Bytes.LowestFirst` | xerv-core/src/arena/header.rs:142-169 | numbers are written with their least significant byte first |
| `ArenaHeader.ReadWidths` | xerv-core/src/arena/header.rs:91-139 | a header that is read has a 16-byte trace id and 32 reserved bytes |
| `Arena.CreatedIsStart` | xerv-core/src/arena/writer.rs:168-245 | a created arena is sound, and its file starts with its header |
| `Arena.CreatedTells` | xerv-core/src/arena/writer.rs:168-245 | what stands in a created file: magic number and version, the trace, the data region and the write position right after the header, capacity and time, then zeros |
| `Arena.WriteKeeps` | xerv-core/src/arena/writer.rs:340-380 | a write keeps all earlier entries readable, apart and aligned, and adds its own |
| `Arena.WrittenTells` | xerv-core/src/arena/writer.rs:340-380 | the bytes at the old write position, zeros up to the new one, everything else as it was, and a pointer with the size cut to 32 bits |
| `Arena.SaveKeeps` | xerv-core/src/arena/writer.rs:414-435 | overwriting the first 128 bytes touches no entry, and all entries are covered from then on |
| `Arena.RunKeeps` | xerv-core/src/arena/writer.rs:340-435 | at any time of any run of writes, header updates and reopenings, the entries are in place and the file starts with the last saved header |
| `Arena.PointersStable` | xerv-core/src/arena/writer.rs:340-401 | in any such run every pointer handed out, and not given up by a reopening, reads back its bytes, all of them if and only if they were fewer than 2^32; entries are aligned and disjoint |
| `Arena.HugeEntryReadsEmpty` | xerv-core/src/arena/writer.rs:340-380 | the pointer to an entry of 2^32 bytes reads back none of them |
| `Arena.OpensAsSaved` | xerv-core/src/arena/writer.rs:248-314 | a sound arena's file opens to the same arena at the saved write position |
| `Arena.OpensIff` | xerv-core/src/arena/writer.rs:280-292 | a file opens if and only if it has 128 bytes, the magic number and version 1, and a write position within the capacity it tells; the arena goes on at that write position |
| `Arena.OpenedIs` | xerv-core/src/arena/header.rs:77-88 | which error is answered for which bytes |
| `Arena.ReopenRecoversCovered` | xerv-core/src/arena/writer.rs:248-314 | reopening at any moment recovers exactly the writes before the last header update; later pointers with bytes are refused |
| `Arena.SavedOpensIff` | xerv-core/src/arena/writer.rs:270-292 | a saved arena opens again if and only if it was not written past the capacity in its header |
| `Arena.WrittenPastItsHeader` | xerv-core/src/arena/writer.rs:270-380 | a file longer than its header says, written past the capacity in the header, saved and then refused |
| `Arena.ArenaInner.Create` | xerv-core/src/arena/writer.rs:168-245 | a zeroed file of the configured size that begins with a fresh header; a panic if the header does not fit |
| `Arena.ArenaInner.Open` | xerv-core/src/arena/writer.rs:248-314 | for every file: its bytes and length as they are, at the write position its header holds; or the error, if the header does not parse or validate; or a panic, if there is no room for one |
| `Arena.ArenaInner.WriteBytes` | xerv-core/src/arena/writer.rs:340-380 | with room: the bytes, padded with zeros to 8, at the old write position, and a pointer to them; without: an error with the sizes, and nothing changed |
| `Arena.ArenaInner.ReadBytes` | xerv-core/src/arena/writer.rs:383-401 | the bytes asked for, an error if they reach past the write position, a panic if they reach past the file |
| `Arena.ArenaInner.WriteHeader` | xerv-core/src/arena/writer.rs:414-435 | the header with the current write position, in memory and over the first 128 bytes |
| `Arena.ArenaHandle.WriteBytes` | xerv-core/src/arena/writer.rs:340-380 | a write through the owner does what a write to the shared arena does |
| `Arena.ArenaHandle.Drop` | xerv-core/src/arena/writer.rs:473-484 | dropping the owner saves the header |
| `Arena.ArenaWriter.WriteBytes` | xerv-core/src/arena/writer.rs:533-567 | a write through a cloned writer does what a write to the shared arena does |
| `MigrationGraph.ShortChainsVisited` | xerv-core/src/schema/migration.rs:148-174 | whatever a chain reaches within the current search distance has been visited, at no greater distance |
| `MigrationGraph.NothingLeft` | xerv-core/src/schema/migration.rs:148-176 | once the queue is empty no chain of any length leads to the target |
| `MigrationGraph.FoundIsShortest` | xerv-core/src/schema/migration.rs:148-174 | while a hash is being expanded, every chain to the target is longer than its distance |
| `MigrationGraph.Graph.AddEdge` | xerv-core/src/schema/migration.rs:120-125 | one edge is appended under its source and nothing else changes |
| `MigrationGraph.Graph.RemoveEdgesFor` | xerv-core/src/schema/migration.rs:127-131 | exactly the edges between the two hashes go |
| `MigrationGraph.Graph.Reconstruct` | xerv-core/src/schema/migration.rs:151-166 | walking the parent links back gives a chain as long as the distance |
| `MigrationGraph.Graph.Expand` | xerv-core/src/schema/migration.rs:149-172 | one pass over the neighbours either returns a shortest chain or finishes the hash |
| `MigrationGraph.Graph.ShortestPath` | xerv-core/src/schema/migration.rs:136-177 | the search ends on every graph; a returned path is a chain that no chain is shorter than, and no path means that no chain exists |
| `MigrationRegistry.ChainIsRoute` | xerv-core/src/schema/migration.rs:259-273 | indices that chain in the graph are registered migrations that lead one to the next |
| `MigrationRegistry.ShortestChainIsShortestRoute` | xerv-core/src/schema/migration.rs:259-273 | a shortest chain of indices is a shortest route of registered migrations |
| `MigrationRegistry.RouteKeepsValid` | xerv-core/src/schema/migration.rs:288-312 | if every registered transform that succeeds takes valid data to valid data in the arena it leaves, so does every route |
| `MigrationRegistry.ReplaceAgrees` | xerv-core/src/schema/migration.rs:214-216 | replacing in place keeps vector, index and graph in agreement and changes one migration |
| `MigrationRegistry.AddStep` | xerv-core/src/schema/migration.rs:217-223 | a first registration keeps the agreement and adds one migration |
| `MigrationRegistry.UnregisterStep` | xerv-core/src/schema/migration.rs:229-244 | an unregistration keeps the agreement and removes one migration, though its slot stays |
| `MigrationRegistry.Registry.Register` | xerv-core/src/schema/migration.rs:206-226 | what is registered changes in this one key, and the three structures agree again |
| `MigrationRegistry.Registry.Unregister` | xerv-core/src/schema/migration.rs:229-244 | the key is gone from what is registered, and the answer is what was there |
| `MigrationRegistry.Registry.FindDirect` | xerv-core/src/schema/migration.rs:247-254 | the migration registered under the key, if any |
| `MigrationRegistry.Registry.FindPath` | xerv-core/src/schema/migration.rs:259-273 | a shortest route of registered migrations, or none only if there is no route |
| `MigrationRegistry.Registry.HasPath` | xerv-core/src/schema/migration.rs:276-283 | true if and only if a route exists |
| `MigrationRegistry.Registry.Migrate` | xerv-core/src/schema/migration.rs:288-312 | arena and offset after the transforms of a shortest route in turn, or after the first that fails; refused for lack of a path, with the arena as it was, if and only if there is no route; valid source data comes out valid for the target |
| `MigrationRegistry.Registry.MigrationsFrom` | xerv-core/src/schema/migration.rs:330-344 | exactly the registered migrations that leave the schema, once each |
| `MigrationRegistry.Registry.MigrationsTo` | xerv-core/src/schema/migration.rs:347-356 | exactly the registered migrations that arrive at the schema, once each |
| `MigrationRegistry.Registry.Len` | xerv-core/src/schema/migration.rs:319-322 | the registered migrations and the ones unregistered so far, together; the former alone if and only if there are none of the latter |
| `MigrationRegistry.VectorListsIff` | xerv-core/src/schema/migration.rs:314-327 | the vector lists the registered migrations, each once, if and only if it has no slot more than they are |
| `MigrationRegistry.Registry.List` | xerv-core/src/schema/migration.rs:314-317 | every registered migration, and nothing else and none twice if and only if none was ever unregistered |
| `MigrationRegistry.Registry.IsEmpty` | xerv-core/src/schema/migration.rs:324-327 | true if and only if nothing is registered and nothing ever was unregistered |
| `MigrationRegistry.UnregisteredLingers` | xerv-core/src/schema/migration.rs:229-244 | a registry with nothing registered, of length one |
| `RegistryLocks.MayStopIff` | xerv-core/src/schema/migration.rs:206-356 | over every interleaving of any number of threads, a standstill is reachable if and only if there are two or more threads that register and that look up directly or search for paths, whether or not readers overtake waiting writers |
| `RegistryLocks.StuckForever` | xerv-core/src/schema/migration.rs:206-356 | no step of anyone gets a stuck group of threads going again |
| `RegistryLocks.NobodyWaits` | xerv-core/src/schema/migration.rs:206-356 | if no thread of a stuck group waits for the locks taken later, none waits for this one |
| `RegistryLocks.LookupStops` | xerv-core/src/schema/migration.rs:247-254 | a run in which a registration and a direct lookup wait for each other |
| `RegistryLocks.SearchStops` | xerv-core/src/schema/migration.rs:259-273 | a run in which a registration and a path search wait for each other |
| `Compatibility.FieldFitsIff` | xerv-core/src/schema/compatibility.rs:203-245 | a field's changes hold a breaking one if and only if it was dropped, retyped, made required or newly required |
| `Compatibility.NoneBreakingIff` | xerv-core/src/schema/compatibility.rs:171-183 | a report without breaking change means that every field fits, and conversely |
| `Compatibility.RetypedIff` | xerv-core/src/schema/compatibility.rs:224-231 | a field is reported as retyped, from its old type to its new one, if and only if it is in both schemas with different types |
| `Compatibility.ReportedIff` | xerv-core/src/schema/compatibility.rs:203-245 | which fields are reported as removed, added, made required or made optional, and with which types |
| `Compatibility.ReportShapes` | xerv-core/src/schema/compatibility.rs:203-245 | no other change is reported, and types are given where there are any |
| `Compatibility.NonBreakingTransitive` | xerv-core/src/schema/compatibility.rs:191-248 | having no breaking change composes |
| `Compatibility.CompatibilityMatrix.DetectChanges` | xerv-core/src/schema/compatibility.rs:191-248 | the report holds the changes of every field of either schema, each once, and nothing else |
| `Compatibility.CompatibilityMatrix.Check` | xerv-core/src/schema/compatibility.rs:157-188 | compatible if and only if the hashes agree or no change breaks; a migration is on offer if and only if none is needed or a route exists |
| `Compatibility.IsCompatibleWith` | xerv-core/src/traits/schema.rs:138-161 | true if and only if the hashes agree or every required field of the other schema is here with its type |
| `Compatibility.GetField` | xerv-core/src/traits/schema.rs:129-131 | the first field of that name, or none only if there is none |
| `Compatibility.LookupsAgree` | xerv-core/src/schema/compatibility.rs:194-200 | with unique names, the hash map and the linear search find the same field |
| `Compatibility.CompatibleBothWays` | xerv-core/src/traits/schema.rs:138-161 | directly compatible schemas pass the quick check in both directions, the hash shortcut included |
| `Compatibility.BothWaysIsCompatibleIff` | xerv-core/src/traits/schema.rs:138-161 | schemas that pass both ways are directly compatible if and only if every optional field of the old one is still there, optional and of its type |
| `Compatibility.DroppedOptionalPassesBothWays` | xerv-core/src/traits/schema.rs:138-161 | two schemas that pass both ways although an optional field is dropped |
| `Compatibility.ComposesInFrontIff` | xerv-core/src/schema/compatibility.rs:157-188 | a step goes in front of every compatible step from its target if and only if it breaks nothing, and the two share their hash or the target has none |
| `Compatibility.ComposesBehindIff` | xerv-core/src/schema/compatibility.rs:157-188 | and behind every compatible step to its source, under the mirrored condition |
| `Compatibility.SharedHashIsHarmlessIff` | xerv-core/src/schema/compatibility.rs:158-161 | two schemas with the same hash can stand in for each other if and only if no field of the first breaks in the second |
| `Compatibility.CompatibleTransitive` | xerv-core/src/schema/compatibility.rs:157-188 | so where equal hashes mean that the fields fit, direct compatibility composes |
| `Compatibility.OfferedForFreeIff` | xerv-core/src/schema/compatibility.rs:184-187 | for a breaking change, the empty route is a shortest one if and only if neither schema has a hash |
| `Compatibility.OfferedWithoutMigrationsIff` | xerv-core/src/schema/compatibility.rs:250-253 | with nothing registered, a migration is on offer for a breaking change if and only if neither schema has a hash |
| `Compatibility.FreeMigrationChangesNothing` | xerv-core/src/schema/migration.rs:295-297 | a shortest route between equal hashes has no step, so migrating hands the data back |
| `Compatibility.UnhashedSchemasOfferOne` | xerv-core/src/schema/compatibility.rs:184-187 | two schemas without hashes, a required field dropped, and a migration on offer |
| `Compatibility.CollisionBreaksTransitivity` | xerv-core/src/schema/compatibility.rs:158-161 | where they do not, it fails to: three concrete schemas |
| `CycleDetection.LassoIsCycle` | xerv-wasm/src/lib.rs:400-402 | a walk that comes back to where it has been shows a reachable closed walk |
| `CycleDetection.NumberedIsAcyclic` | xerv-wasm/src/lib.rs:414-416 | nodes numbered downwards along edges reach no closed walk |
| `CycleDetection.DfsCycle` | xerv-wasm/src/lib.rs:390-417 | the recursion ends; yes means a closed walk is reachable, no means the path is restored and everything visited is numbered |
| `CycleDetection.StepsAreEdges` | xerv-wasm/src/lib.rs:370-376 | the adjacency lists are the pipeline's edges |
| `CycleDetection.HasCycle` | xerv-wasm/src/lib.rs:369-388 | yes if and only if a listed node reaches a closed walk; no if and only if what is reachable has a topological order |
| `Dispatch.FirstExists` | xerv-core/src/dispatch/memory.rs:60-68 | a non-empty queue always has a request that none precedes |
| `Dispatch.DrainsAll` | xerv-core/src/dispatch/memory.rs:143-155 | drained without new requests, each request comes out once, first in first out in the order in which they came in |
| `Dispatch.DrainSorted` | xerv-core/src/dispatch/memory.rs:60-68 | in priority mode they come out by falling priority, and among equals the older first |
| `Dispatch.MemoryDispatch.Push` | xerv-core/src/dispatch/memory.rs:119-141 | refused if and only if the queue is full, and then nothing changes |
| `Dispatch.MemoryDispatch.Pop` | xerv-core/src/dispatch/memory.rs:143-155 | removes one request: the oldest, or in priority mode one than which no other has a higher priority, or the same and an earlier time |
| `Dispatch.MemoryDispatch.Enqueue` | xerv-core/src/dispatch/memory.rs:165-177 | refused while shutting down or full, otherwise queued once |
| `Dispatch.MemoryDispatch.Dequeue` | xerv-core/src/dispatch/memory.rs:179-213 | the request handed out is in flight with one more attempt; in priority mode no other has a higher priority, or the same and an earlier time |
| `Dispatch.MemoryDispatch.Ack` | xerv-core/src/dispatch/memory.rs:215-221 | the trace is no longer in flight, and nothing else changes |
| `Dispatch.MemoryDispatch.Nack` | xerv-core/src/dispatch/memory.rs:223-249 | out of flight, and back in the queue if a retry is wanted, allowed and finds room |
| `Dispatch.MemoryDispatch.Shutdown` | xerv-core/src/dispatch/memory.rs:263-271 | only the flag changes |
| `Dispatch.MemoryDispatch.GetPendingByPipeline` | xerv-core/src/dispatch/memory.rs:273-294 | the pipeline's queued traces and none in flight, in queue order, or in priority mode in any order |
| `Dispatch.PendingIff` | xerv-core/src/dispatch/memory.rs:273-294 | an id is listed if and only if a queued request has it and the pipeline |
| `Dispatch.RetryLostIff` | xerv-core/src/dispatch/memory.rs:227-236 | a trace to be retried is gone after the nack if and only if the queue was full |
| `Dispatch.RetryIsLost` | xerv-core/src/dispatch/memory.rs:165-236 | a run of four operations that loses a trace |
| `Dispatch.TriedExactly` | xerv-core/src/dispatch/request.rs:90-97 | on either backend, a trace that is retried every time, with room, is delivered exactly max(1, max_attempts - attempt) times |
| `Dispatch.RaftDispatch.Enqueue` | xerv-core/src/dispatch/raft.rs:193-215 | refused while shutting down, otherwise appended |
| `Dispatch.RaftDispatch.Dequeue` | xerv-core/src/dispatch/raft.rs:217-235 | the oldest request, in flight with one more attempt |
| `Dispatch.RaftDispatch.Nack` | xerv-core/src/dispatch/raft.rs:254-283 | out of flight, and appended again if a retry is wanted and allowed |
| `Dispatch.RaftDispatch.GetPendingByPipeline` | xerv-core/src/dispatch/raft.rs:316-340 | the pipeline's queued traces in order, then each of its traces in flight once |
| `Dispatch.ListingsAgreeIff` | xerv-core/src/dispatch/raft.rs:316-340 | from the same state both backends list the same ids if and only if no trace of the pipeline is in flight |
| `Dispatch.StepSameIff` | xerv-core/src/dispatch/raft.rs:193-283 | from the same state both backends reach the same state if and only if no push meets a full queue, and then answer alike if and only if no trace in flight is listed |
| `Dispatch.BackendsAgreeIff` | xerv-core/src/dispatch/memory.rs:165-294 | over every sequence of operations the backends agree in every state and answer if and only if no push ever meets a full queue and no pipeline with a trace in flight is listed |
| `Dispatch.ListingTellsThemApart` | xerv-core/src/dispatch/raft.rs:316-340 | a run that meets no full queue and tells them apart |
| `Dispatch.ShutdownLeavesATrace` | xerv-core/src/dispatch/memory.rs:263-271 | a run that shuts down with a trace in flight |
| `DispatchProtocol.DequeueIsItsSteps` | xerv-core/src/dispatch/memory.rs:179-213 | undisturbed, check, pop and insert do what the whole operation does, on either backend |
| `DispatchProtocol.NackIsItsSteps` | xerv-core/src/dispatch/memory.rs:223-249 | undisturbed, take and push do what the whole operation does, on either backend |
| `DispatchProtocol.EnqueueIsItsSteps` | xerv-core/src/dispatch/memory.rs:165-177 | undisturbed, check and push do what the whole operation does, on either backend |
| `DispatchProtocol.AckIsItsStep` | xerv-core/src/dispatch/memory.rs:215-271 | an acknowledgement and a shutdown are one step each |
| `DispatchProtocol.ExactlyOnePlace` | xerv-core/src/dispatch/memory.rs:119-249 | on either backend, under every interleaving of any number of threads' lock steps, each accepted trace is in exactly one of: queue, a thread's hand, in flight, acked, failed, dropped; any other id is in none |
| `DispatchProtocol.DroppedIff` | xerv-core/src/dispatch/memory.rs:227-236 | a step drops a trace if and only if it is a retry's push that meets a full queue |
| `DispatchProtocol.DeliveriesBounded` | xerv-core/src/dispatch/request.rs:90-97 | in any run an accepted trace is delivered at most max(1, max_attempts - attempt) times |
| `DispatchProtocol.RetryingEnds` | xerv-core/src/dispatch/memory.rs:119-249 | enqueued minus dequeued is the queue's length, and all deliveries of a run stay within the bounds of the traces it accepted |
| `DispatchProtocol.NoneLeftBehindIff` | xerv-core/src/dispatch/memory.rs:179-271 | on either backend, in every continuation of a shutdown no trace is in flight or on its way there if and only if none was at that moment and no dequeue past its check could still find one |
| `DispatchProtocol.DeliveriesAfterShutdown` | xerv-core/src/dispatch/memory.rs:179-213 | after a shutdown at most as many deliveries as dequeues were past their check; with none, the queue is kept |
| `DispatchProtocol.QueueIsStrandedIff` | xerv-core/src/dispatch/memory.rs:179-213 | a queue that is not empty at a shutdown is never handed out from again if and only if no dequeue was past its check |
| `DispatchProtocol.HandedOutAfterShutdown` | xerv-core/src/dispatch/memory.rs:179-213 | a run on either backend in which a trace is in flight after a shutdown that found none |
| `CircuitBreaker.PruneExact` | xerv-executor/src/circuit_breaker.rs:126-133 | pruning an ascending deque from the front leaves exactly the times inside the window |
| `CircuitBreaker.PrunedIs` | xerv-executor/src/circuit_breaker.rs:126-133 | for every deque, the times dropped are those at the front whose window has ended, up to the first whose has not |
| `CircuitBreaker.CountWithinIs` | xerv-executor/src/circuit_breaker.rs:173-182 | what is counted are the times whose window has not ended |
| `CircuitBreaker.PruningRefines` | xerv-executor/src/circuit_breaker.rs:120-160 | on every run with a monotone clock the breaker behaves as one that forgets no failure |
| `CircuitBreaker.FailureCountIsExact` | xerv-executor/src/circuit_breaker.rs:173-182 | at any time the count is the number of failures since the last clear inside the window |
| `CircuitBreaker.TripsIff` | xerv-executor/src/circuit_breaker.rs:140-148 | a failure opens a closed circuit if and only if this period's failures in the window reach the threshold |
| `CircuitBreaker.HistoryIs` | xerv-executor/src/circuit_breaker.rs:105-190 | this period's failures are those since the last reset or closing success |
| `CircuitBreaker.TripsOnRecentFailures` | xerv-executor/src/circuit_breaker.rs:140-148 | so a failure opens a closed circuit if and only if, of the failures since then, the last failure_threshold lie no further back than the window |
| `CircuitBreaker.OpenUntilTimeout` | xerv-executor/src/circuit_breaker.rs:84-100 | after a trip, short of a reset, the circuit stays open with the trip's time until the timeout is over |
| `CircuitBreaker.NoAdmissionBeforeTimeout` | xerv-executor/src/circuit_breaker.rs:81-102 | in runs of whole operations no request is admitted between a trip and its recovery timeout |
| `CircuitBreaker.OpenAdmitsIff` | xerv-executor/src/circuit_breaker.rs:84-100 | a circuit that a trip opened and nothing has reset or reopened admits a request if and only if the timeout is over |
| `CircuitBreaker.ClosingNeedsSuccesses` | xerv-executor/src/circuit_breaker.rs:105-117 | in runs of whole operations every return to Closed but a reset follows exactly the required successes, without a failure, since HalfOpen was entered |
| `CircuitBreaker.RejectedCountsRefusals` | xerv-executor/src/circuit_breaker.rs:97-98 | the rejected count is the number of refusals of the run |
| `CircuitBreaker.CircuitBreaker.AllowRequest` | xerv-executor/src/circuit_breaker.rs:81-102 | the answer and the whole new state of an admission |
| `CircuitBreaker.CircuitBreaker.RecordSuccess` | xerv-executor/src/circuit_breaker.rs:105-117 | the whole new state after a success |
| `CircuitBreaker.CircuitBreaker.RecordFailure` | xerv-executor/src/circuit_breaker.rs:120-160 | the whole new state after a failure, the pruning loop included |
| `CircuitBreaker.CircuitBreaker.FailureCount` | xerv-executor/src/circuit_breaker.rs:173-182 | the number of kept failures inside the window |
| `CircuitBreaker.CircuitBreaker.ResetBreaker` | xerv-executor/src/circuit_breaker.rs:185-190 | closed with an empty history; the rejected count stays |
| `CircuitBreakerSteps.FailureIsItsSteps` | xerv-executor/src/circuit_breaker.rs:120-160 | undisturbed, reading the clock, deciding, opening, stamping and setting the count back do what a failure does |
| `CircuitBreakerSteps.ClosingIsItsSteps` | xerv-executor/src/circuit_breaker.rs:110-115 | undisturbed, the three writes of a closing leave the circuit closed without time and failures |
| `CircuitBreakerSteps.SuccessIsItsSteps` | xerv-executor/src/circuit_breaker.rs:105-117 | undisturbed, seeing, counting and these writes do what a success does |
| `CircuitBreakerSteps.ResetIsItsSteps` | xerv-executor/src/circuit_breaker.rs:185-190 | undisturbed, four writes do what a reset does |
| `CircuitBreakerSteps.AdmissionIsItsSteps` | xerv-executor/src/circuit_breaker.rs:81-102 | undisturbed, seeing, checking, reopening and setting the count back do what an admission does |
| `CircuitBreakerSteps.EarlyIff` | xerv-executor/src/circuit_breaker.rs:81-160 | under every interleaving of any number of reporting, resetting and requesting threads, a step lets a request through before the timeout of the latest trip if and only if it reopens, or finds, a circuit taken out of Open in one of the three ways |
| `CircuitBreakerSteps.OnlyThroughTheGap` | xerv-executor/src/circuit_breaker.rs:149-155 | with one reporting thread, only by a reopening between the two writes of a trip |
| `CircuitBreakerSteps.SlipsThrough` | xerv-executor/src/circuit_breaker.rs:149-155 | a run in which a request gets through at the very time of a trip whose stamp is missing |
| `CircuitBreakerSteps.OlderTimeLetsThrough` | xerv-executor/src/circuit_breaker.rs:140-147 | a run of two reporting threads in which the older of two trips is stamped last |
| `CircuitBreakerSteps.ClosesLate` | xerv-executor/src/circuit_breaker.rs:106-113 | a run of two reporting threads in which a closing decided before a trip follows it |
| `CircuitBreakerSteps.CountSince` | xerv-executor/src/circuit_breaker.rs:92-109 | until it is set back after a reopening, the count goes on from what it was; then it holds later successes only |
| `CircuitBreakerSteps.ShortClosingIff` | xerv-executor/src/circuit_breaker.rs:92-109 | a success decides to close although fewer than the required ones were counted since the reopening if and only if the count was not set back since and what was left in it makes up for the rest |
| `CircuitBreakerSteps.OneSuccessCloses` | xerv-executor/src/circuit_breaker.rs:92-109 | a run in which one success closes a circuit that needs two |
| `CircuitBreakerSteps.NeverAgainIff` | xerv-executor/src/circuit_breaker.rs:84-100 | with no call under way, no continuation without a reset ever admits a request if and only if the circuit is open and has no time |
| `CircuitBreakerSteps.SticksOpen` | xerv-executor/src/circuit_breaker.rs:110-115 | a run without a reset that gets there: a trip between the writes of a closing |
| `WalRecord.TypeOf` | xerv-core/src/wal/record.rs:38-57 | the codes 0 to 10 and no others name a type, each its own |
| `WalRecord.CodesCountTypes` | xerv-core/src/wal/record.rs:38-57 | the codes count the types in their order |
| `WalRecord.LengthFieldIsLength` | xerv-core/src/wal/record.rs:384-396 | the length field holds the record's length |
| `WalRecord.RecordRoundTrip` | xerv-core/src/wal/record.rs:242-381 | every record that fits is read back from its bytes, whatever follows, an empty string as an absent one |
| `WalRecord.RoundTripExactIff` | xerv-core/src/wal/record.rs:242-381 | the very same record comes back if and only if neither string is present but empty |
| `WalRecord.EmptyMessageVanishes` | xerv-core/src/wal/record.rs:242-381 | a record with an empty error message comes back without one |
| `WalRecord.TornRecordRefused` | xerv-core/src/wal/record.rs:288-381 | a record cut off anywhere is refused, without a panic |
| `WalRecord.ReadIff` | xerv-core/src/wal/record.rs:288-381 | bytes are read as a record if and only if they are as many as their length field says and that at least 29, the type is known, the checksum is the payload's, and the payload holds both texts |
| `WalRecord.ReadTells` | xerv-core/src/wal/record.rs:288-381 | each field of the record read is what stands in its place |
| `WalRecord.CorruptedIsRefused` | xerv-core/src/wal/record.rs:328-338 | a record whose payload was exchanged for one of the same length and another checksum is refused as a mismatch |
| `WalRecord.PanicsIff` | xerv-core/src/wal/record.rs:288-381 | decoding panics if and only if the type is known and the length field is below the minimum |
| `WalRecord.ZerosPanic` | xerv-core/src/wal/record.rs:288-381 | it does on 29 zeros |
| `WalRecord.StreamSplitsUniquely` | xerv-core/src/wal/record.rs:242-381 | two lists of records with the same concatenated bytes are the same list, up to absent and empty strings |
| `WalRecord.SerializedSize` | xerv-core/src/wal/record.rs:384-396 | the predicted size is the length of the encoding |
| `WalRecord.ToBytes` | xerv-core/src/wal/record.rs:242-285 | appending field by field gives the encoding |
| `Snapshots.RecoveryIsExactIff` | xerv-core/src/wal/snapshot_manager.rs:383-417 | a snapshot's recovery states are those it was taken of if and only if each is filed under its trace and none carries suspension metadata |
| `Snapshots.MetadataIsLost` | xerv-core/src/wal/snapshot_manager.rs:383-417 | a trace suspended with metadata is recovered without |
| `Snapshots.LatestIs` | xerv-core/src/wal/snapshot_manager.rs:230-268 | the latest snapshot is the valid file with the largest id, or none if no file is valid |
| `Snapshots.CrashSafe` | xerv-core/src/wal/snapshot_manager.rs:107-227 | with retention of at least 1, after any number of a call's file operations, any removals failing, the latest is the previous one before the rename and the new one after |
| `Snapshots.TornTempIsInvisible` | xerv-core/src/wal/snapshot_manager.rs:169-227 | a half-written temporary file changes neither the latest snapshot nor the next id |
| `Snapshots.NewSurvivesIff` | xerv-core/src/wal/snapshot_manager.rs:336-375 | a completed call leaves its snapshot as the latest if and only if the retention is at least 1 |
| `Snapshots.NothingRetained` | xerv-core/src/wal/snapshot_manager.rs:336-375 | with a retention of 0 an empty directory is empty again after the call |
| `Snapshots.CompletedKeepsNewest` | xerv-core/src/wal/snapshot_manager.rs:336-375 | a completed call leaves exactly the newest files of the retention count and those whose removal failed, unchanged, and no temporary file of its own |
| `Snapshots.NewestAre` | xerv-core/src/wal/snapshot_manager.rs:336-375 | the newest files are as many as the retention count, or all, and no other is newer than one of them |
| `Snapshots.FailedLeaves` | xerv-core/src/wal/snapshot_manager.rs:107-166 | a call that fails to write leaves every snapshot as it was, and at most a temporary file of its own |
| `Snapshots.IdsIncrease` | xerv-core/src/wal/snapshot_manager.rs:60-82 | after a crash at any point from the rename on, a restart continues with the id after the one just used |
| `Snapshots.LastInstalledIsLoaded` | xerv-core/src/wal/snapshot_manager.rs:107-268 | over every sequence of completed and failed calls, crashes and restarts, loading finds the last snapshot put in place and the next id is fresh |
| `Snapshots.SnapshotManager.constructor` | xerv-core/src/wal/snapshot_manager.rs:39-57 | a start on any directory gives out an id above all ids on disk |
| `Snapshots.SnapshotManager.FindNextId` | xerv-core/src/wal/snapshot_manager.rs:60-82 | one more than the largest id on disk, in whatever order files are listed |
| `Snapshots.SnapshotManager.CreateSnapshot` | xerv-core/src/wal/snapshot_manager.rs:107-166 | the directory after all file operations of the call, the snapshot returned, and the id consumed; if writing fails, the id consumed all the same, the counter kept and at most a temporary file left |
| `Snapshots.SnapshotManager.Cleanup` | xerv-core/src/wal/snapshot_manager.rs:336-375 | a removal attempt for each file but the newest of the retention count, oldest first |
| `Snapshots.SnapshotManager.LoadLatest` | xerv-core/src/wal/snapshot_manager.rs:230-268 | trying ids from the largest down finds the latest snapshot |
| `SecretIndex.InsertInverse` | xerv-operator/src/secret_watcher.rs:29-39 | inserting one pair on both sides keeps the maps exact inverses and adds that pair alone |
| `SecretIndex.PairTakenOut` | xerv-operator/src/secret_watcher.rs:45-50 | taking a pipeline out of a secret's set, and the set with it if empty, takes out that pair alone |
| `SecretIndex.SecretPipelineIndex.AddReference` | xerv-operator/src/secret_watcher.rs:29-39 | one pair more, both maps still inverse |
| `SecretIndex.SecretPipelineIndex.RemovePipeline` | xerv-operator/src/secret_watcher.rs:42-53 | exactly the pipeline's pairs go, from both maps |
| `SecretIndex.SecretPipelineIndex.UpdatePipelineIndex` | xerv-operator/src/secret_watcher.rs:236-251 | afterwards the pipeline refers to exactly the given secrets, and no other pair has changed |
| `SecretIndex.SecretPipelineIndex.GetPipelinesForSecret` | xerv-operator/src/secret_watcher.rs:56-58 | exactly the pipelines that refer to the secret, or none if and only if there is none |

## Left out

- File locks, memory mapping, fsync and partial durability: the arena file is an array of bytes whose writes
  take effect in order, the snapshot directory a map with an atomic rename. A torn temporary file is modelled.
- Locks of the arena and the tracker: their operations are atomic here, except that the live total reads its two
  parts one after the other. The registry's locks are modelled apart from what it holds, the breaker's and the
  dispatch backends' together with it.
- Async waiting and timeouts: a waiting dequeue may pop again or give up at any time. After a shutdown the source
  notifies it at once.
- The sort and the binary heap of the standard library: a descending sort of an ascending list is its reverse,
  a pop in priority mode is any request that no other precedes.
- The checksum as a computation: it is some function of the payload. UTF-8 is not checked; strings of the log
  are bytes.
- JSON of snapshots: a file either parses to the snapshot that was written or not at all. Time-based snapshot
  triggers are not modelled.
- Floating point: the fragmentation ratio and its threshold are real numbers.
- 64-bit totals, counters and sums: they are unbounded. Where 32-bit arithmetic wraps, in the generation
  counter and the rounding of sizes, it wraps here; a build with overflow checks would panic instead.
- The Raft backend inside a cluster, the Redis and NATS backends, and the code of scheduler, linker and flow
  validation: not part of this model.
- Selector formatting: it cuts an expression into pieces for an editor to colour, and nothing in the engine
  reads them. Orphan reports, log filters, schema version arithmetic, rename guesses and migration names: they
  describe or sort what is there, and no state that is modelled depends on them.
- ArenaRuns.LifeInvariant: in the repository nothing yet records a writer's entries in a tracker or moves the
  writer back after a compaction, whose result does not carry the new write position. That a life does both is
  this model's composition of the two.
- Allocation.AllocationTracker.RecordAllocation: offsets are unbounded naturals, so overflow of the 64-bit totals is not modelled.
- Compaction.ArenaCompactor.Execute: requires entries filed under their own offsets, which every operation of the tracker keeps (`Allocation.RunCovers`).
- Compaction.CompactionConserves: takes an arena layout, in which only the last block may be empty and all sizes can be rounded; a tracker filled by hand may put two blocks at one offset. Every life of an arena keeps such a layout.
- Arena.ArenaInner.Open: mapping an empty file is left to the library, which may refuse it with an error of its own before the header is looked for.
- Arena.ArenaInner.WriteBytes: when the write position is past the end of a shortened file, the error's number of available bytes is negative here, where the source's unsigned subtraction wraps or panics.
- Arena.ReopenRecoversCovered: speaks of pointers that count at least one byte; an empty read at the saved write position succeeds either way.
- MigrationRegistry.Registry.Register: requires a vector shorter than the search's sentinel index of 2^64 - 1.
- MigrationRegistry.Registry.Migrate: a transform is a function of the arena's bytes and an offset; other threads that write to the same arena meanwhile are not modelled.
- CircuitBreaker.PruningRefines: assumes a clock that does not go back, as the source's does not.
- DispatchProtocol.ExactlyOnePlace: assumes that clients never submit an id again that was accepted before.
- Snapshots.CrashSafe: needs a retention of at least 1; `Snapshots.NewSurvivesIff` shows why.
- WalRecord.RecordRoundTrip: takes records that fit a 32-bit length, the width of the length field.
