/**
 WAL snapshots: a temporary file, an atomic rename, then the removal of old
 files. Whatever instant the process dies at, the next start finds the previous
 latest snapshot or the new one.
 */
module Snapshots {
  import opened Prelude

  // ---------------------------------------------------------------------------
  // What a snapshot holds
  // ---------------------------------------------------------------------------

  datatype OutputLocation = OutputLocation(offset: nat, size: nat, schemaHash: nat)

  datatype RecoveryState = RecoveryState(
    traceId: nat, lastCompletedNode: Option<nat>, suspendedAt: Option<nat>, startedNodes: seq<nat>,
    completedNodes: map<nat, OutputLocation>, suspensionMetadata: Option<string>)

  datatype TraceSnapshot = TraceSnapshot(
    traceId: nat, lastCompletedNode: Option<nat>, suspendedAt: Option<nat>, startedNodes: seq<nat>,
    completedNodes: map<nat, OutputLocation>)

  datatype WalPosition = WalPosition(fileSequence: nat, offset: nat)

  datatype Snapshot = Snapshot(id: nat, position: WalPosition, traces: map<nat, TraceSnapshot>, recordCount: nat)

  function ToSnapshot(states: map<nat, RecoveryState>): map<nat, TraceSnapshot> {
    map t | t in states :: TraceSnapshot(
      t, states[t].lastCompletedNode, states[t].suspendedAt, states[t].startedNodes, states[t].completedNodes)
  }

  function ToRecoveryStates(snapshot: Snapshot): map<nat, RecoveryState> {
    map t | t in snapshot.traces :: RecoveryState(
      t, snapshot.traces[t].lastCompletedNode, snapshot.traces[t].suspendedAt, snapshot.traces[t].startedNodes,
      snapshot.traces[t].completedNodes, None)
  }

  /**
   Recovering from a snapshot gives back exactly the states it was taken of, if and only if each was
   filed under its own trace and none carried suspension metadata, which a snapshot has no room for.
   */
  lemma RecoveryIsExactIff(states: map<nat, RecoveryState>, id: nat, position: WalPosition, count: nat)
    ensures ToRecoveryStates(Snapshot(id, position, ToSnapshot(states), count)) == states
            <==> forall t :: t in states ==> states[t].traceId == t && states[t].suspensionMetadata.None?
  {
    var back := ToRecoveryStates(Snapshot(id, position, ToSnapshot(states), count));
    assert back.Keys == states.Keys;
    forall t | t in states ensures back[t] == states[t].(traceId := t, suspensionMetadata := None) {
    }
    if back == states {
      forall t | t in states ensures states[t].traceId == t && states[t].suspensionMetadata.None? {
        assert back[t] == states[t];
      }
    }
  }

  /** A trace suspended with metadata is recovered without. */
  lemma MetadataIsLost(id: nat, position: WalPosition, count: nat, metadata: string)
    ensures
      var states := map[1 := RecoveryState(1, None, Some(7), [7], map[], Some(metadata))];
      ToRecoveryStates(Snapshot(id, position, ToSnapshot(states), count))
      == map[1 := RecoveryState(1, None, Some(7), [7], map[], None)]
      != states
  {
    var states := map[1 := RecoveryState(1, None, Some(7), [7], map[], Some(metadata))];
    assert states[1].suspensionMetadata.Some?;
  }

  // ---------------------------------------------------------------------------
  // The directory
  // ---------------------------------------------------------------------------

  /** A file that does not parse as a snapshot loads as an error. */
  datatype Content = Valid(snapshot: Snapshot) | Torn

  /** Snapshot files and temporary files by id; only the former are ever listed. */
  datatype Directory = Directory(files: map<nat, Content>, temps: map<nat, Content>)

  /** The steps a crash can fall between. */
  datatype FsOp =
    | WriteTemp(id: nat, content: Content)
    | Rename(id: nat)
    | Remove(id: nat)
    | RemoveFails(id: nat)

  function ApplyOp(d: Directory, op: FsOp): Directory {
    match op
    case WriteTemp(id, content) => d.(temps := d.temps[id := content])
    case Rename(id) =>
      if id in d.temps then Directory(d.files[id := d.temps[id]], d.temps - {id}) else d
    case Remove(id) => d.(files := d.files - {id})
    case RemoveFails(_) => d
  }

  function ApplyOps(d: Directory, ops: seq<FsOp>): Directory {
    if ops == [] then d else ApplyOp(ApplyOps(d, ops[..|ops| - 1]), ops[|ops| - 1])
  }

  /** The first file of a descending list of ids that parses. */
  function FirstValid(files: map<nat, Content>, ids: seq<nat>): Option<Snapshot> {
    if ids == [] then None
    else if ids[|ids| - 1] in files && files[ids[|ids| - 1]].Valid? then Some(files[ids[|ids| - 1]].snapshot)
    else FirstValid(files, ids[..|ids| - 1])
  }

  /** The newest file that parses: ids are tried from the largest down. */
  function Latest(files: map<nat, Content>): Option<Snapshot> {
    FirstValid(files, Ascending(files.Keys))
  }

  /** `id` names a valid file, and no larger id does. */
  ghost predicate NewestValid(files: map<nat, Content>, id: nat) {
    id in files && files[id].Valid? && forall j :: j in files && files[j].Valid? ==> j <= id
  }

  lemma {:induction false} FirstValidIs(files: map<nat, Content>, ids: seq<nat>, id: nat)
    requires StrictlyIncreasing(ids) && id in ids && NewestValid(files, id)
    ensures FirstValid(files, ids) == Some(files[id].snapshot)
  {
    var last := ids[|ids| - 1];
    if last != id {
      var i :| 0 <= i < |ids| && ids[i] == id;
      assert ids[..|ids| - 1][i] == id;
      FirstValidIs(files, ids[..|ids| - 1], id);
    }
  }

  lemma {:induction false} FirstValidNone(files: map<nat, Content>, ids: seq<nat>)
    requires forall j :: j in files ==> !files[j].Valid?
    ensures FirstValid(files, ids) == None
  {
    if ids != [] {
      FirstValidNone(files, ids[..|ids| - 1]);
    }
  }

  /** Latest is the snapshot of the newest valid file, or none if no file is valid. */
  lemma LatestIs(files: map<nat, Content>)
    ensures forall id :: NewestValid(files, id) ==> Latest(files) == Some(files[id].snapshot)
    ensures (forall j :: j in files ==> !files[j].Valid?) ==> Latest(files) == None
  {
    AscendingSorted(files.Keys);
    forall id | NewestValid(files, id) ensures Latest(files) == Some(files[id].snapshot) {
      FirstValidIs(files, Ascending(files.Keys), id);
    }
    if forall j :: j in files ==> !files[j].Valid? {
      FirstValidNone(files, Ascending(files.Keys));
    }
  }

  // ---------------------------------------------------------------------------
  // Creating a snapshot
  // ---------------------------------------------------------------------------

  /** The ids that cleanup tries to remove: all but the newest `retention`. */
  function Surplus(files: map<nat, Content>, retention: nat): seq<nat> {
    var ids := Ascending(files.Keys);
    if |ids| <= retention then [] else ids[..|ids| - retention]
  }

  /** One removal for each id, failing for those in `stuck`. */
  function Removals(ids: seq<nat>, stuck: set<nat>): (r: seq<FsOp>)
    ensures |r| == |ids|
    ensures forall i :: 0 <= i < |ids| ==> r[i] == if ids[i] in stuck then RemoveFails(ids[i]) else Remove(ids[i])
  {
    seq(|ids|, i requires 0 <= i < |ids| => if ids[i] in stuck then RemoveFails(ids[i]) else Remove(ids[i]))
  }

  function Installed(d: Directory, s: Snapshot): Directory {
    ApplyOp(ApplyOp(d, WriteTemp(s.id, Valid(s))), Rename(s.id))
  }

  /** All file operations of one call, in order. A crash leaves the directory some prefix of them made. */
  function CreateOps(d: Directory, s: Snapshot, retention: nat, stuck: set<nat>): seq<FsOp> {
    [WriteTemp(s.id, Valid(s)), Rename(s.id)] + Removals(Surplus(Installed(d, s).files, retention), stuck)
  }

  /** A removal never touches a file that is newer than every id it is given. */
  lemma {:induction false} RemovalsSpare(d: Directory, ids: seq<nat>, stuck: set<nat>, n: nat, id: nat)
    requires n <= |ids| && forall i :: 0 <= i < |ids| ==> ids[i] < id
    ensures
      var after := ApplyOps(d, Removals(ids, stuck)[..n]);
      && (id in after.files <==> id in d.files) && (id in d.files ==> after.files[id] == d.files[id])
      && (forall j :: j in after.files ==> j in d.files && after.files[j] == d.files[j])
  {
    if n > 0 {
      RemovalsSpare(d, ids, stuck, n - 1, id);
      assert Removals(ids, stuck)[..n][..n - 1] == Removals(ids, stuck)[..n - 1];
    }
  }

  /** A new id above all existing ones is never among the surplus, as long as one file is kept. */
  lemma SurplusBelow(files: map<nat, Content>, retention: nat, id: nat)
    requires retention >= 1 && id in files && forall j :: j in files ==> j <= id
    ensures forall i :: 0 <= i < |Surplus(files, retention)| ==> Surplus(files, retention)[i] < id
  {
    var ids := Ascending(files.Keys);
    AscendingSorted(files.Keys);
    assert id in files.Keys;
    assert ids[|ids| - 1] == id by {
      var i :| 0 <= i < |ids| && ids[i] == id;
      assert ids[|ids| - 1] in files.Keys;
    }
  }

  lemma {:induction false} OpsJoin(d: Directory, a: seq<FsOp>, b: seq<FsOp>)
    ensures ApplyOps(d, a + b) == ApplyOps(ApplyOps(d, a), b)
  {
    if b == [] {
      assert a + b == a;
    } else {
      OpsJoin(d, a, b[..|b| - 1]);
      assert (a + b)[..|a + b| - 1] == a + b[..|b| - 1];
    }
  }

  lemma TwoOps(d: Directory, s: Snapshot)
    ensures ApplyOps(d, [WriteTemp(s.id, Valid(s)), Rename(s.id)]) == Installed(d, s)
    ensures ApplyOps(d, [WriteTemp(s.id, Valid(s))]) == ApplyOp(d, WriteTemp(s.id, Valid(s)))
  {
    var one := [WriteTemp(s.id, Valid(s))];
    var ops := [WriteTemp(s.id, Valid(s)), Rename(s.id)];
    assert one[..0] == [] && ApplyOps(d, one[..0]) == d;
    assert ops[..1] == one;
  }

  /** Where a call stands after its first `n` file operations. */
  lemma OpsSoFar(d: Directory, s: Snapshot, retention: nat, stuck: set<nat>, n: nat)
    requires n <= |CreateOps(d, s, retention, stuck)|
    ensures
      var after := ApplyOps(d, CreateOps(d, s, retention, stuck)[..n]);
      var removals := Removals(Surplus(Installed(d, s).files, retention), stuck);
      if n < 2 then after.files == d.files else after == ApplyOps(Installed(d, s), removals[..n - 2])
  {
    var first := [WriteTemp(s.id, Valid(s)), Rename(s.id)];
    var removals := Removals(Surplus(Installed(d, s).files, retention), stuck);
    var ops := CreateOps(d, s, retention, stuck);
    TwoOps(d, s);
    if n == 0 {
      assert ops[..0] == [];
    } else if n == 1 {
      assert ops[..1] == [WriteTemp(s.id, Valid(s))];
    } else {
      assert ops[..n] == first + removals[..n - 2];
      OpsJoin(d, first, removals[..n - 2]);
    }
  }

  /** Every id in use is below the next one to be given out. */
  ghost predicate FreshId(d: Directory, id: nat) {
    forall j :: j in d.files ==> j < id
  }

  /** Once the new file is in place, it is the latest, and stays so through any part of the cleanup. */
  lemma CleanupKeepsNew(d: Directory, s: Snapshot, retention: nat, stuck: set<nat>, n: nat)
    requires retention >= 1 && FreshId(d, s.id) && n <= |Surplus(Installed(d, s).files, retention)|
    ensures
      var ids := Surplus(Installed(d, s).files, retention);
      Latest(ApplyOps(Installed(d, s), Removals(ids, stuck)[..n]).files) == Some(s)
  {
    var files := Installed(d, s).files;
    var ids := Surplus(files, retention);
    assert files == d.files[s.id := Valid(s)];
    SurplusBelow(files, retention, s.id);
    RemovalsSpare(Installed(d, s), ids, stuck, n, s.id);
    var after := ApplyOps(Installed(d, s), Removals(ids, stuck)[..n]).files;
    assert NewestValid(after, s.id);
    LatestIs(after);
  }

  /**
   Crash safety: after any number of the call's file operations, with any removals failing, the latest
   snapshot is the previous one before the rename and the new one from then on.
   */
  lemma {:induction false} CrashSafe(d: Directory, s: Snapshot, retention: nat, stuck: set<nat>, n: nat)
    requires retention >= 1 && FreshId(d, s.id) && n <= |CreateOps(d, s, retention, stuck)|
    ensures
      var after := ApplyOps(d, CreateOps(d, s, retention, stuck)[..n]);
      Latest(after.files) == if n < 2 then Latest(d.files) else Some(s)
  {
    hide ApplyOps, Latest, Removals, Surplus;
    OpsSoFar(d, s, retention, stuck, n);
    if n >= 2 {
      CleanupKeepsNew(d, s, retention, stuck, n - 2);
    }
  }

  /** A crash in the middle of writing the temporary file, whatever it holds then, changes nothing either. */
  lemma TornTempIsInvisible(d: Directory, id: nat, content: Content)
    ensures Latest(ApplyOp(d, WriteTemp(id, content)).files) == Latest(d.files)
    ensures NextId(ApplyOp(d, WriteTemp(id, content)).files) == NextId(d.files)
  {
  }

  /** Keeping the newest snapshot needs a retention of at least one: with none, cleanup removes it too. */
  lemma {:induction false} NewSurvivesIff(d: Directory, s: Snapshot, retention: nat)
    requires FreshId(d, s.id)
    ensures Latest(ApplyOps(d, CreateOps(d, s, retention, {})).files) == Some(s) <==> retention >= 1
  {
    var ops := CreateOps(d, s, retention, {});
    assert ops[..|ops|] == ops;
    if retention >= 1 {
      CrashSafe(d, s, retention, {}, |ops|);
    } else {
      CompletedKeepsNewest(d, s, retention, {});
      var files := ApplyOps(d, ops).files;
      AscendingSorted(Installed(d, s).files.Keys);
      assert files.Keys == {};
      LatestIs(files);
    }
  }

  /** With a retention of zero, the first snapshot of an empty directory is gone when the call returns it. */
  lemma NothingRetained(s: Snapshot)
    ensures Latest(ApplyOps(Directory(map[], map[]), CreateOps(Directory(map[], map[]), s, 0, {})).files) == None
  {
    var d := Directory(map[], map[]);
    CompletedKeepsNewest(d, s, 0, {});
    AscendingSorted(Installed(d, s).files.Keys);
    assert ApplyOps(d, CreateOps(d, s, 0, {})).files.Keys == {};
    LatestIs(ApplyOps(d, CreateOps(d, s, 0, {})).files);
  }

  lemma {:induction false} RemovalsRemove(d: Directory, ids: seq<nat>, stuck: set<nat>)
    ensures
      var after := ApplyOps(d, Removals(ids, stuck));
      && (forall j :: j in after.files <==> j in d.files && (j !in ids || j in stuck))
      && (forall j :: j in after.files ==> after.files[j] == d.files[j]) && after.temps == d.temps
  {
    if ids != [] {
      var front, last := ids[..|ids| - 1], ids[|ids| - 1];
      RemovalsRemove(d, front, stuck);
      assert Removals(ids, stuck)[..|ids| - 1] == Removals(front, stuck);
      assert forall j :: j in ids <==> j in front || j == last;
    }
  }

  /** The newest `n` ids, or all if there are fewer. */
  function Newest(files: map<nat, Content>, n: nat): seq<nat> {
    var ids := Ascending(files.Keys);
    if |ids| <= n then ids else ids[|ids| - n..]
  }

  lemma TailIsLargest(ids: seq<nat>, d: nat, j: nat, k: nat)
    requires StrictlyIncreasing(ids) && d <= |ids| && j in ids[d..] && k in ids && k !in ids[d..]
    ensures k < j
  {
    var a :| 0 <= a < |ids[d..]| && ids[d..][a] == j;
    var b :| 0 <= b < |ids| && ids[b] == k;
    assert j == ids[d + a];
    assert forall i :: d <= i < |ids| ==> ids[i] == ids[d..][i - d];
  }

  /** They are as many as that, or all, and no other file is newer than one of them. */
  lemma NewestAre(files: map<nat, Content>, n: nat)
    ensures |Newest(files, n)| == if |files| <= n then |files| else n
    ensures forall j, k :: j in Newest(files, n) && k in files && k !in Newest(files, n) ==> k < j
  {
    var ids := Ascending(files.Keys);
    AscendingSorted(files.Keys);
    assert |files.Keys| == |files|;
    hide Ascending;
    if |ids| > n {
      forall j, k | j in Newest(files, n) && k in files && k !in Newest(files, n) ensures k < j {
        assert k in files.Keys && k in ids;
        TailIsLargest(ids, |ids| - n, j, k);
      }
    } else {
      assert forall k :: k in files ==> k in files.Keys;
    }
  }

  /**
   A call that completes leaves exactly the newest files of the retention count and those whose removal
   failed, the new snapshot in its file, and no temporary file of its own.
   */
  lemma {:induction false} CompletedKeepsNewest(d: Directory, s: Snapshot, retention: nat, stuck: set<nat>)
    requires FreshId(d, s.id)
    ensures
      var files := d.files[s.id := Valid(s)];
      var after := ApplyOps(d, CreateOps(d, s, retention, stuck));
      && (forall j :: j in after.files <==> j in Newest(files, retention) || (j in files && j in stuck))
      && (forall j :: j in after.files ==> after.files[j] == files[j])
      && after.temps == d.temps - {s.id}
  {
    var files := Installed(d, s).files;
    assert files == d.files[s.id := Valid(s)] && Installed(d, s).temps == d.temps - {s.id};
    TwoOps(d, s);
    OpsJoin(d, [WriteTemp(s.id, Valid(s)), Rename(s.id)], Removals(Surplus(files, retention), stuck));
    RemovalsRemove(Installed(d, s), Surplus(files, retention), stuck);
    SurplusOrNewest(files, retention);
  }

  /** A call that fails to write leaves every snapshot as it was, and at most a temporary file of its own. */
  lemma FailedLeaves(d: Directory, id: nat, temp: Option<Content>)
    ensures Failed(d, id, temp).files == d.files && Failed(d, id, temp).temps - {id} == d.temps - {id}
  {
  }

  /** Every file is either surplus or among the newest. */
  lemma SurplusOrNewest(files: map<nat, Content>, retention: nat)
    ensures forall j :: (j in files && j !in Surplus(files, retention)) <==> j in Newest(files, retention)
  {
    var ids := Ascending(files.Keys);
    AscendingSorted(files.Keys);
    assert forall i :: 0 <= i < |ids| ==> ids[i] in files.Keys;
    forall j ensures j in ids <==> j in files {
      if j in files.Keys {
        assert j in ids;
      }
    }
  }

  // ---------------------------------------------------------------------------
  // Ids over restarts
  // ---------------------------------------------------------------------------

  lemma {:induction false} GreatestExists(ids: set<nat>) returns (m: nat)
    requires ids != {}
    ensures m in ids && forall j :: j in ids ==> j <= m
  {
    AscendingSorted(ids);
    var s := Ascending(ids);
    m := s[|s| - 1];
  }

  /** The largest id in use, 0 if there is none. */
  function MaxId(ids: set<nat>): (m: nat)
    ensures forall j :: j in ids ==> j <= m
    ensures ids == {} ==> m == 0
    ensures ids != {} ==> m in ids
  {
    if ids == {} then 0 else GreatestOf(ids)
  }

  function GreatestOf(ids: set<nat>): (m: nat)
    requires ids != {}
    ensures m in ids && forall j :: j in ids ==> j <= m
  {
    assert exists m :: m in ids && forall j :: j in ids ==> j <= m by {
      var m := GreatestExists(ids);
    }
    var m :| m in ids && forall j :: j in ids ==> j <= m;
    m
  }

  function NextId(files: map<nat, Content>): nat {
    MaxId(files.Keys) + 1
  }

  /**
   Installed ids only grow, even across crashes and restarts: after any prefix of a call that includes
   the rename, the next id found on disk is above the one just used.
   */
  lemma IdsIncrease(d: Directory, s: Snapshot, retention: nat, stuck: set<nat>, n: nat)
    requires retention >= 1 && FreshId(d, s.id) && 2 <= n <= |CreateOps(d, s, retention, stuck)|
    ensures NextId(ApplyOps(d, CreateOps(d, s, retention, stuck)[..n]).files) == s.id + 1
  {
    OpsSoFar(d, s, retention, stuck, n);
    CleanupKeepsMax(d, s, retention, stuck, n - 2);
  }

  lemma InstalledStays(d: Directory, s: Snapshot, retention: nat, stuck: set<nat>, n: nat)
    requires retention >= 1 && FreshId(d, s.id) && n <= |Surplus(Installed(d, s).files, retention)|
    ensures
      var files := ApplyOps(Installed(d, s), Removals(Surplus(Installed(d, s).files, retention), stuck)[..n]).files;
      s.id in files && forall j :: j in files ==> j <= s.id
  {
    var files := Installed(d, s).files;
    assert files == d.files[s.id := Valid(s)];
    SurplusBelow(files, retention, s.id);
    RemovalsSpare(Installed(d, s), Surplus(files, retention), stuck, n, s.id);
  }

  lemma CleanupKeepsMax(d: Directory, s: Snapshot, retention: nat, stuck: set<nat>, n: nat)
    requires retention >= 1 && FreshId(d, s.id) && n <= |Surplus(Installed(d, s).files, retention)|
    ensures
      var ids := Surplus(Installed(d, s).files, retention);
      NextId(ApplyOps(Installed(d, s), Removals(ids, stuck)[..n]).files) == s.id + 1
  {
    InstalledStays(d, s, retention, stuck, n);
    var files := Installed(d, s).files;
    var after := ApplyOps(Installed(d, s), Removals(Surplus(files, retention), stuck)[..n]).files;
    assert s.id in after.Keys;
    assert forall j :: j in after.Keys ==> j <= s.id;
  }

  // ---------------------------------------------------------------------------
  // Whole lives: calls, crashes and restarts
  // ---------------------------------------------------------------------------

  /**
   How a call ends: it completes, the process dies after some of its file operations, or writing fails, with
   whatever the temporary file holds then, if there is one.
   */
  datatype End = Completes | Dies(after: nat) | Fails(temp: Option<Content>)

  /** One call: what is saved, which removals fail, and how it ends. */
  datatype Call = Call(
    position: WalPosition, states: map<nat, RecoveryState>, recordCount: nat, stuck: set<nat>, end: End)

  /** The directory, the id to give out next, and the last snapshot that was put in place. */
  datatype Life = Life(directory: Directory, nextId: nat, last: Option<Snapshot>)

  function Taken(l: Life, call: Call): Snapshot {
    Snapshot(l.nextId, call.position, ToSnapshot(call.states), call.recordCount)
  }

  function OpsDone(l: Life, call: Call, retention: nat): (n: nat)
    ensures n <= |CreateOps(l.directory, Taken(l, call), retention, call.stuck)|
  {
    var all := |CreateOps(l.directory, Taken(l, call), retention, call.stuck)|;
    if call.end.Dies? && call.end.after < all then call.end.after else all
  }

  /** What a failed write leaves: at most a temporary file. */
  function Failed(d: Directory, id: nat, temp: Option<Content>): Directory {
    if temp.Some? then ApplyOp(d, WriteTemp(id, temp.value)) else d
  }

  /** A call, followed by a restart if the process died in it. A failed one has used up its id all the same. */
  function LiveOn(l: Life, call: Call, retention: nat): Life {
    if call.end.Fails? then l.(directory := Failed(l.directory, l.nextId, call.end.temp), nextId := l.nextId + 1)
    else
      var s, n := Taken(l, call), OpsDone(l, call, retention);
      var directory := ApplyOps(l.directory, CreateOps(l.directory, s, retention, call.stuck)[..n]);
      Life(directory,
           if call.end.Dies? then NextId(directory.files) else l.nextId + 1,
           if n >= 2 then Some(s) else l.last)
  }

  function Lived(calls: seq<Call>, retention: nat): Life {
    if calls == [] then Life(Directory(map[], map[]), 1, None)
    else LiveOn(Lived(calls[..|calls| - 1], retention), calls[|calls| - 1], retention)
  }

  ghost predicate LifeOk(l: Life) {
    && FreshId(l.directory, l.nextId) && Latest(l.directory.files) == l.last
    && (l.last.Some? ==> l.last.value.id < l.nextId && l.last.value.id in l.directory.files)
  }

  /** What the directory holds after the first `n` operations of a call. */
  lemma {:induction false} AfterOps(d: Directory, s: Snapshot, retention: nat, stuck: set<nat>, n: nat)
    requires retention >= 1 && FreshId(d, s.id) && n <= |CreateOps(d, s, retention, stuck)|
    ensures
      var files := ApplyOps(d, CreateOps(d, s, retention, stuck)[..n]).files;
      if n < 2 then files == d.files
      else s.id in files && (forall j :: j in files ==> j <= s.id) && Latest(files) == Some(s)
  {
    OpsSoFar(d, s, retention, stuck, n);
    if n >= 2 {
      CrashSafe(d, s, retention, stuck, n);
      InstalledStays(d, s, retention, stuck, n - 2);
    }
  }

  lemma {:induction false} LiveOnOk(l: Life, call: Call, retention: nat)
    requires retention >= 1 && LifeOk(l)
    ensures LifeOk(LiveOn(l, call, retention))
  {
    if !call.end.Fails? {
      AfterOps(l.directory, Taken(l, call), retention, call.stuck, OpsDone(l, call, retention));
    }
  }

  /**
   Whatever mixture of completed and failed calls, crashes and restarts a log has seen, loading finds the last
   snapshot that was put in place, and the id given out next is above all ids on disk.
   */
  lemma {:induction false} LastInstalledIsLoaded(calls: seq<Call>, retention: nat)
    requires retention >= 1
    ensures LifeOk(Lived(calls, retention))
  {
    if calls == [] {
      LatestIs(map[]);
    } else {
      LastInstalledIsLoaded(calls[..|calls| - 1], retention);
      LiveOnOk(Lived(calls[..|calls| - 1], retention), calls[|calls| - 1], retention);
    }
  }

  // ---------------------------------------------------------------------------
  // The manager object
  // ---------------------------------------------------------------------------

  datatype SnapshotError = SnapshotCreation

  class SnapshotManager {
    var directory: Directory
    const retentionCount: nat
    var nextId: nat
    var recordsSinceSnapshot: nat

    ghost predicate Ready()
      reads this
    {
      FreshId(directory, nextId)
    }

    /** A start on whatever an earlier process left behind. */
    constructor (directory: Directory, retentionCount: nat)
      ensures this.directory == directory && this.retentionCount == retentionCount
      ensures nextId == NextId(directory.files) && Ready() && recordsSinceSnapshot == 0
    {
      var next := FindNextId(directory);
      this.directory := directory;
      this.retentionCount := retentionCount;
      nextId := next;
      recordsSinceSnapshot := 0;
    }

    /** A pass over the directory's entries, in whatever order they are listed. */
    static method FindNextId(directory: Directory) returns (next: nat)
      ensures next == NextId(directory.files)
    {
      var maxId: nat, left := 0, directory.files.Keys;
      while left != {}
        invariant left <= directory.files.Keys
        invariant maxId == MaxId(directory.files.Keys - left)
        decreases left
      {
        var id :| id in left;
        ghost var seen := directory.files.Keys - left;
        left := left - {id};
        assert directory.files.Keys - left == seen + {id};
        if id > maxId {
          maxId := id;
        }
      }
      assert directory.files.Keys - left == directory.files.Keys;
      next := maxId + 1;
    }

    method RecordWritten()
      modifies this`recordsSinceSnapshot
      ensures recordsSinceSnapshot == old(recordsSinceSnapshot) + 1
    {
      recordsSinceSnapshot := recordsSinceSnapshot + 1;
    }

    /**
     Removals of the ids in `stuck` fail and are passed over. If writing fails, the id is used up, the
     counter runs on, and at most a temporary file is left.
     */
    method CreateSnapshot(
        position: WalPosition, states: map<nat, RecoveryState>, recordCount: nat, stuck: set<nat>,
        failure: Option<Option<Content>>)
      returns (r: Result<Snapshot, SnapshotError>)
      requires Ready()
      modifies this
      ensures Ready() && nextId == old(nextId) + 1 && (r.Ok? <==> failure.None?)
      ensures r.Ok? ==>
                && r.value == Snapshot(old(nextId), position, ToSnapshot(states), recordCount)
                && directory == ApplyOps(old(directory), CreateOps(old(directory), r.value, retentionCount, stuck))
                && recordsSinceSnapshot == 0
      ensures r.Err? ==>
                && directory == Failed(old(directory), old(nextId), failure.value)
                && recordsSinceSnapshot == old(recordsSinceSnapshot)
    {
      var id := nextId;
      nextId := nextId + 1;
      var s := Snapshot(id, position, ToSnapshot(states), recordCount);
      if failure.Some? {
        directory := Failed(directory, id, failure.value);
        return Err(SnapshotCreation);
      }
      TwoOps(directory, s);
      directory := ApplyOp(directory, WriteTemp(id, Valid(s)));
      directory := ApplyOp(directory, Rename(id));
      Cleanup(stuck);
      OpsJoin(old(directory), [WriteTemp(id, Valid(s)), Rename(id)],
              Removals(Surplus(Installed(old(directory), s).files, retentionCount), stuck));
      recordsSinceSnapshot := 0;
      return Ok(s);
    }

    method Cleanup(stuck: set<nat>)
      modifies this`directory
      ensures directory == ApplyOps(old(directory), Removals(Surplus(old(directory).files, retentionCount), stuck))
      ensures forall j :: j in directory.files ==> j in old(directory).files
    {
      var snapshots := Ascending(directory.files.Keys);
      if |snapshots| <= retentionCount {
        return;
      }
      var toRemove := |snapshots| - retentionCount;
      ghost var all := Removals(snapshots[..toRemove], stuck);
      for i := 0 to toRemove
        invariant directory == ApplyOps(old(directory), all[..i])
        invariant forall j :: j in directory.files ==> j in old(directory).files
      {
        assert all[..i + 1][..i] == all[..i];
        if snapshots[i] !in stuck {
          directory := directory.(files := directory.files - {snapshots[i]});
        }
      }
      assert all[..toRemove] == all;
    }

    method LoadLatest() returns (r: Option<Snapshot>)
      ensures r == Latest(directory.files)
    {
      var snapshots := Ascending(directory.files.Keys);
      assert snapshots[..|snapshots|] == snapshots;
      for i := |snapshots| downto 0
        invariant Latest(directory.files) == FirstValid(directory.files, snapshots[..i])
      {
        assert snapshots[..i + 1][..i] == snapshots[..i];
        if directory.files[snapshots[i]].Valid? {
          return Some(directory.files[snapshots[i]].snapshot);
        }
      }
      return None;
    }
  }
}
