/**
 The migration registry: a vector of migrations, a direct index and the graph,
 kept in agreement through register, replace and unregister, and the multi-hop
 migration that runs along a shortest registered route.
 */
module MigrationRegistry {
  import opened Prelude
  import opened MigrationGraph

  type ArenaData = seq<byte>

  /** What a transform leaves in the arena, and the new offset or the reason there is none. */
  datatype Applied = Applied(arena: ArenaData, result: Result<nat, string>)

  /** A transform reads the data at an offset and may write to the arena, whether it fails or not. */
  type Transform = (ArenaData, nat) -> Applied

  /** Is there valid data of the schema at the offset? */
  type Validity = (nat, ArenaData, nat) -> bool

  datatype Migration = Migration(fromHash: nat, toHash: nat, fromSchema: string, toSchema: string, transform: Transform)

  datatype MigrationError = NoPath(fromHash: nat, toHash: nat) | TransformFailed(cause: string)

  type Key = (nat, nat)

  // ---------------------------------------------------------------------------
  // Routes over the registered migrations
  // ---------------------------------------------------------------------------

  type Registered = map<Key, Migration>

  /** Registered migrations, taken in order, that lead from `a` to `b`. */
  ghost predicate Route(reg: Registered, a: nat, b: nat, path: seq<Migration>)
    decreases |path|
  {
    if path == [] then a == b
    else
      var last := path[|path| - 1];
      && last.toHash == b
      && (last.fromHash, b) in reg && reg[(last.fromHash, b)] == last
      && Route(reg, a, last.fromHash, path[..|path| - 1])
  }

  ghost predicate NoRoute(reg: Registered, a: nat, b: nat) {
    forall p :: !Route(reg, a, b, p)
  }

  ghost predicate ShortestRoute(reg: Registered, a: nat, b: nat, path: seq<Migration>) {
    Route(reg, a, b, path) && forall p :: Route(reg, a, b, p) ==> |path| <= |p|
  }

  /** The transforms of a route, one after another; once one has failed, what it left in the arena stays. */
  function ApplyAll(path: seq<Migration>, arena: ArenaData, offset: nat): Applied {
    if path == [] then Applied(arena, Ok(offset))
    else
      var before := ApplyAll(path[..|path| - 1], arena, offset);
      if before.result.Err? then before
      else path[|path| - 1].transform(before.arena, before.result.value)
  }

  function Answer(applied: Result<nat, string>): Result<nat, MigrationError> {
    match applied
    case Ok(moved) => Ok(moved)
    case Err(cause) => Err(TransformFailed(cause))
  }

  /** Each registered transform that succeeds takes valid data of its source schema to valid data of its target. */
  ghost predicate Sound(reg: Registered, valid: Validity) {
    forall key, arena, offset :: key in reg && valid(key.0, arena, offset) ==>
      var applied := reg[key].transform(arena, offset);
      applied.result.Ok? ==> valid(key.1, applied.arena, applied.result.value)
  }

  /** Then so does every route. */
  lemma {:induction false} RouteKeepsValid(
      reg: Registered, valid: Validity, a: nat, b: nat, path: seq<Migration>, arena: ArenaData, offset: nat)
    requires Sound(reg, valid) && Route(reg, a, b, path) && valid(a, arena, offset)
    ensures
      var applied := ApplyAll(path, arena, offset);
      applied.result.Ok? ==> valid(b, applied.arena, applied.result.value)
    decreases |path|
  {
    if path != [] {
      var last := path[|path| - 1];
      RouteKeepsValid(reg, valid, a, last.fromHash, path[..|path| - 1], arena, offset);
      assert (last.fromHash, b) in reg;
    }
  }

  // ---------------------------------------------------------------------------
  // The three structures and their agreement
  // ---------------------------------------------------------------------------

  ghost predicate IndexOk(migrations: seq<Migration>, key: Key, index: nat) {
    index < |migrations| && migrations[index].fromHash == key.0 && migrations[index].toHash == key.1
  }

  ghost predicate IndexedBy(direct: map<Key, nat>, a: nat, e: Edge) {
    (a, e.to) in direct && direct[(a, e.to)] == e.index
  }

  ghost predicate InGraph(edges: Edges, key: Key, index: nat) {
    HasEdge(edges, key.0, key.1, index)
  }

  ghost predicate DistinctTargets(es: seq<Edge>) {
    forall i, j :: 0 <= i < j < |es| ==> es[i].to != es[j].to
  }

  /** Every index points at a migration with the right key. */
  ghost predicate Indexed(migrations: seq<Migration>, direct: map<Key, nat>) {
    forall key {:trigger IndexOk(migrations, key, direct[key])} ::
      key in direct ==> IndexOk(migrations, key, direct[key])
  }

  /** The graph and the index are the same relation, each pair once. */
  ghost predicate SameRelation(direct: map<Key, nat>, edges: Edges) {
    && (forall a, e {:trigger IndexedBy(direct, a, e)} :: e in Out(edges, a) ==> IndexedBy(direct, a, e))
    && (forall key {:trigger InGraph(edges, key, direct[key])} :: key in direct ==> InGraph(edges, key, direct[key]))
    && (forall a {:trigger DistinctTargets(Out(edges, a))} :: DistinctTargets(Out(edges, a)))
  }

  ghost predicate Agree(migrations: seq<Migration>, direct: map<Key, nat>, edges: Edges) {
    |migrations| <= USIZE_MAX && Indexed(migrations, direct) && SameRelation(direct, edges)
  }

  ghost function Current(migrations: seq<Migration>, direct: map<Key, nat>): Registered
    requires Indexed(migrations, direct)
  {
    map key | key in direct && IndexOk(migrations, key, direct[key]) :: migrations[direct[key]]
  }

  /** The migrations at the given indices. */
  function Picked(migrations: seq<Migration>, path: seq<nat>): (r: seq<Migration>)
    requires forall i :: 0 <= i < |path| ==> path[i] < |migrations|
    ensures |r| == |path|
    ensures forall i :: 0 <= i < |path| ==> r[i] == migrations[path[i]]
  {
    seq(|path|, i requires 0 <= i < |path| => migrations[path[i]])
  }

  lemma EdgeIsRegistered(migrations: seq<Migration>, direct: map<Key, nat>, edges: Edges, a: nat, b: nat, index: nat)
    requires Agree(migrations, direct, edges) && HasEdge(edges, a, b, index)
    ensures index < |migrations| && migrations[index].fromHash == a && migrations[index].toHash == b
    ensures (a, b) in Current(migrations, direct) && Current(migrations, direct)[(a, b)] == migrations[index]
  {
    assert IndexedBy(direct, a, Edge(b, index));
    assert IndexOk(migrations, (a, b), direct[(a, b)]);
  }

  lemma RegisteredIsEdge(migrations: seq<Migration>, direct: map<Key, nat>, edges: Edges, a: nat, b: nat)
    requires Agree(migrations, direct, edges) && (a, b) in Current(migrations, direct)
    ensures (a, b) in direct && HasEdge(edges, a, b, direct[(a, b)])
  {
    assert InGraph(edges, (a, b), direct[(a, b)]);
  }

  /** A chain of indices is a route of registered migrations. */
  lemma {:induction false} ChainIsRoute(
      migrations: seq<Migration>, direct: map<Key, nat>, edges: Edges, a: nat, b: nat, path: seq<nat>)
    requires Agree(migrations, direct, edges) && Chain(edges, a, b, path)
    ensures forall i :: 0 <= i < |path| ==> path[i] < |migrations|
    ensures Route(Current(migrations, direct), a, b, Picked(migrations, path))
    decreases |path|
  {
    if path != [] {
      var mid :| Chain(edges, a, mid, Front(path)) && HasEdge(edges, mid, b, Last(path));
      ChainIsRoute(migrations, direct, edges, a, mid, Front(path));
      EdgeIsRegistered(migrations, direct, edges, mid, b, Last(path));
      PickedLast(migrations, path);
    }
  }

  lemma PickedLast(migrations: seq<Migration>, path: seq<nat>)
    requires path != [] && Last(path) < |migrations|
    requires forall i :: 0 <= i < |Front(path)| ==> Front(path)[i] < |migrations|
    ensures forall i :: 0 <= i < |path| ==> path[i] < |migrations|
    ensures Picked(migrations, path)[..|path| - 1] == Picked(migrations, Front(path))
    ensures Picked(migrations, path)[|path| - 1] == migrations[Last(path)]
  {
    forall i | 0 <= i < |path| ensures path[i] < |migrations| {
      if i < |path| - 1 {
        assert Front(path)[i] == path[i];
      }
    }
  }

  /** A route of registered migrations is a chain of as many indices. */
  lemma {:induction false} RouteIsChain(
      migrations: seq<Migration>, direct: map<Key, nat>, edges: Edges, a: nat, b: nat, route: seq<Migration>)
    returns (path: seq<nat>)
    requires Agree(migrations, direct, edges) && Route(Current(migrations, direct), a, b, route)
    ensures |path| == |route| && Chain(edges, a, b, path)
    decreases |route|
  {
    if route == [] {
      path := [];
    } else {
      var mid := route[|route| - 1].fromHash;
      var front := RouteIsChain(migrations, direct, edges, a, mid, route[..|route| - 1]);
      RegisteredIsEdge(migrations, direct, edges, mid, b);
      path := front + [direct[(mid, b)]];
      assert Front(path) == front && Last(path) == direct[(mid, b)];
    }
  }

  lemma NoChainNoRoute(migrations: seq<Migration>, direct: map<Key, nat>, edges: Edges, a: nat, b: nat)
    requires Agree(migrations, direct, edges) && !Reachable(edges, a, b)
    ensures NoRoute(Current(migrations, direct), a, b)
  {
    forall p ensures !Route(Current(migrations, direct), a, b, p) {
      if Route(Current(migrations, direct), a, b, p) {
        var path := RouteIsChain(migrations, direct, edges, a, b, p);
      }
    }
  }

  lemma {:induction false} ShortestChainIsShortestRoute(
      migrations: seq<Migration>, direct: map<Key, nat>, edges: Edges, a: nat, b: nat, path: seq<nat>)
    requires Agree(migrations, direct, edges) && Chain(edges, a, b, path)
    requires forall other :: Chain(edges, a, b, other) ==> |path| <= |other|
    ensures forall i :: 0 <= i < |path| ==> path[i] < |migrations|
    ensures ShortestRoute(Current(migrations, direct), a, b, Picked(migrations, path))
  {
    ChainIsRoute(migrations, direct, edges, a, b, path);
    forall p | Route(Current(migrations, direct), a, b, p) ensures |path| <= |p| {
      var other := RouteIsChain(migrations, direct, edges, a, b, p);
    }
  }

  lemma IndicesInVector(migrations: seq<Migration>, direct: map<Key, nat>, edges: Edges)
    requires Agree(migrations, direct, edges)
    ensures IndicesBelowSentinel(edges)
  {
    forall a, i | a in edges && 0 <= i < |edges[a]| ensures edges[a][i].index < USIZE_MAX {
      assert edges[a][i] in Out(edges, a);
      EdgeIsRegistered(migrations, direct, edges, a, edges[a][i].to, edges[a][i].index);
    }
  }

  /** `m` is what is registered under its own key. */
  ghost predicate RegisteredAs(m: Migration, reg: Registered) {
    (m.fromHash, m.toHash) in reg && reg[(m.fromHash, m.toHash)] == m
  }

  // ---------------------------------------------------------------------------
  // The operations keep the agreement
  // ---------------------------------------------------------------------------

  lemma ReplaceAgrees(migrations: seq<Migration>, direct: map<Key, nat>, edges: Edges, m: Migration)
    requires Agree(migrations, direct, edges) && (m.fromHash, m.toHash) in direct
    ensures direct[(m.fromHash, m.toHash)] < |migrations|
    ensures
      var key := (m.fromHash, m.toHash);
      var ms := migrations[direct[key] := m];
      Agree(ms, direct, edges) && Current(ms, direct) == Current(migrations, direct)[key := m]
  {
    var key := (m.fromHash, m.toHash);
    assert IndexOk(migrations, key, direct[key]);
    var ms := migrations[direct[key] := m];
    forall k | k in direct ensures IndexOk(ms, k, direct[k]) && (k != key ==> direct[k] != direct[key]) {
      assert IndexOk(migrations, k, direct[k]);
    }
  }

  lemma AddIndexes(migrations: seq<Migration>, direct: map<Key, nat>, m: Migration)
    requires Indexed(migrations, direct) && (m.fromHash, m.toHash) !in direct
    ensures
      var key := (m.fromHash, m.toHash);
      var ms, d := migrations + [m], direct[key := |migrations|];
      Indexed(ms, d) && Current(ms, d) == Current(migrations, direct)[key := m]
  {
    var ms, d := migrations + [m], direct[(m.fromHash, m.toHash) := |migrations|];
    forall k | k in d ensures IndexOk(ms, k, d[k]) {
      if k in direct {
        assert IndexOk(migrations, k, direct[k]);
      }
    }
  }

  lemma AddRelates(direct: map<Key, nat>, edges: Edges, key: Key, index: nat)
    requires SameRelation(direct, edges) && key !in direct
    ensures SameRelation(direct[key := index], edges[key.0 := Out(edges, key.0) + [Edge(key.1, index)]])
  {
    var d, g := direct[key := index], edges[key.0 := Out(edges, key.0) + [Edge(key.1, index)]];
    var es := Out(edges, key.0);
    assert forall a :: a != key.0 ==> Out(g, a) == Out(edges, a);
    forall k | k in d ensures InGraph(g, k, d[k]) {
      if k == key {
        assert (es + [Edge(key.1, index)])[|es|] == Edge(key.1, index);
      } else {
        assert InGraph(edges, k, direct[k]);
      }
    }
    forall a, e | e in Out(g, a) ensures IndexedBy(d, a, e) {
      if e in Out(edges, a) {
        assert IndexedBy(direct, a, e);
      }
    }
    forall a ensures DistinctTargets(Out(g, a)) {
      assert DistinctTargets(Out(edges, a));
      if a == key.0 {
        forall i | 0 <= i < |es| ensures es[i].to != key.1 {
          assert es[i] in Out(edges, a);
          assert IndexedBy(direct, a, es[i]);
        }
      }
    }
  }

  lemma {:induction false} RemoveRelates(direct: map<Key, nat>, edges: Edges, key: Key)
    requires SameRelation(direct, edges)
    ensures SameRelation(direct - {key}, Pruned(edges, key.0, key.1))
  {
    var d, left := direct - {key}, Pruned(edges, key.0, key.1);
    forall k | k in d ensures InGraph(left, k, d[k]) {
      assert InGraph(edges, k, direct[k]);
    }
    forall a, e | e in Out(left, a) ensures IndexedBy(d, a, e) {
      assert e in Out(edges, a);
      assert IndexedBy(direct, a, e);
    }
    forall a ensures DistinctTargets(Out(left, a)) {
      assert DistinctTargets(Out(edges, a));
      WithoutDistinct(Out(edges, key.0), key.1);
    }
  }

  function Lookup(reg: Registered, key: Key): Option<Migration> {
    if key in reg then Some(reg[key]) else None
  }

  lemma LookupDirect(migrations: seq<Migration>, direct: map<Key, nat>, key: Key)
    requires Indexed(migrations, direct)
    ensures key in direct ==> direct[key] < |migrations|
    ensures Lookup(Current(migrations, direct), key) == if key in direct then Some(migrations[direct[key]]) else None
  {
    assert key in direct ==> IndexOk(migrations, key, direct[key]);
  }

  /** Everything an unregister has to keep, in one place. */
  lemma UnregisterStep(migrations: seq<Migration>, direct: map<Key, nat>, edges: Edges, key: Key)
    requires Agree(migrations, direct, edges) && key in direct
    ensures Agree(migrations, direct - {key}, Pruned(edges, key.0, key.1))
    ensures Current(migrations, direct - {key}) == Current(migrations, direct) - {key}
    ensures |direct - {key}| == |direct| - 1
  {
    RemoveRelates(direct, edges, key);
  }

  /** Everything a first registration has to keep. */
  lemma AddStep(migrations: seq<Migration>, direct: map<Key, nat>, edges: Edges, m: Migration)
    requires Agree(migrations, direct, edges) && KeyOf(m) !in direct && |migrations| < USIZE_MAX
    ensures
      var (key, index) := (KeyOf(m), |migrations|);
      var ms, d := migrations + [m], direct[key := index];
      && Agree(ms, d, edges[key.0 := Out(edges, key.0) + [Edge(key.1, index)]])
      && Current(ms, d) == Current(migrations, direct)[key := m]
      && |d| == |direct| + 1
  {
    AddIndexes(migrations, direct, m);
    AddRelates(direct, edges, KeyOf(m), |migrations|);
  }

  lemma {:induction false} WithoutDistinct(es: seq<Edge>, to: nat)
    requires DistinctTargets(es)
    ensures DistinctTargets(Without(es, to))
  {
    if es != [] {
      var front, last := es[..|es| - 1], es[|es| - 1];
      WithoutDistinct(front, to);
      forall i | 0 <= i < |Without(front, to)| ensures Without(front, to)[i].to != last.to {
        assert Without(front, to)[i] in front;
      }
    }
  }

  /** Once a transform fails, the whole route fails with its cause and leaves the arena as it left it. */
  lemma {:induction false} FailureStays(path: seq<Migration>, arena: ArenaData, offset: nat, n: nat)
    requires n <= |path| && ApplyAll(path[..n], arena, offset).result.Err?
    ensures ApplyAll(path, arena, offset) == ApplyAll(path[..n], arena, offset)
    decreases |path| - n
  {
    if n == |path| {
      assert path[..n] == path;
    } else {
      assert path[..n + 1][..n] == path[..n];
      FailureStays(path, arena, offset, n + 1);
    }
  }

  // ---------------------------------------------------------------------------
  // Projections
  // ---------------------------------------------------------------------------

  function KeyOf(m: Migration): Key {
    (m.fromHash, m.toHash)
  }

  /** `r` lists, once each, the registered migrations whose keys satisfy `want`. */
  ghost predicate Lists(r: seq<Migration>, reg: Registered, want: Key -> bool) {
    && (forall i :: 0 <= i < |r| ==> want(KeyOf(r[i])) && RegisteredAs(r[i], reg))
    && (forall i, j :: 0 <= i < j < |r| ==> KeyOf(r[i]) != KeyOf(r[j]))
    && (forall key :: key in reg && want(key) ==> reg[key] in r)
  }

  method PickEdges(migrations: seq<Migration>, es: seq<Edge>) returns (r: seq<Migration>)
    requires forall i :: 0 <= i < |es| ==> es[i].index < |migrations|
    ensures r == EdgeMigrations(migrations, es)
  {
    r := [];
    for k := 0 to |es|
      invariant r == EdgeMigrations(migrations, es[..k])
    {
      assert es[..k + 1][..k] == es[..k];
      r := r + [migrations[es[k].index]];
    }
    assert es[..|es|] == es;
  }

  function EdgeMigrations(migrations: seq<Migration>, es: seq<Edge>): (r: seq<Migration>)
    requires forall i :: 0 <= i < |es| ==> es[i].index < |migrations|
    ensures |r| == |es|
    ensures forall i :: 0 <= i < |es| ==> r[i] == migrations[es[i].index]
  {
    seq(|es|, i requires 0 <= i < |es| => migrations[es[i].index])
  }

  lemma EdgeListed(migrations: seq<Migration>, direct: map<Key, nat>, edges: Edges, from: nat, i: nat)
    requires Agree(migrations, direct, edges) && i < |Out(edges, from)|
    ensures Out(edges, from)[i].index < |migrations|
    ensures RegisteredAs(migrations[Out(edges, from)[i].index], Current(migrations, direct))
    ensures KeyOf(migrations[Out(edges, from)[i].index]) == (from, Out(edges, from)[i].to)
  {
    var e := Out(edges, from)[i];
    assert HasEdge(edges, from, e.to, e.index);
    EdgeIsRegistered(migrations, direct, edges, from, e.to, e.index);
  }

  lemma ListedEdge(migrations: seq<Migration>, direct: map<Key, nat>, edges: Edges, key: Key) returns (i: nat)
    requires Agree(migrations, direct, edges) && key in Current(migrations, direct)
    ensures i < |Out(edges, key.0)| && Out(edges, key.0)[i].index < |migrations|
    ensures migrations[Out(edges, key.0)[i].index] == Current(migrations, direct)[key]
  {
    RegisteredIsEdge(migrations, direct, edges, key.0, key.1);
    EdgeIsRegistered(migrations, direct, edges, key.0, key.1, direct[key]);
    i :| 0 <= i < |Out(edges, key.0)| && Out(edges, key.0)[i] == Edge(key.1, direct[key]);
  }

  /** The edges leaving a schema carry exactly the migrations registered from it. */
  lemma EdgesList(migrations: seq<Migration>, direct: map<Key, nat>, edges: Edges, from: nat)
    requires Agree(migrations, direct, edges)
    ensures forall i :: 0 <= i < |Out(edges, from)| ==> Out(edges, from)[i].index < |migrations|
    ensures Lists(EdgeMigrations(migrations, Out(edges, from)), Current(migrations, direct), (key: Key) => key.0 == from)
  {
    var es := Out(edges, from);
    assert DistinctTargets(es);
    forall i | 0 <= i < |es|
      ensures es[i].index < |migrations|
      ensures RegisteredAs(migrations[es[i].index], Current(migrations, direct))
      ensures KeyOf(migrations[es[i].index]) == (from, es[i].to)
    {
      EdgeListed(migrations, direct, edges, from, i);
    }
    forall key | key in Current(migrations, direct) && key.0 == from
      ensures Current(migrations, direct)[key] in EdgeMigrations(migrations, es)
    {
      var i := ListedEdge(migrations, direct, edges, key);
      assert EdgeMigrations(migrations, es)[i] == Current(migrations, direct)[key];
    }
  }

  method PickTargets(migrations: seq<Migration>, direct: map<Key, nat>, toHash: nat) returns (r: seq<Migration>)
    requires Indexed(migrations, direct)
    ensures Lists(r, Current(migrations, direct), (key: Key) => key.1 == toHash)
  {
    r := [];
    var left := direct.Keys;
    ghost var reg := Current(migrations, direct);
    while left != {}
      invariant left <= direct.Keys
      invariant forall i :: 0 <= i < |r| ==> r[i].toHash == toHash && RegisteredAs(r[i], reg) && KeyOf(r[i]) !in left
      invariant forall i, j :: 0 <= i < j < |r| ==> KeyOf(r[i]) != KeyOf(r[j])
      invariant forall key :: key in reg && key.1 == toHash && key !in left ==> reg[key] in r
      decreases left
    {
      var key :| key in left;
      assert IndexOk(migrations, key, direct[key]);
      left := left - {key};
      if key.1 == toHash {
        ghost var before := r;
        r := r + [migrations[direct[key]]];
        assert r[|before|] == reg[key];
        assert forall m :: m in before ==> m in r;
      }
    }
    assert forall key :: key in reg ==> key in direct;
  }

  /** The keys of the migrations in a vector. */
  ghost function KeysIn(migrations: seq<Migration>): (keys: set<Key>) {
    if migrations == [] then {} else KeysIn(migrations[..|migrations| - 1]) + {KeyOf(migrations[|migrations| - 1])}
  }

  ghost predicate DistinctKeys(migrations: seq<Migration>) {
    forall i, j :: 0 <= i < j < |migrations| ==> KeyOf(migrations[i]) != KeyOf(migrations[j])
  }

  lemma {:induction false} KeyOfSlot(migrations: seq<Migration>, i: nat)
    requires i < |migrations|
    ensures KeyOf(migrations[i]) in KeysIn(migrations)
  {
    if i < |migrations| - 1 {
      KeyOfSlot(migrations[..|migrations| - 1], i);
    }
  }

  lemma {:induction false} SlotOfKey(migrations: seq<Migration>, key: Key) returns (i: nat)
    requires key in KeysIn(migrations)
    ensures i < |migrations| && KeyOf(migrations[i]) == key
  {
    if KeyOf(migrations[|migrations| - 1]) == key {
      i := |migrations| - 1;
    } else {
      i := SlotOfKey(migrations[..|migrations| - 1], key);
    }
  }

  /** There are as many keys as slots if and only if no two slots have the same. */
  lemma {:induction false} KeysCounted(migrations: seq<Migration>)
    ensures |KeysIn(migrations)| <= |migrations|
    ensures |KeysIn(migrations)| == |migrations| <==> DistinctKeys(migrations)
  {
    if migrations != [] {
      var front, last := migrations[..|migrations| - 1], migrations[|migrations| - 1];
      KeysCounted(front);
      if KeyOf(last) in KeysIn(front) {
        assert KeysIn(migrations) == KeysIn(front);
        var i := SlotOfKey(front, KeyOf(last));
        assert KeyOf(migrations[i]) == KeyOf(migrations[|front|]);
      } else {
        forall i | 0 <= i < |front| ensures KeyOf(front[i]) != KeyOf(last) {
          KeyOfSlot(front, i);
        }
        assert DistinctKeys(migrations) <==> DistinctKeys(front);
      }
    }
  }

  lemma IndexedKeys(migrations: seq<Migration>, direct: map<Key, nat>)
    requires Indexed(migrations, direct)
    ensures direct.Keys <= KeysIn(migrations)
  {
    forall key | key in direct ensures key in KeysIn(migrations) {
      assert IndexOk(migrations, key, direct[key]);
      KeyOfSlot(migrations, direct[key]);
    }
  }

  /** With as many slots as indices, every slot is in use. */
  lemma EverySlotUsed(migrations: seq<Migration>, direct: map<Key, nat>, i: nat)
    requires Indexed(migrations, direct) && |migrations| == |direct| && i < |migrations|
    ensures RegisteredAs(migrations[i], Current(migrations, direct)) && DistinctKeys(migrations)
  {
    IndexedKeys(migrations, direct);
    KeysCounted(migrations);
    SameSize(direct.Keys, KeysIn(migrations));
    KeyOfSlot(migrations, i);
    var key := KeyOf(migrations[i]);
    assert IndexOk(migrations, key, direct[key]);
    assert direct[key] == i;
  }

  lemma ListedUsesAll(migrations: seq<Migration>, direct: map<Key, nat>)
    requires Indexed(migrations, direct) && Lists(migrations, Current(migrations, direct), (key: Key) => true)
    ensures |migrations| == |direct|
  {
    IndexedKeys(migrations, direct);
    KeysCounted(migrations);
    forall key | key in KeysIn(migrations) ensures key in direct {
      var i := SlotOfKey(migrations, key);
      assert RegisteredAs(migrations[i], Current(migrations, direct));
    }
    assert KeysIn(migrations) == direct.Keys;
  }

  /** The vector lists the registered migrations, each once, if and only if it has no slot more than they are. */
  lemma VectorListsIff(migrations: seq<Migration>, direct: map<Key, nat>)
    requires Indexed(migrations, direct)
    ensures Lists(migrations, Current(migrations, direct), (key: Key) => true) <==> |migrations| == |direct|
  {
    var reg := Current(migrations, direct);
    if |migrations| == |direct| {
      forall i | 0 <= i < |migrations| ensures RegisteredAs(migrations[i], reg) && DistinctKeys(migrations) {
        EverySlotUsed(migrations, direct, i);
      }
      forall key | key in reg ensures reg[key] in migrations {
        assert IndexOk(migrations, key, direct[key]);
      }
    } else if Lists(migrations, reg, (key: Key) => true) {
      ListedUsesAll(migrations, direct);
    }
  }

  lemma SameSize<T>(a: set<T>, b: set<T>)
    requires a <= b && |a| >= |b|
    ensures a == b
  {
    assert b == a + (b - a) && |b| == |a| + |b - a|;
  }

  // ---------------------------------------------------------------------------
  // The registry object
  // ---------------------------------------------------------------------------

  class Registry {
    var migrations: seq<Migration>
    var direct: map<Key, nat>
    const graph: Graph
    /** How many registered migrations have been taken out again; their slots stay in the vector. */
    ghost var removed: nat

    ghost predicate Valid()
      reads this, graph
    {
      Agree(migrations, direct, graph.edges) && |migrations| == |direct| + removed
    }

    ghost function Registered(): map<Key, Migration>
      requires Valid()
      reads this, graph
    {
      Current(migrations, direct)
    }

    constructor ()
      ensures Valid() && fresh(graph) && Registered() == map[] && migrations == [] && removed == 0
    {
      migrations, direct, removed := [], map[], 0;
      graph := new Graph();
    }

    /** The vector's length must stay an index below the sentinel. */
    method Register(migration: Migration)
      requires Valid() && |migrations| < USIZE_MAX
      modifies this, graph
      ensures Valid() && removed == old(removed)
      ensures Registered() == old(Registered())[(migration.fromHash, migration.toHash) := migration]
    {
      var key := (migration.fromHash, migration.toHash);
      if key in direct {
        ReplaceAgrees(migrations, direct, graph.edges, migration);
        migrations := migrations[direct[key] := migration];
      } else {
        AddStep(migrations, direct, graph.edges, migration);
        var index := |migrations|;
        migrations := migrations + [migration];
        direct := direct[key := index];
        graph.AddEdge(key.0, key.1, index);
      }
    }

    method Unregister(fromHash: nat, toHash: nat) returns (r: Option<Migration>)
      requires Valid()
      modifies this, graph
      ensures Valid()
      ensures Registered() == old(Registered()) - {(fromHash, toHash)}
      ensures r == Lookup(old(Registered()), (fromHash, toHash))
      ensures removed == old(removed) + (if r.Some? then 1 else 0)
    {
      var key := (fromHash, toHash);
      LookupDirect(migrations, direct, key);
      if key in direct {
        UnregisterStep(migrations, direct, graph.edges, key);
        var index := direct[key];
        direct := direct - {key};
        graph.RemoveEdgesFor(fromHash, toHash);
        removed := removed + 1;
        r := Some(migrations[index]);
      } else {
        r := None;
      }
    }

    method FindDirect(fromHash: nat, toHash: nat) returns (r: Option<Migration>)
      requires Valid()
      ensures r == Lookup(Registered(), (fromHash, toHash))
    {
      LookupDirect(migrations, direct, (fromHash, toHash));
      r := if (fromHash, toHash) in direct then Some(migrations[direct[(fromHash, toHash)]]) else None;
    }

    method FindPath(fromHash: nat, toHash: nat) returns (r: Option<seq<Migration>>)
      requires Valid()
      ensures r.Some? ==> ShortestRoute(Registered(), fromHash, toHash, r.value)
      ensures r.None? ==> NoRoute(Registered(), fromHash, toHash)
    {
      if fromHash == toHash {
        return Some([]);
      }
      IndicesInVector(migrations, direct, graph.edges);
      var indices := graph.ShortestPath(fromHash, toHash);
      if indices.None? {
        NoChainNoRoute(migrations, direct, graph.edges, fromHash, toHash);
        return None;
      }
      ShortestChainIsShortestRoute(migrations, direct, graph.edges, fromHash, toHash, indices.value);
      return Some(Picked(migrations, indices.value));
    }

    method HasPath(fromHash: nat, toHash: nat) returns (r: bool)
      requires Valid()
      ensures r <==> !NoRoute(Registered(), fromHash, toHash)
    {
      if fromHash == toHash {
        assert Route(Registered(), fromHash, toHash, []);
        return true;
      }
      IndicesInVector(migrations, direct, graph.edges);
      var indices := graph.ShortestPath(fromHash, toHash);
      if indices.None? {
        NoChainNoRoute(migrations, direct, graph.edges, fromHash, toHash);
      } else {
        ChainIsRoute(migrations, direct, graph.edges, fromHash, toHash, indices.value);
      }
      return indices.Some?;
    }

    /** The loop over a path: each transform is given what the one before it left. */
    method ApplyInTurn(path: seq<Migration>, arena: ArenaData, offset: nat) returns (applied: Applied)
      ensures applied == ApplyAll(path, arena, offset)
    {
      var currentArena, currentOffset := arena, offset;
      for i := 0 to |path|
        invariant ApplyAll(path[..i], arena, offset) == Applied(currentArena, Ok(currentOffset))
      {
        assert path[..i + 1][..i] == path[..i];
        var next := path[i].transform(currentArena, currentOffset);
        if next.result.Err? {
          FailureStays(path, arena, offset, i + 1);
          return next;
        }
        currentArena, currentOffset := next.arena, next.result.value;
      }
      assert path[..|path|] == path;
      return Applied(currentArena, Ok(currentOffset));
    }

    /**
     Data valid for the source schema becomes data valid for the target schema, whatever validity the
     registered transforms respect; only an unreachable target is refused for lack of a path, and then
     the arena is as it was.
     */
    method Migrate(arena: ArenaData, offset: nat, fromHash: nat, toHash: nat, ghost valid: Validity)
      returns (arena': ArenaData, r: Result<nat, MigrationError>)
      requires Valid()
      ensures r == Err(NoPath(fromHash, toHash)) <==> NoRoute(Registered(), fromHash, toHash)
      ensures r == Err(NoPath(fromHash, toHash)) ==> arena' == arena
      ensures r != Err(NoPath(fromHash, toHash)) ==>
                exists p :: && ShortestRoute(Registered(), fromHash, toHash, p)
                            && arena' == ApplyAll(p, arena, offset).arena
                            && r == Answer(ApplyAll(p, arena, offset).result)
      ensures Sound(Registered(), valid) && valid(fromHash, arena, offset) && r.Ok? ==> valid(toHash, arena', r.value)
    {
      if fromHash == toHash {
        assert ShortestRoute(Registered(), fromHash, toHash, []);
        assert Ok(offset) == Answer(ApplyAll([], arena, offset).result);
        return arena, Ok(offset);
      }
      var found := FindPath(fromHash, toHash);
      if found.None? {
        return arena, Err(NoPath(fromHash, toHash));
      }
      var applied := ApplyInTurn(found.value, arena, offset);
      if Sound(Registered(), valid) && valid(fromHash, arena, offset) {
        RouteKeepsValid(Registered(), valid, fromHash, toHash, found.value, arena, offset);
      }
      return applied.arena, Answer(applied.result);
    }

    /** The migrations that leave a schema: one per registered target. */
    method MigrationsFrom(fromHash: nat) returns (r: seq<Migration>)
      requires Valid()
      ensures Lists(r, Registered(), (key: Key) => key.0 == fromHash)
    {
      EdgesList(migrations, direct, graph.edges, fromHash);
      r := PickEdges(migrations, Out(graph.edges, fromHash));
    }

    /** The migrations that arrive at a schema, in the order some enumeration of the index gives. */
    method MigrationsTo(toHash: nat) returns (r: seq<Migration>)
      requires Valid()
      ensures Lists(r, Registered(), (key: Key) => key.1 == toHash)
    {
      r := PickTargets(migrations, direct, toHash);
    }

    /** Documented as the number of registered migrations; slots of unregistered ones count too. */
    function Len(): (n: nat)
      requires Valid()
      reads this, graph
      ensures n == |Registered()| + removed
      ensures n == |Registered()| <==> removed == 0
    {
      assert Registered().Keys == direct.Keys;
      assert |Registered().Keys| == |Registered()| && |direct.Keys| == |direct|;
      |migrations|
    }

    /** True only if nothing was ever registered. */
    predicate IsEmpty()
      requires Valid()
      reads this, graph
      ensures IsEmpty() <==> Registered() == map[] && removed == 0
    {
      assert Registered().Keys == direct.Keys && |direct| + removed == |migrations|;
      assert direct == map[] ==> |direct| == 0;
      assert |direct| == 0 ==> direct == map[];
      |migrations| == 0
    }

    /** Documented as all registered migrations; unregistered ones are listed too. */
    function List(): (r: seq<Migration>)
      requires Valid()
      reads this, graph
      ensures forall key :: key in Registered() ==> Registered()[key] in r
      ensures |r| == Len()
      ensures Lists(r, Registered(), (key: Key) => true) <==> removed == 0
    {
      VectorListsIff(migrations, direct);
      assert forall key :: key in direct ==> IndexOk(migrations, key, direct[key]);
      migrations
    }
  }

  /** A registry with nothing registered that lists one migration. */
  method UnregisteredLingers(migration: Migration) returns (registry: Registry)
    ensures fresh(registry) && registry.Valid() && registry.Registered() == map[]
    ensures registry.Len() == 1 && registry.List() != [] && !registry.IsEmpty()
  {
    registry := new Registry();
    registry.Register(migration);
    var taken := registry.Unregister(migration.fromHash, migration.toHash);
    assert registry.Registered() == map[];
  }
}
