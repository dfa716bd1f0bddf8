/**
 Breadth-first search over the migration graph, with the path rebuilt from
 parent links: it ends, it finds a chain whenever there is one, and no chain is
 shorter than the one it returns.
 */
module MigrationGraph {
  import opened Prelude

  /** An edge to a schema hash, carried by the migration with the given index. */
  datatype Edge = Edge(to: nat, index: nat)

  type Edges = map<nat, seq<Edge>>

  /** The sentinel that marks the start of the search. */
  const USIZE_MAX: nat := 0xFFFF_FFFF_FFFF_FFFF

  /** The edges leaving `a`; none if the map has no entry for it. */
  function Out(edges: Edges, a: nat): seq<Edge> {
    if a in edges then edges[a] else []
  }

  ghost predicate HasEdge(edges: Edges, a: nat, b: nat, index: nat) {
    Edge(b, index) in Out(edges, a)
  }

  function Front(path: seq<nat>): seq<nat>
    requires path != []
  {
    path[..|path| - 1]
  }

  function Last(path: seq<nat>): nat
    requires path != []
  {
    path[|path| - 1]
  }

  /** Migration indices, taken in order, that lead from `a` to `b`. */
  ghost predicate Chain(edges: Edges, a: nat, b: nat, path: seq<nat>)
    decreases |path|
  {
    if path == [] then a == b
    else exists mid :: Chain(edges, a, mid, Front(path)) && HasEdge(edges, mid, b, Last(path))
  }

  ghost predicate Reachable(edges: Edges, a: nat, b: nat) {
    exists path :: Chain(edges, a, b, path)
  }

  lemma {:induction false} ChainPrepend(edges: Edges, a: nat, b: nat, c: nat, index: nat, path: seq<nat>)
    requires HasEdge(edges, a, b, index) && Chain(edges, b, c, path)
    ensures Chain(edges, a, c, [index] + path)
    decreases |path|
  {
    var whole := [index] + path;
    if path == [] {
      assert Chain(edges, a, a, Front(whole));
    } else {
      var mid :| Chain(edges, b, mid, Front(path)) && HasEdge(edges, mid, c, Last(path));
      ChainPrepend(edges, a, b, mid, index, Front(path));
      assert Front(whole) == [index] + Front(path);
    }
  }

  // ---------------------------------------------------------------------------
  // The search's invariant
  // ---------------------------------------------------------------------------

  /** How a visited hash was first reached; the start carries the sentinel. */
  datatype Link = Link(parent: nat, index: nat)

  /**
   What the search has seen: the hashes in the order they were first visited, the distance of each from
   the start, and the place of each hash in that order.
   */
  datatype Trail = Trail(order: seq<nat>, level: seq<nat>, pos: map<nat, nat>) {

    ghost predicate Listed() {
      && |level| == |order|
      && (forall i :: 0 <= i < |order| ==> order[i] in pos && pos[order[i]] == i)
      && (forall v :: v in pos ==> pos[v] < |order| && order[pos[v]] == v)
    }

    /** Distances grow along the trail. */
    ghost predicate Levelled() {
      forall i, j :: 0 <= i < j < |level| ==> level[i] <= level[j]
    }

    /** The `i`-th hash was reached by an edge from an earlier one, one level below. */
    ghost predicate LinkOk(edges: Edges, visited: map<nat, Link>, i: nat)
      requires Listed() && i < |order|
    {
      && order[i] in visited
      && var link := visited[order[i]];
      && link.index != USIZE_MAX && link.parent in pos && pos[link.parent] < i
      && level[i] == level[pos[link.parent]] + 1
      && HasEdge(edges, link.parent, order[i], link.index)
    }

    ghost predicate Linked(edges: Edges, start: nat, visited: map<nat, Link>) {
      && Listed() && |order| > 0 && order[0] == start && level[0] == 0
      && (forall v :: v in visited <==> v in pos)
      && start in visited && visited[start].index == USIZE_MAX
      && (forall i :: 0 < i < |order| ==> LinkOk(edges, visited, i))
    }

    /** `e` leads to a visited hash, no further than one step beyond distance `d`. */
    ghost predicate Covered(e: Edge, d: nat, target: nat)
      requires Listed()
    {
      e.to != target && e.to in pos && level[pos[e.to]] <= d + 1
    }

    /** Everything one step from the first `k` hashes has been visited, and none of it is the target. */
    ghost predicate Closed(edges: Edges, k: nat, target: nat)
      requires Listed()
    {
      forall i, e :: 0 <= i < k && i < |order| && e in Out(edges, order[i]) ==> Covered(e, level[i], target)
    }

    /** The search's state when the first `k` hashes of the trail are finished. */
    ghost predicate Searching(edges: Edges, start: nat, target: nat, visited: map<nat, Link>, k: nat, all: set<nat>) {
      && start != target && Linked(edges, start, visited) && Levelled() && target !in pos
      && k <= |order| && Closed(edges, k, target)
      && (forall i :: 0 <= i < |order| && k < |order| ==> level[i] <= level[k] + 1)
      && (forall i :: 0 <= i < |order| ==> order[i] in all)
    }

    function Visit(v: nat, d: nat): Trail {
      Trail(order + [v], level + [d], pos[v := |order|])
    }
  }

  /**
   A chain no longer than the distance of the first unfinished hash reaches visited hashes only, at a
   distance no greater than its length.
   */
  lemma {:induction false} ShortChainsVisited(
      t: Trail, edges: Edges, start: nat, target: nat, visited: map<nat, Link>, k: nat, v: nat, path: seq<nat>)
    requires t.Linked(edges, start, visited) && t.Levelled() && t.Closed(edges, k, target)
    requires k < |t.order| && Chain(edges, start, v, path) && |path| <= t.level[k]
    ensures v in t.pos && t.level[t.pos[v]] <= |path|
    decreases |path|
  {
    if path == [] {
      assert t.pos[t.order[0]] == 0;
    } else {
      var mid :| Chain(edges, start, mid, Front(path)) && HasEdge(edges, mid, v, Last(path));
      ShortChainsVisited(t, edges, start, target, visited, k, mid, Front(path));
      assert t.Covered(Edge(v, Last(path)), t.level[t.pos[mid]], target);
    }
  }

  /** Once every hash is finished, no chain leads to the target at all. */
  lemma {:induction false} NothingLeft(
      t: Trail, edges: Edges, start: nat, target: nat, visited: map<nat, Link>, v: nat, path: seq<nat>)
    requires start != target && t.Linked(edges, start, visited) && t.Closed(edges, |t.order|, target)
    requires Chain(edges, start, v, path)
    ensures v in t.pos && v != target
    decreases |path|
  {
    if path == [] {
      assert t.pos[t.order[0]] == 0;
    } else {
      var mid :| Chain(edges, start, mid, Front(path)) && HasEdge(edges, mid, v, Last(path));
      NothingLeft(t, edges, start, target, visited, mid, Front(path));
      assert t.Covered(Edge(v, Last(path)), t.level[t.pos[mid]], target);
    }
  }

  lemma VisitLists(t: Trail, v: nat, d: nat)
    requires t.Listed() && t.Levelled() && v !in t.pos
    requires forall i :: 0 <= i < |t.level| ==> t.level[i] <= d
    ensures t.Visit(v, d).Listed() && t.Visit(v, d).Levelled()
  {
  }

  lemma VisitLinks(t: Trail, edges: Edges, start: nat, visited: map<nat, Link>, k: nat, e: Edge)
    requires t.Linked(edges, start, visited) && k < |t.order| && e in Out(edges, t.order[k])
    requires e.to !in t.pos && e.index != USIZE_MAX
    requires t.Visit(e.to, t.level[k] + 1).Listed()
    ensures t.Visit(e.to, t.level[k] + 1).Linked(edges, start, visited[e.to := Link(t.order[k], e.index)])
  {
    var t', visited' := t.Visit(e.to, t.level[k] + 1), visited[e.to := Link(t.order[k], e.index)];
    assert HasEdge(edges, t.order[k], e.to, e.index);
    forall i | 0 < i < |t'.order| ensures t'.LinkOk(edges, visited', i) {
      if i < |t.order| {
        assert t.LinkOk(edges, visited, i);
        assert t'.order[i] == t.order[i];
      }
    }
  }

  lemma CoveredStays(t: Trail, v: nat, d: nat, e: Edge, c: nat, target: nat)
    requires t.Listed() && t.Visit(v, d).Listed() && v !in t.pos && t.Covered(e, c, target)
    ensures t.Visit(v, d).Covered(e, c, target)
  {
  }

  lemma VisitCloses(t: Trail, edges: Edges, k: nat, target: nat, v: nat, d: nat)
    requires t.Listed() && t.Visit(v, d).Listed() && v !in t.pos && k <= |t.order| && t.Closed(edges, k, target)
    ensures t.Visit(v, d).Closed(edges, k, target)
  {
    var t' := t.Visit(v, d);
    forall i, e | 0 <= i < k && e in Out(edges, t'.order[i]) ensures t'.Covered(e, t'.level[i], target) {
      assert t.Covered(e, t.level[i], target);
      CoveredStays(t, v, d, e, t.level[i], target);
    }
  }

  /** Visiting one more neighbour of the first unfinished hash keeps the search's state in order. */
  lemma VisitNext(
      t: Trail, edges: Edges, start: nat, target: nat, visited: map<nat, Link>, k: nat, all: set<nat>, e: Edge)
    requires t.Searching(edges, start, target, visited, k, all) && k < |t.order| && e in Out(edges, t.order[k])
    requires e.to !in visited && e.to != target && e.index != USIZE_MAX && e.to in all
    ensures t.Visit(e.to, t.level[k] + 1).Searching(
      edges, start, target, visited[e.to := Link(t.order[k], e.index)], k, all)
  {
    VisitLists(t, e.to, t.level[k] + 1);
    VisitLinks(t, edges, start, visited, k, e);
    VisitCloses(t, edges, k, target, e.to, t.level[k] + 1);
  }

  /** Once all neighbours of the first unfinished hash are covered, it is finished. */
  lemma Finish(
      t: Trail, edges: Edges, start: nat, target: nat, visited: map<nat, Link>, k: nat, all: set<nat>)
    requires t.Searching(edges, start, target, visited, k, all) && k < |t.order|
    requires forall i :: 0 <= i < |Out(edges, t.order[k])| ==>
      t.Covered(Out(edges, t.order[k])[i], t.level[k], target)
    ensures t.Searching(edges, start, target, visited, k + 1, all)
  {
    if k + 1 < |t.order| {
      assert t.level[k] <= t.level[k + 1];
    }
  }

  /** While a hash at distance `d` is being expanded, every chain to the target is longer than `d`. */
  lemma FoundIsShortest(
      t: Trail, edges: Edges, start: nat, target: nat, visited: map<nat, Link>, k: nat, all: set<nat>)
    requires t.Searching(edges, start, target, visited, k, all) && k < |t.order|
    ensures forall path :: Chain(edges, start, target, path) ==> t.level[k] + 1 <= |path|
  {
    forall path | Chain(edges, start, target, path) ensures t.level[k] + 1 <= |path| {
      if |path| <= t.level[k] {
        ShortChainsVisited(t, edges, start, target, visited, k, target, path);
      }
    }
  }

  /** The trail never holds more hashes than there are. */
  lemma {:induction false} TrailBounded(order: seq<nat>, all: set<nat>)
    requires forall i, j :: 0 <= i < j < |order| ==> order[i] != order[j]
    requires forall i :: 0 <= i < |order| ==> order[i] in all
    ensures |order| <= |all|
  {
    if order != [] {
      TrailBounded(order[..|order| - 1], all - {order[|order| - 1]});
    }
  }

  lemma SearchBounded(
      t: Trail, edges: Edges, start: nat, target: nat, visited: map<nat, Link>, k: nat, all: set<nat>)
    requires t.Searching(edges, start, target, visited, k, all)
    ensures k <= |t.order| <= |all|
  {
    TrailBounded(t.order, all);
  }

  /** All hashes that the search can ever see. */
  ghost function Universe(edges: Edges, start: nat): set<nat> {
    {start} + set a, i | a in edges && 0 <= i < |edges[a]| :: edges[a][i].to
  }

  /** No edge leaves `all`. */
  ghost predicate Within(edges: Edges, all: set<nat>) {
    forall a, i :: a in edges && 0 <= i < |edges[a]| ==> edges[a][i].to in all
  }

  ghost predicate IndicesBelowSentinel(edges: Edges) {
    forall a, i :: a in edges && 0 <= i < |edges[a]| ==> edges[a][i].index < USIZE_MAX
  }

  /** The search's state before the first hash is expanded. */
  lemma SearchStarts(edges: Edges, start: nat, target: nat, all: set<nat>)
    requires start != target && start in all
    ensures Trail([start], [0], map[start := 0]).Searching(
      edges, start, target, map[start := Link(0, USIZE_MAX)], 0, all)
  {
  }

  /** And when no hash is left to expand. */
  lemma SearchExhausted(
      t: Trail, edges: Edges, start: nat, target: nat, visited: map<nat, Link>, k: nat, all: set<nat>)
    requires t.Searching(edges, start, target, visited, k, all) && t.order[k..] == []
    ensures !Reachable(edges, start, target)
  {
    forall p ensures !Chain(edges, start, target, p) {
      if Chain(edges, start, target, p) {
        NothingLeft(t, edges, start, target, visited, target, p);
      }
    }
  }

  lemma UniverseHasAll(edges: Edges, start: nat)
    ensures Within(edges, Universe(edges, start)) && start in Universe(edges, start)
  {
  }

  // ---------------------------------------------------------------------------
  // The graph object
  // ---------------------------------------------------------------------------

  class Graph {
    var edges: Edges

    constructor ()
      ensures edges == map[]
    {
      edges := map[];
    }

    method AddEdge(from: nat, to: nat, index: nat)
      modifies this
      ensures edges == old(edges)[from := Out(old(edges), from) + [Edge(to, index)]]
    {
      edges := edges[from := Out(edges, from) + [Edge(to, index)]];
    }

    method RemoveEdgesFor(from: nat, to: nat)
      modifies this
      ensures edges == Pruned(old(edges), from, to)
    {
      if from in edges {
        edges := edges[from := Without(edges[from], to)];
      }
    }

    /** The path from `current` back to the start, read off the links and turned round. */
    method Reconstruct(
        visited: map<nat, Link>, current: nat, last: nat, ghost t: Trail, ghost start: nat, ghost target: nat)
      returns (path: seq<nat>)
      requires t.Linked(edges, start, visited) && current in t.pos
      requires HasEdge(edges, current, target, last)
      ensures Chain(edges, start, target, path) && |path| == t.level[t.pos[current]] + 1
    {
      path := [last];
      var node := current;
      assert Chain(edges, target, target, []);
      ChainPrepend(edges, current, target, target, last, []);
      assert [last] + [] == Reverse(path);
      while node in visited
        invariant node in t.pos
        invariant Chain(edges, node, target, Reverse(path))
        invariant |path| + t.level[t.pos[node]] == t.level[t.pos[current]] + 1
        decreases t.pos[node]
      {
        assert t.pos[node] > 0 ==> t.LinkOk(edges, visited, t.pos[node]);
        var link := visited[node];
        if link.index == USIZE_MAX {
          break;
        }
        ChainPrepend(edges, link.parent, node, target, link.index, Reverse(path));
        assert [link.index] + Reverse(path) == Reverse(path + [link.index]);
        path := path + [link.index];
        node := link.parent;
      }
      path := Reverse(path);
    }

    /** One pass over the neighbours of `current`: the path if the target is among them. */
    method Expand(
        current: nat, to: nat, visited: map<nat, Link>, queue: seq<nat>,
        ghost from: nat, ghost t: Trail, ghost k: nat, ghost all: set<nat>)
      returns (found: Option<seq<nat>>, visited': map<nat, Link>, queue': seq<nat>, ghost t': Trail)
      requires IndicesBelowSentinel(edges) && Within(edges, all)
      requires t.Searching(edges, from, to, visited, k, all) && k < |t.order|
      requires current == t.order[k] && queue == t.order[k + 1..]
      ensures found.Some? ==> Chain(edges, from, to, found.value)
      ensures found.Some? ==> forall path :: Chain(edges, from, to, path) ==> |found.value| <= |path|
      ensures found.None? ==> t'.Searching(edges, from, to, visited', k + 1, all) && queue' == t'.order[k + 1..]
    {
      visited', queue', t' := visited, queue, t;
      var neighbors := Out(edges, current);
      for i := 0 to |neighbors|
        invariant t'.Searching(edges, from, to, visited', k, all) && k < |t'.order|
        invariant current == t'.order[k] && queue' == t'.order[k + 1..]
        invariant forall j :: 0 <= j < i ==> t'.Covered(neighbors[j], t'.level[k], to)
      {
        var next, index := neighbors[i].to, neighbors[i].index;
        if next == to {
          var path := Reconstruct(visited', current, index, t', from, to);
          FoundIsShortest(t', edges, from, to, visited', k, all);
          return Some(path), visited', queue', t';
        }
        if next !in visited' {
          VisitNext(t', edges, from, to, visited', k, all, neighbors[i]);
          forall j | 0 <= j < i ensures t'.Visit(next, t'.level[k] + 1).Covered(neighbors[j], t'.level[k], to) {
            CoveredStays(t', next, t'.level[k] + 1, neighbors[j], t'.level[k], to);
          }
          visited' := visited'[next := Link(current, index)];
          queue' := queue' + [next];
          t' := t'.Visit(next, t'.level[k] + 1);
        }
      }
      Finish(t', edges, from, to, visited', k, all);
      found := None;
    }

    method ShortestPath(from: nat, to: nat) returns (r: Option<seq<nat>>)
      requires IndicesBelowSentinel(edges)
      ensures r.None? ==> !Reachable(edges, from, to)
      ensures r.Some? ==> Chain(edges, from, to, r.value)
      ensures r.Some? ==> forall path :: Chain(edges, from, to, path) ==> |r.value| <= |path|
    {
      if from == to {
        return Some([]);
      }
      hide Trail.Searching, Universe, Within, IndicesBelowSentinel;
      var visited: map<nat, Link> := map[from := Link(0, USIZE_MAX)];
      var queue := [from];
      ghost var t := Trail([from], [0], map[from := 0]);
      ghost var k := 0;
      ghost var all := Universe(edges, from);
      UniverseHasAll(edges, from);
      SearchStarts(edges, from, to, all);
      SearchBounded(t, edges, from, to, visited, k, all);
      while queue != []
        invariant t.Searching(edges, from, to, visited, k, all)
        invariant k <= |t.order| <= |all| && queue == t.order[k..]
        decreases |all| - k
      {
        var current := queue[0];
        var found;
        found, visited, queue, t := Expand(current, to, visited, queue[1..], from, t, k, all);
        if found.Some? {
          return found;
        }
        k := k + 1;
        SearchBounded(t, edges, from, to, visited, k, all);
      }
      SearchExhausted(t, edges, from, to, visited, k, all);
      return None;
    }
  }

  /** The edges that do not lead to `to`, in their old order. */
  function Without(es: seq<Edge>, to: nat): (r: seq<Edge>)
    ensures forall e :: e in r <==> e in es && e.to != to
  {
    if es == [] then []
    else Without(es[..|es| - 1], to) + (if es[|es| - 1].to != to then [es[|es| - 1]] else [])
  }

  /** The graph without the edges between two hashes. */
  function Pruned(edges: Edges, from: nat, to: nat): (r: Edges)
    ensures r.Keys == edges.Keys
    ensures forall a {:trigger Out(r, a)} :: Out(r, a) == if a == from then Without(Out(edges, a), to) else Out(edges, a)
  {
    if from in edges then edges[from := Without(edges[from], to)] else edges
  }
}
