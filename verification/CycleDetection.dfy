/**
 Cycle detection over a pipeline's edges: a depth-first search with a set of
 nodes on the current path and a set of finished nodes. It answers yes exactly
 when a closed walk can be reached from a listed node, and a negative answer
 comes with a topological numbering of everything reachable.
 */
module CycleDetection {
  import opened Prelude

  datatype NodeId = NodeId(name: string)

  datatype PipelineEdge = PipelineEdge(source: NodeId, target: NodeId)
  datatype PipelineNode = PipelineNode(id: NodeId, nodeType: string)
  datatype Pipeline = Pipeline(nodes: seq<PipelineNode>, edges: seq<PipelineEdge>)

  type Graph = map<NodeId, seq<NodeId>>

  function Neighbours(g: Graph, n: NodeId): seq<NodeId> {
    if n in g then g[n] else []
  }

  // ---------------------------------------------------------------------------
  // Walks and cycles
  // ---------------------------------------------------------------------------

  ghost predicate Step(g: Graph, a: NodeId, b: NodeId) {
    b in Neighbours(g, a)
  }

  /** A non-empty sequence of nodes, each a neighbour of the one before. */
  ghost predicate Walk(g: Graph, p: seq<NodeId>) {
    |p| > 0 && forall i, j {:trigger Step(g, p[i], p[j])} :: 0 <= i && j == i + 1 && j < |p| ==> Step(g, p[i], p[j])
  }

  ghost predicate WalkBetween(g: Graph, a: NodeId, b: NodeId, p: seq<NodeId>) {
    Walk(g, p) && p[0] == a && p[|p| - 1] == b
  }

  ghost predicate Reaches(g: Graph, a: NodeId, b: NodeId) {
    exists p :: WalkBetween(g, a, b, p)
  }

  /** `c` lies on a closed walk of at least one edge. */
  ghost predicate OnCycle(g: Graph, c: NodeId) {
    exists p :: WalkBetween(g, c, c, p) && |p| >= 2
  }

  ghost predicate CycleReachable(g: Graph, root: NodeId) {
    exists c :: Reaches(g, root, c) && OnCycle(g, c)
  }

  lemma WalkPart(g: Graph, p: seq<NodeId>, lo: nat, hi: nat)
    requires Walk(g, p) && lo < hi <= |p|
    ensures WalkBetween(g, p[lo], p[hi - 1], p[lo..hi])
  {
    var q := p[lo..hi];
    forall i, j | 0 <= i && j == i + 1 && j < |q| ensures Step(g, q[i], q[j]) {
      assert Step(g, p[lo + i], p[lo + i + 1]);
    }
  }

  /** A walk that ends where it has been before shows a reachable cycle. */
  lemma LassoIsCycle(g: Graph, p: seq<NodeId>, i: nat)
    requires Walk(g, p) && i < |p| - 1 && p[i] == p[|p| - 1]
    ensures CycleReachable(g, p[0])
  {
    WalkPart(g, p, 0, i + 1);
    WalkPart(g, p, i, |p|);
    assert Reaches(g, p[0], p[i]);
    assert OnCycle(g, p[i]);
  }

  // ---------------------------------------------------------------------------
  // Topological numberings
  // ---------------------------------------------------------------------------

  type Ranks = map<NodeId, nat>

  /** Every edge out of a numbered node leads to a node with a smaller number. */
  ghost predicate Topological(g: Graph, rank: Ranks) {
    forall v, w {:trigger Step(g, v, w)} :: v in rank && Step(g, v, w) ==> w in rank && rank[w] < rank[v]
  }

  lemma {:induction false} WalkDescends(g: Graph, rank: Ranks, p: seq<NodeId>, i: nat)
    requires Topological(g, rank) && Walk(g, p) && p[0] in rank && i < |p|
    ensures p[i] in rank && (i > 0 ==> rank[p[i]] < rank[p[0]])
  {
    if i > 0 {
      WalkDescends(g, rank, p, i - 1);
      assert Step(g, p[i - 1], p[i]);
    }
  }

  /** Where there is a topological numbering there is no cycle. */
  lemma NumberedIsAcyclic(g: Graph, rank: Ranks, root: NodeId)
    requires Topological(g, rank) && root in rank
    ensures !CycleReachable(g, root)
    ensures forall c :: Reaches(g, root, c) ==> c in rank
  {
    forall c | Reaches(g, root, c) ensures c in rank && !OnCycle(g, c) {
      var p :| WalkBetween(g, root, c, p);
      WalkDescends(g, rank, p, |p| - 1);
      forall q | WalkBetween(g, c, c, q) ensures |q| < 2 {
        WalkDescends(g, rank, q, |q| - 1);
      }
    }
  }

  // ---------------------------------------------------------------------------
  // The search
  // ---------------------------------------------------------------------------

  ghost predicate StepsFrom(g: Graph, path: seq<NodeId>, node: NodeId) {
    Walk(g, path + [node])
  }

  /** `path` leads to `node` and lists what is being visited; what has been visited is numbered. */
  ghost predicate Searching(
      g: Graph, node: NodeId, path: seq<NodeId>, visiting: set<NodeId>, visited: set<NodeId>, rank: Ranks, next: nat)
  {
    && StepsFrom(g, path, node)
    && (forall v {:trigger v in visiting} :: v in visiting <==> v in path)
    && Numbered(g, visited, rank, next) && visiting !! visited
  }

  /** Exactly the visited nodes are numbered, below `next`. */
  ghost predicate Numbered(g: Graph, visited: set<NodeId>, rank: Ranks, next: nat) {
    && Topological(g, rank)
    && (forall v {:trigger v in rank} {:trigger v in visited} :: v in rank <==> v in visited)
    && (forall v {:trigger rank[v]} :: v in rank ==> rank[v] < next)
  }

  /** Everything the search can come across. */
  ghost predicate ClosedSet(g: Graph, all: set<NodeId>) {
    forall v, w {:trigger Step(g, v, w)} :: v in all && Step(g, v, w) ==> w in all
  }

  /** A search that has reached `node` may go on to any of its neighbours. */
  lemma GoOn(
      g: Graph, node: NodeId, path: seq<NodeId>, visiting: set<NodeId>, visited: set<NodeId>, rank: Ranks, next: nat,
      visited': set<NodeId>, rank': Ranks, next': nat, k: nat)
    requires Searching(g, node, path, visiting, visited, rank, next) && k < |Neighbours(g, node)|
    requires Numbered(g, visited', rank', next') && visiting + {node} !! visited'
    ensures Searching(g, Neighbours(g, node)[k], path + [node], visiting + {node}, visited', rank', next')
    ensures Step(g, node, Neighbours(g, node)[k])
    ensures (path + [node] + [Neighbours(g, node)[k]])[0] == (path + [node])[0]
  {
    assert Step(g, node, Neighbours(g, node)[k]);
  }

  /** Coming across a node of the current path closes a cycle. */
  lemma PathClosed(
      g: Graph, node: NodeId, path: seq<NodeId>, visiting: set<NodeId>, visited: set<NodeId>, rank: Ranks, next: nat)
    requires Searching(g, node, path, visiting, visited, rank, next) && node in visiting
    ensures CycleReachable(g, (path + [node])[0])
  {
    var i :| 0 <= i < |path| && path[i] == node;
    LassoIsCycle(g, path + [node], i);
  }

  lemma SmallerRest(
      all: set<NodeId>, visiting: set<NodeId>, visited: set<NodeId>, visited': set<NodeId>, node: NodeId)
    requires node in all && node !in visiting && node !in visited && visited <= visited'
    ensures all - (visiting + {node}) - visited' < all - visiting - visited
  {
    assert node in all - visiting - visited;
    assert node !in all - (visiting + {node}) - visited';
  }

  /**
   Unexplored nodes shrink on every call even though `visiting` is undone on the way back: what a
   finished call takes off the path it adds to `visited`.
   */
  method DfsCycle(
      node: NodeId, g: Graph, visiting: set<NodeId>, visited: set<NodeId>,
      ghost path: seq<NodeId>, ghost rank: Ranks, ghost next: nat, ghost all: set<NodeId>)
    returns (found: bool, visiting': set<NodeId>, visited': set<NodeId>, ghost rank': Ranks, ghost next': nat)
    requires Searching(g, node, path, visiting, visited, rank, next)
    requires node in all && ClosedSet(g, all)
    ensures found ==> CycleReachable(g, (path + [node])[0])
    ensures !found ==> visiting' == visiting && visited <= visited' && node in visited' && visiting !! visited'
    ensures !found ==> Numbered(g, visited', rank', next')
    decreases all - visiting - visited
  {
    if node in visited {
      return false, visiting, visited, rank, next;
    }
    if node in visiting {
      PathClosed(g, node, path, visiting, visited, rank, next);
      return true, visiting, visited, rank, next;
    }
    visiting', visited', rank', next' := visiting + {node}, visited, rank, next;
    var neighbors := Neighbours(g, node);
    for k := 0 to |neighbors|
      invariant visiting' == visiting + {node} && visited <= visited'
      invariant Numbered(g, visited', rank', next') && visiting' !! visited'
      invariant forall i :: 0 <= i < k ==> neighbors[i] in visited'
    {
      GoOn(g, node, path, visiting, visited, rank, next, visited', rank', next', k);
      SmallerRest(all, visiting, visited, visited', node);
      found, visiting', visited', rank', next' := DfsCycle(
        neighbors[k], g, visiting', visited', path + [node], rank', next', all);
      if found {
        return true, visiting', visited', rank', next';
      }
    }
    rank', next' := rank'[node := next'], next' + 1;
    visiting' := visiting' - {node};
    visited' := visited' + {node};
    found := false;
  }

  // ---------------------------------------------------------------------------
  // The pipeline's graph
  // ---------------------------------------------------------------------------

  /** The adjacency lists that adding the edges one by one builds. */
  function GraphOf(edges: seq<PipelineEdge>): Graph {
    if edges == [] then map[]
    else
      var g, e := GraphOf(edges[..|edges| - 1]), edges[|edges| - 1];
      g[e.source := Neighbours(g, e.source) + [e.target]]
  }

  /** They are the edge relation. */
  lemma {:induction false} StepsAreEdges(edges: seq<PipelineEdge>, a: NodeId, b: NodeId)
    ensures Step(GraphOf(edges), a, b) <==> PipelineEdge(a, b) in edges
  {
    if edges != [] {
      StepsAreEdges(edges[..|edges| - 1], a, b);
      assert edges == edges[..|edges| - 1] + [edges[|edges| - 1]];
    }
  }

  method BuildGraph(edges: seq<PipelineEdge>) returns (g: Graph)
    ensures g == GraphOf(edges)
  {
    g := map[];
    for k := 0 to |edges|
      invariant g == GraphOf(edges[..k])
    {
      assert edges[..k + 1][..k] == edges[..k];
      g := g[edges[k].source := Neighbours(g, edges[k].source) + [edges[k].target]];
    }
    assert edges[..|edges|] == edges;
  }

  ghost function Mentioned(p: Pipeline): set<NodeId> {
    (set k | 0 <= k < |p.nodes| :: p.nodes[k].id) + (set k | 0 <= k < |p.edges| :: p.edges[k].target)
  }

  lemma MentionedIsClosed(p: Pipeline)
    ensures ClosedSet(GraphOf(p.edges), Mentioned(p))
    ensures forall k :: 0 <= k < |p.nodes| ==> p.nodes[k].id in Mentioned(p)
  {
    forall v, w | Step(GraphOf(p.edges), v, w) ensures w in Mentioned(p) {
      StepsAreEdges(p.edges, v, w);
      var k :| 0 <= k < |p.edges| && p.edges[k] == PipelineEdge(v, w);
      assert p.edges[k].target == w;
    }
  }

  /** Some listed node reaches a closed walk. */
  ghost predicate CyclicFromListed(p: Pipeline) {
    exists k :: 0 <= k < |p.nodes| && CycleReachable(GraphOf(p.edges), p.nodes[k].id)
  }

  /** The nodes reachable from a listed node can be numbered so that every edge goes down. */
  ghost predicate HasTopologicalOrder(p: Pipeline) {
    exists rank :: Topological(GraphOf(p.edges), rank) && forall k :: 0 <= k < |p.nodes| ==> p.nodes[k].id in rank
  }

  method SearchAll(nodes: seq<PipelineNode>, g: Graph, ghost all: set<NodeId>)
    returns (found: Option<nat>, ghost rank: Ranks)
    requires ClosedSet(g, all) && forall k :: 0 <= k < |nodes| ==> nodes[k].id in all
    ensures found.Some? ==> found.value < |nodes| && CycleReachable(g, nodes[found.value].id)
    ensures found.None? ==> Topological(g, rank) && forall k :: 0 <= k < |nodes| ==> nodes[k].id in rank
  {
    var visiting: set<NodeId>, visited: set<NodeId> := {}, {};
    rank := map[];
    ghost var next := 0;
    for k := 0 to |nodes|
      invariant visiting == {} && Numbered(g, visited, rank, next)
      invariant forall i :: 0 <= i < k ==> nodes[i].id in visited
    {
      ghost var before := visited;
      var hit;
      hit, visiting, visited, rank, next := DfsCycle(nodes[k].id, g, visiting, visited, [], rank, next, all);
      if hit {
        return Some(k), rank;
      }
      assert forall i :: 0 <= i < k ==> nodes[i].id in before;
    }
    found := None;
  }

  method HasCycle(p: Pipeline) returns (found: bool)
    ensures found <==> CyclicFromListed(p)
    ensures !found <==> HasTopologicalOrder(p)
  {
    var g := BuildGraph(p.edges);
    MentionedIsClosed(p);
    var at, rank := SearchAll(p.nodes, g, Mentioned(p));
    if at.Some? {
      NoOrderAroundCycle(p, at.value);
    } else {
      forall k | 0 <= k < |p.nodes| ensures !CycleReachable(GraphOf(p.edges), p.nodes[k].id) {
        NumberedIsAcyclic(g, rank, p.nodes[k].id);
      }
    }
    return at.Some?;
  }

  lemma NoOrderAroundCycle(p: Pipeline, k: nat)
    requires k < |p.nodes| && CycleReachable(GraphOf(p.edges), p.nodes[k].id)
    ensures !HasTopologicalOrder(p)
  {
    forall rank | Topological(GraphOf(p.edges), rank) && (forall i :: 0 <= i < |p.nodes| ==> p.nodes[i].id in rank)
      ensures false
    {
      NumberedIsAcyclic(GraphOf(p.edges), rank, p.nodes[k].id);
    }
  }
}
