/**
  The A* route planner's building blocks: construction from a start and an
  end node, the heuristic, expansion of a node into the open list,
  selection of the next node, and reconstruction of the final path by
  following parent links. The node table is held by the planner as a map
  from id to search state, so every operation is a state transformer.
 */
module RoutePlanner {
  import opened RouteModel

  /** The planner's state: the search fields of every node, the open list
      (an unordered list of node ids, possibly with repeats) and the two
      endpoints. */
  datatype Planner = Planner(nodes: map<Id, NodeState>, open: seq<Id>, start: Id, goal: Id)

  /** The node table covers exactly the graph's nodes, both endpoints are
      nodes, and the open list holds only nodes. */
  ghost predicate Valid(gr: Graph, p: Planner)
  {
    && ValidGraph(gr)
    && p.nodes.Keys == gr.adj.Keys
    && p.start in p.nodes
    && p.goal in p.nodes
    && (forall i :: 0 <= i < |p.open| ==> p.open[i] in p.nodes)
  }

  /** A planner for one search between two given nodes: every node starts
      unvisited with zero costs and no parent, and the open list is empty. */
  function Init(gr: Graph, start: Id, goal: Id): (p: Planner)
    requires ValidGraph(gr)
    requires start in gr.adj && goal in gr.adj
    ensures Valid(gr, p)
    ensures p.start == start && p.goal == goal
    ensures p.open == []
    ensures forall id :: id in gr.adj ==> id in p.nodes && p.nodes[id] == Fresh
  {
    Planner(map id | id in gr.adj :: Fresh, [], start, goal)
  }

  /** Heuristic: straight distance from a node to the goal. */
  function CalculateHValue(gr: Graph, goal: Id, n: Id): nat
  {
    gr.dist(n, goal)
  }

  /** The search state expansion of `c` (whose g value is `cg`) writes into
      its neighbour `n`. */
  function Discovered(gr: Graph, goal: Id, c: Id, cg: nat, n: Id): NodeState
  {
    NodeState(true, gr.dist(n, c) + cg, CalculateHValue(gr, goal, n), Some(c))
  }

  /** Overwrites the search state of every node in `ns`, in order, with what
      expansion of `c` writes; no node's earlier state is consulted. */
  function OverwriteNeighbors(gr: Graph, goal: Id, c: Id, cg: nat,
                              nodes: map<Id, NodeState>, ns: seq<Id>): (r: map<Id, NodeState>)
    requires forall i :: 0 <= i < |ns| ==> ns[i] in nodes
    ensures r.Keys == nodes.Keys
    ensures forall n :: n in ns ==> r[n] == Discovered(gr, goal, c, cg, n)
    ensures forall n :: n in nodes && n !in ns ==> r[n] == nodes[n]
    decreases |ns|
  {
    if ns == [] then nodes
    else OverwriteNeighbors(gr, goal, c, cg, nodes[ns[0] := Discovered(gr, goal, c, cg, ns[0])], ns[1..])
  }

  /** Expands `c`: marks it visited, then gives each of its neighbours `c` as
      parent, the heuristic as h and the distance to `c` plus c's g as g,
      marks it visited and appends it to the open list. A neighbour that was
      already visited or already in the open list is treated the same way. */
  function AddNeighbors(gr: Graph, p: Planner, c: Id): (q: Planner)
    requires Valid(gr, p)
    requires c in p.nodes
    ensures Valid(gr, q)
    ensures q.start == p.start && q.goal == p.goal
    ensures q.nodes.Keys == p.nodes.Keys
    ensures q.nodes[c] == p.nodes[c].(visited := true)
    ensures forall n :: n in gr.adj[c] ==>
              q.nodes[n] == NodeState(true, gr.dist(n, c) + p.nodes[c].g, gr.dist(n, p.goal), Some(c))
    ensures forall n :: n in p.nodes && n != c && n !in gr.adj[c] ==> q.nodes[n] == p.nodes[n]
    ensures q.open == p.open + gr.adj[c]
  {
    var marked := p.nodes[c := p.nodes[c].(visited := true)];
    Planner(OverwriteNeighbors(gr, p.goal, c, p.nodes[c].g, marked, gr.adj[c]),
            p.open + gr.adj[c], p.start, p.goal)
  }

  /** Index of an open-list entry of least estimated total cost. */
  function MinIndex(nodes: map<Id, NodeState>, open: seq<Id>): (k: nat)
    requires |open| > 0
    requires forall i :: 0 <= i < |open| ==> open[i] in nodes
    ensures k < |open|
    ensures forall i :: 0 <= i < |open| ==> TotalCost(nodes[open[k]]) <= TotalCost(nodes[open[i]])
  {
    if |open| == 1 then 0
    else
      var k := MinIndex(nodes, open[..|open| - 1]);
      if TotalCost(nodes[open[|open| - 1]]) < TotalCost(nodes[open[k]]) then |open| - 1 else k
  }

  /** Removes from the open list one entry of least g + h and returns it with
      the new planner state. Which of several equally cheap entries is taken
      is not specified. */
  function NextNode(gr: Graph, p: Planner): (res: (Id, Planner))
    requires Valid(gr, p)
    requires |p.open| > 0
    ensures res.0 in p.open
    ensures forall i :: 0 <= i < |p.open| ==>
              TotalCost(p.nodes[res.0]) <= TotalCost(p.nodes[p.open[i]])
    ensures multiset(res.1.open) == multiset(p.open) - multiset{res.0}
    ensures |res.1.open| == |p.open| - 1
    ensures res.1.nodes == p.nodes && res.1.start == p.start && res.1.goal == p.goal
    ensures Valid(gr, res.1)
  {
    var k := MinIndex(p.nodes, p.open);
    var rest := p.open[..k] + p.open[k + 1..];
    assert p.open == p.open[..k] + [p.open[k]] + p.open[k + 1..];
    assert forall i :: 0 <= i < |rest| ==> rest[i] in p.open;
    (p.open[k], p.(open := rest))
  }

  /** Following parent links from `c`, the start node is first met after
      exactly `k` steps. */
  ghost predicate ReachesIn(nodes: map<Id, NodeState>, c: Id, start: Id, k: nat)
    decreases k
  {
    if k == 0 then c == start
    else
      && c != start
      && c in nodes
      && nodes[c].parent.Some?
      && ReachesIn(nodes, nodes[c].parent.value, start, k - 1)
  }

  /** Following at most `k` parent links from `c`, every node met before
      the start has a parent, so a walk of `k` links never reads a missing
      one. */
  ghost predicate WalksFor(nodes: map<Id, NodeState>, c: Id, start: Id, k: nat)
    decreases k
  {
    || k == 0
    || c == start
    || (&& c in nodes
        && nodes[c].parent.Some?
        && WalksFor(nodes, nodes[c].parent.value, start, k - 1))
  }

  /** Each node of the path after the first has the node before it as its
      parent. */
  ghost predicate ParentLinked(nodes: map<Id, NodeState>, path: seq<Id>)
  {
    forall i :: 1 <= i < |path| ==> path[i] in nodes && nodes[path[i]].parent == Some(path[i - 1])
  }

  /** Walks parent links back from `c` to the start node, putting each
      parent in front of the path and adding the distance from the node to
      its parent; the sum is multiplied by the metric scale at the end.
      `k` is the number of links to the start, a proof-only measure. */
  method ConstructFinalPath(gr: Graph, p: Planner, c: Id, ghost k: nat)
    returns (path: seq<Id>, distance: nat)
    requires ReachesIn(p.nodes, c, p.start, k)
    ensures |path| == k + 1
    ensures path[0] == p.start && path[|path| - 1] == c
    ensures forall i :: 0 < i < |path| ==> path[i] != p.start
    ensures ParentLinked(p.nodes, path)
    ensures distance == gr.scale * PathCost(gr, path)
    ensures c == p.start ==> path == [c] && distance == 0
  {
    var current := c;
    var sum: nat := 0;
    path := [c];
    ghost var left := k;
    while current != p.start
      invariant ReachesIn(p.nodes, current, p.start, left)
      invariant |path| + left == k + 1
      invariant path[0] == current && path[|path| - 1] == c
      invariant forall i :: 0 < i < |path| ==> path[i] != p.start
      invariant ParentLinked(p.nodes, path)
      invariant sum == PathCost(gr, path)
      decreases left
    {
      var parent := p.nodes[current].parent.value;
      sum := sum + gr.dist(current, parent);
      path := [parent] + path;
      current := parent;
      left := left - 1;
    }
    distance := sum * gr.scale;
  }

  /** Bounded walk of at most `fuel` parent links from `c`: the number of
      links to the start node, or None when the start is not met within
      `fuel` links. */
  function FindChain(nodes: map<Id, NodeState>, c: Id, start: Id, fuel: nat): (r: Option<nat>)
    ensures r.Some? ==> r.value <= fuel && ReachesIn(nodes, c, start, r.value)
    ensures r.None? ==> forall k: nat :: k <= fuel ==> !ReachesIn(nodes, c, start, k)
    decreases fuel
  {
    if c == start then Some(0)
    else if fuel == 0 || c !in nodes || nodes[c].parent.None? then None
    else
      match FindChain(nodes, nodes[c].parent.value, start, fuel - 1)
      case Some(k) => Some(k + 1)
      case None => None
  }
}
