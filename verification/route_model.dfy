/**
  The graph the route planner searches: node ids, each node's neighbour list,
  a non-negative distance between nodes and the metric scale that turns a
  distance in map units into metres. Also the per-node search state that the
  planner reads and overwrites.
 */
module RouteModel {

  /** Index of a node in the model's node table. */
  type Id = nat

  datatype Option<T> = None | Some(value: T)

  /** The search fields every node carries: whether it has been visited,
      cost from the start (g), heuristic estimate to the goal (h), and the
      id of its predecessor on the current best-known path. */
  datatype NodeState = NodeState(visited: bool, g: nat, h: nat, parent: Option<Id>)

  /** The state of a node before any search touches it. */
  const Fresh: NodeState := NodeState(false, 0, 0, None)

  /** Estimated total cost of a route through a node, g + h. */
  function TotalCost(s: NodeState): nat
  {
    s.g + s.h
  }

  /** adj holds, for every node id, the neighbour list that populating the
      node's neighbours yields; dist is the distance between two nodes and
      scale the map's metric scale. */
  datatype Graph = Graph(adj: map<Id, seq<Id>>, dist: (Id, Id) -> nat, scale: nat)

  /** Every neighbour is itself a node of the graph, and no node is its own
      neighbour. */
  ghost predicate ValidGraph(gr: Graph)
  {
    && (forall id, n :: id in gr.adj && n in gr.adj[id] ==> n in gr.adj)
    && (forall id :: id in gr.adj ==> id !in gr.adj[id])
  }

  /** Length of a path given start-first: the sum of the distance from each
      node to the node before it. */
  function PathCost(gr: Graph, path: seq<Id>): nat
  {
    if |path| <= 1 then 0 else gr.dist(path[1], path[0]) + PathCost(gr, path[1..])
  }

  /** `b` is a neighbour of `a`. */
  ghost predicate IsEdge(gr: Graph, a: Id, b: Id)
  {
    a in gr.adj && b in gr.adj[a]
  }

  /** Every consecutive pair of the path is an edge of the graph. */
  ghost predicate FollowsEdges(gr: Graph, path: seq<Id>)
  {
    forall i :: 1 <= i < |path| ==> IsEdge(gr, path[i - 1], path[i])
  }

  /** No id occurs twice in the sequence. */
  ghost predicate Distinct(s: seq<Id>)
  {
    forall i, j :: 0 <= i < j < |s| ==> s[i] != s[j]
  }
}
