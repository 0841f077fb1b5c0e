/**
  The A* driver: from the start node, expand the current node and select
  the next one until the current node is the end node, then reconstruct the
  path. Where the C++ RoutePlanner would select from an empty open list or
  follow a parent chain that never returns to the start, the model stops
  with an explicit outcome; a step budget bounds the main loop.
 */
module Search {
  import opened RouteModel
  import opened RoutePlanner
  import opened SearchInvariants

  datatype Outcome =
    | Found(path: seq<Id>, distance: nat)  // start-first path to the end node, scaled length
    | NoPath                               // the open list ran empty before the end node was selected
    | BrokenChain                          // the end node's parent chain never reaches the start node
    | OutOfFuel                            // the step budget ran out first

  /** Why a run of expand-and-select rounds stopped. */
  datatype Halt =
    | AtGoal       // the current node is the end node
    | OpenEmpty    // expanding the current node left the open list empty
    | BudgetSpent  // the allowed number of rounds was used up

  /** Planner state and current node where a run of rounds stopped, why it
      stopped, and how many rounds of expansion and selection it completed. */
  datatype RunState = RunState(planner: Planner, current: Id, halt: Halt, rounds: nat)

  /** One round, expanding `c` and then selecting from the open list when
      it is not empty, keeps the search invariant and selects a visited
      node. */
  lemma RoundKeepsInvariant(gr: Graph, p: Planner, c: Id)
    requires Valid(gr, p)
    requires c in p.nodes
    ensures SearchInvariant(gr, p) && (c == p.start || p.nodes[c].visited) ==>
              var q := AddNeighbors(gr, p, c);
              && SearchInvariant(gr, q)
              && q.nodes[c].visited
              && (q.open != [] ==>
                    var selected := NextNode(gr, q);
                    SearchInvariant(gr, selected.1) && selected.1.nodes[selected.0].visited)
  {
    if SearchInvariant(gr, p) && (c == p.start || p.nodes[c].visited) {
      AddNeighborsPreservesInvariant(gr, p, c);
      var q := AddNeighbors(gr, p, c);
      if q.open != [] {
        NextNodePreservesInvariant(gr, q);
      }
    }
  }

  /** The driver loop, as a recursive function: from planner `p` and
      current node `c`, repeat at most `n` rounds of expanding the current
      node and selecting the next one, stopping as soon as the current node
      is the end node or an expansion leaves the open list empty. Started
      from a state that satisfies the search invariant at the start node or
      a visited node, it stops in such a state. */
  function Rounds(gr: Graph, p: Planner, c: Id, n: nat): (s: RunState)
    requires Valid(gr, p)
    requires c in p.nodes
    ensures Valid(gr, s.planner) && s.current in s.planner.nodes
    ensures s.planner.start == p.start && s.planner.goal == p.goal
    ensures s.halt.AtGoal? <==> s.current == p.goal
    ensures s.halt.OpenEmpty? ==> s.planner.open == []
    ensures s.rounds <= n
    ensures s.halt.BudgetSpent? <==> s.rounds == n && s.current != p.goal
    ensures SearchInvariant(gr, p) && (c == p.start || p.nodes[c].visited) ==>
              SearchInvariant(gr, s.planner) && (s.current == p.start || s.planner.nodes[s.current].visited)
    decreases n
  {
    if c == p.goal then RunState(p, c, AtGoal, 0)
    else if n == 0 then RunState(p, c, BudgetSpent, 0)
    else
      RoundKeepsInvariant(gr, p, c);
      var q := AddNeighbors(gr, p, c);
      if q.open == [] then RunState(q, c, OpenEmpty, 0)
      else
        var selected := NextNode(gr, q);
        var rest := Rounds(gr, selected.1, selected.0, n - 1);
        rest.(rounds := rest.rounds + 1)
  }

  /** Once the current node is the end node: walks the end node's parent
      chain back to the start and builds the path, or reports that the chain
      never reaches the start. */
  method PathToGoal(gr: Graph, p: Planner) returns (r: Outcome)
    requires Valid(gr, p) && SearchInvariant(gr, p)
    requires p.goal == p.start || p.nodes[p.goal].visited
    ensures r.Found? || r.BrokenChain?
    ensures r.Found? ==>
              && |r.path| > 0
              && r.path[0] == p.start
              && r.path[|r.path| - 1] == p.goal
              && ParentLinked(p.nodes, r.path)
              && FollowsEdges(gr, r.path)
              && Distinct(r.path)
              && r.distance == gr.scale * PathCost(gr, r.path)
    ensures r.BrokenChain? ==>
              forall k: nat :: !ReachesIn(p.nodes, p.goal, p.start, k) && WalksFor(p.nodes, p.goal, p.start, k)
    ensures p.start == p.goal ==> r == Found([p.start], 0)
  {
    match FindChain(p.nodes, p.goal, p.start, |p.nodes|)
    case None =>
      FindChainComplete(p.nodes, p.goal, p.start);
      forall k: nat
        ensures WalksFor(p.nodes, p.goal, p.start, k)
      {
        VisitedWalksFor(gr, p, p.goal, k);
      }
      r := BrokenChain;
    case Some(k) =>
      var path, distance := ConstructFinalPath(gr, p, p.goal, k);
      ParentLinkedFollowsEdges(gr, p, path);
      LinkedPathIsSimple(p.nodes, path, p.start);
      r := Found(path, distance);
  }

  /** Runs the search from `start` to `goal` for at most `fuel` rounds of
      expansion and selection, then reconstructs the path. Returns the
      outcome, the final planner state and the node the loop stopped at. */
  method AStarSearch(gr: Graph, start: Id, goal: Id, fuel: nat)
    returns (r: Outcome, p: Planner, current: Id)
    requires ValidGraph(gr)
    requires start in gr.adj && goal in gr.adj
    ensures Valid(gr, p) && SearchInvariant(gr, p)
    ensures p.start == start && p.goal == goal
    ensures var s := Rounds(gr, Init(gr, start, goal), start, fuel);
              && s.planner == p && s.current == current
              && (r.OutOfFuel? <==> s.halt.BudgetSpent?)
              && (r.OutOfFuel? <==> s.rounds == fuel && current != goal)
              && (r.NoPath? <==> s.halt.OpenEmpty?)
    ensures r.Found? ==>
              && current == goal
              && |r.path| > 0
              && r.path[0] == start
              && r.path[|r.path| - 1] == goal
              && ParentLinked(p.nodes, r.path)
              && FollowsEdges(gr, r.path)
              && Distinct(r.path)
              && r.distance == gr.scale * PathCost(gr, r.path)
    ensures r.NoPath? ==> p.open == [] && current != goal
    ensures r.OutOfFuel? ==> current != goal
    ensures r.BrokenChain? ==>
              && current == goal
              && forall k: nat :: !ReachesIn(p.nodes, goal, start, k) && WalksFor(p.nodes, goal, start, k)
    ensures start == goal ==> r == Found([start], 0)
  {
    var p0 := Init(gr, start, goal);
    InitEstablishesInvariant(gr, start, goal);
    var s := Rounds(gr, p0, start, fuel);
    p, current := s.planner, s.current;
    match s.halt
    case BudgetSpent =>
      r := OutOfFuel;
    case OpenEmpty =>
      r := NoPath;
    case AtGoal =>
      r := PathToGoal(gr, p);
  }
}
