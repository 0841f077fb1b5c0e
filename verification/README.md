# A* route planner — Dafny model

This project models the route search of the route-planning program: the
`RoutePlanner` class that, given a start node and an end node of a map
graph, runs A* and produces the path from start to end together with its
length in metres.

The model is functional. The graph (`RouteModel.Graph`) holds each node's
neighbour list, an abstract non-negative distance `dist(a, b)` and the
map's metric scale. The search fields every node carries (`visited`,
`g_value`, `h_value`, `parent`) live in a node table `map<Id, NodeState>`
owned by a `Planner` value together with the open list (a `seq<Id>`) and
the two endpoints. Every operation of the planner is a pure state
transformer on that value:

- `RoutePlanner.Init` — the constructor, given the start and end ids.
- `RoutePlanner.CalculateHValue` — the heuristic, distance to the end node.
  It is a pure function of the graph, so it changes no node and no open-list
  state. The value it yields is stated where it is stored, in the contract of
  `AddNeighbors`: every expanded neighbour gets `h == dist(n, end)`.
- `RoutePlanner.AddNeighbors` — expansion. The current node is marked
  visited. Then every neighbour is overwritten with parent, g, h and visited,
  and appended to the open list. Neighbours already visited or already queued
  are overwritten and queued again, exactly as the C++ RoutePlanner does.
- `RoutePlanner.NextNode` — selection. It removes one open-list entry of
  least `g + h` and returns it.
- `RoutePlanner.ConstructFinalPath` — reconstruction. It follows parent
  links back to the start, sums the distances and scales the sum.
- `Search.Rounds` — the driver loop, one expand-and-select round per
  recursive call, counting the rounds it completes.
- `Search.AStarSearch` — the driver: run the rounds from the start node,
  then reconstruct the path (`Search.PathToGoal`).

`SearchInvariants` holds what the operations preserve. Every queued node
is visited. Every visited node other than the start has a parent. Every
parent link runs along a graph edge from a visited node.
From these follows what the reconstructed path satisfies: it walks graph
edges, repeats no node, and has fewer links than the node table has nodes.

The C++ RoutePlanner is undefined in two places: selecting from an empty
open list, and following a parent chain that never returns to the start.
The driver makes both explicit outcomes, `NoPath` and `BrokenChain`. The
second can happen in this model, because expansion does not skip visited
neighbours. Two nodes can then become each other's parent, forming a cycle
that avoids the start. `FindChain` walks at most as many links as there are
nodes. `FindChainComplete` proves that this bound loses no chain. Because
every visited node other than the start has a parent, the walk from the
end node never meets a missing parent (`VisitedWalksFor`). So `BrokenChain`
is returned exactly when the reconstruction loop of the C++ RoutePlanner
would cycle forever, never when it would read a null parent.

## Model

| member | source | states |
|---|---|---|
| RoutePlanner.Init | src/route_planner.cpp:4-14 | the search runs between the two given node ids; every node starts unvisited with g = h = 0 and no parent, the open list is empty, and the planner state is well formed |
| RoutePlanner.AddNeighbors | src/route_planner.cpp:24-36 | the current node becomes visited and keeps its g, h and parent; every neighbour n gets parent = current, visited, h = dist(n, end) and g = dist(n, current) + the current node's g; every other node keeps all its fields; the open list becomes the old list followed by the neighbour list, in order, with no visited check |
| RoutePlanner.OverwriteNeighbors | src/route_planner.cpp:29-35 | the loop over the neighbour list writes the same search state into every listed node and leaves every unlisted node as it was, whatever order or repeats the list has |
| RoutePlanner.MinIndex | src/route_planner.cpp:41-44 | the chosen position is in the open list and its g + h is no larger than that of any entry |
| RoutePlanner.NextNode | src/route_planner.cpp:39-47 | the returned node was in the open list, its g + h is at most that of every entry before the call, the new open list is the old multiset minus one occurrence of it (one shorter), and no node's search state changes |
| RoutePlanner.ConstructFinalPath | src/route_planner.cpp:50-68 | when the parent chain from the node reaches the start, the path begins at the start and ends at the node, each element after the first has the previous one as parent, the start occurs only at the head, and the distance is scale times the sum of dist(path[i+1], path[i]); for the start node itself the path is [start] with distance 0 |
| RoutePlanner.FindChain | src/route_planner.cpp:60-65 | a bounded walk of the same parent chain: Some(k) means the start is first met after exactly k links, None means no chain of at most the bound reaches it |
| Search.Rounds | src/route_planner.cpp:76-82 | while the current node is not the end node: expand it, select the next node, repeat; the run stops at the end node (AtGoal exactly when the current node is the end node), when an expansion leaves the open list empty (the point where the C++ loop would select from an empty list), or after the given number of rounds (BudgetSpent exactly when all rounds were used and the end node was not reached); the rounds completed never exceed the budget; started from the start node or a visited node in a state meeting the search invariant, it stops in such a state |
| Search.RoundKeepsInvariant | src/route_planner.cpp:77-82 | one loop round keeps the search invariant: expanding the start node or a visited node keeps it, marks that node visited, and the node then selected is visited |
| Search.PathToGoal | src/route_planner.cpp:83-84 | once the loop stops at the end node: Found with a path from start to end along parent links and graph edges, repeating no node, with distance = scale × path cost, or BrokenChain only when no parent chain of any length leads back to the start while every link of the walk exists; start == end gives Found([start], 0) |
| Search.AStarSearch | src/route_planner.cpp:73-85 | the returned planner state and current node are those at which the loop of rounds from a fresh planner at the start node stops; OutOfFuel exactly when the budget of rounds was used up without reaching the end node; NoPath exactly when an expansion left the open list empty; on Found the loop stopped at the end node and the path runs from start to end along parent links and graph edges, repeats no node, and has distance = scale × path cost; BrokenChain only at the end node when no parent chain leads back to the start; start == end gives Found([start], 0) |
| SearchInvariants.InitEstablishesInvariant | src/route_planner.cpp:4-14 | a fresh planner has an empty open list, no visited node and no parent link, so the invariant holds |
| SearchInvariants.AddNeighborsKeepsVisited | src/route_planner.cpp:28-33 | expansion never clears a visited mark |
| SearchInvariants.AddNeighborsPreservesInvariant | src/route_planner.cpp:25-36 | expanding the start node or a visited node keeps the invariant: every queued node is visited, every visited node other than the start has a parent, and every parent is a visited node of which the child is a neighbour |
| SearchInvariants.NextNodePreservesInvariant | src/route_planner.cpp:40-47 | selection keeps the same invariant |
| SearchInvariants.ParentLinkedFollowsEdges | src/route_planner.cpp:54-65 | under the invariant, a path built from parent links has a graph edge between every two consecutive nodes |
| SearchInvariants.VisitedWalksFor | src/route_planner.cpp:60-62 | under the invariant, the parent walk from a visited node, for any number of links, finds a parent at every node before it meets the start, so line 61 never reads a missing parent |
| SearchInvariants.NoRepeatAt | src/route_planner.cpp:60-64 | in a parent-linked path that meets the start only at its head, one node cannot stand at two positions |
| SearchInvariants.LinkedPathIsSimple | src/route_planner.cpp:54-65 | such a path repeats no node |
| SearchInvariants.Lineage | src/route_planner.cpp:59-65 | a parent chain of k links to the start yields a start-first, parent-linked path of k + 1 nodes |
| SearchInvariants.ChainFitsTable | src/route_planner.cpp:60-65 | a parent chain reaching the start has fewer links than the node table has nodes |
| SearchInvariants.FindChainComplete | src/route_planner.cpp:60-65 | when the walk bounded by the table size finds nothing, no parent chain of any length reaches the start, so the reconstruction loop could never end |
| SearchInvariants.AddNeighborsDuplicates | src/route_planner.cpp:24-34 | a neighbour already in the open list is queued again, so it then occurs at least twice, and its parent and g are replaced without comparing against its earlier g |

## Left out

- Converting the constructor's percentage coordinates and finding the
  closest nodes: the model takes the start and end node ids as given. The
  closest-node lookup belongs to the map model, which is not part of this
  model.
- Populating a node's neighbours: every node has a fixed neighbour list
  (`Graph.adj`). The graph is assumed to have no self-loops, so the current
  node is never its own neighbour. Any filtering that the neighbour lookup
  itself performs, such as skipping visited nodes, is not part of this model.
  As a consequence, on undirected graphs the model reaches `BrokenChain` even
  in small cases. On the line graph 0–1–2–3 with dist(a, b) = |a − b|,
  start 0 and end 3, nodes 1 and 2 become each other's parent, so the end
  node's chain never returns to 0. A neighbour lookup that skips visited
  nodes would give the path 0-1-2-3.
- RoutePlanner.Init: the fresh node table (unvisited, g = h = 0, no parent)
  assumes that the map model was freshly built. The C++ constructor
  (src/route_planner.cpp:4-14) never resets node search state. A second
  planner on the same map model would start from the state of the previous
  search, and the model cannot express that.
- Euclidean distance, `sqrt` and floating-point accumulation: distances
  are an abstract function into the naturals, and the metric scale is a
  natural number. Sums are exact, so the order in which the distance is
  accumulated does not matter. Non-negativity of the distance is carried
  by the type.
- The particular order that `std::sort` leaves the open list in, and its
  tie-breaking: the model removes one least-cost entry in place and promises
  only the multiset of what is left.
- Optimality of the returned path: expansion overwrites a cheaper parent and
  g with a worse one, so no optimality claim is made.
- Termination of the search loop: revisiting nodes can make it run forever,
  so the driver takes a budget of rounds and returns `OutOfFuel` exactly
  when the budget runs out before the end node is reached.
- Writing the path into the map model for rendering: the driver returns the
  path, as ids rather than node copies.
- RoutePlanner.CalculateHValue carries no contract of its own. Its value is
  stated by `AddNeighbors`, which stores it as a neighbour's h.
