/**
  What the planner's operations keep true of the node table and the open
  list during a search, and what follows for the reconstructed path: it
  walks graph edges, never repeats a node, and is never longer than the
  node table.
 */
module SearchInvariants {
  import opened RouteModel
  import opened RoutePlanner

  /** The parent `n` records is a visited node of which `n` is a neighbour. */
  ghost predicate ParentIsEdge(gr: Graph, nodes: map<Id, NodeState>, n: Id)
    requires n in nodes && nodes[n].parent.Some?
  {
    var q := nodes[n].parent.value;
    q in nodes && nodes[q].visited && IsEdge(gr, q, n)
  }

  /** Every open-list entry is visited (nodes are marked at insertion),
      every visited node other than the start has a parent, and every parent
      link runs along an edge from a visited node. */
  ghost predicate SearchInvariant(gr: Graph, p: Planner)
  {
    && (forall i :: 0 <= i < |p.open| ==> p.open[i] in p.nodes && p.nodes[p.open[i]].visited)
    && (forall n :: n in p.nodes && p.nodes[n].visited && n != p.start ==> p.nodes[n].parent.Some?)
    && (forall n :: n in p.nodes && p.nodes[n].parent.Some? ==> ParentIsEdge(gr, p.nodes, n))
  }

  /** A freshly constructed planner satisfies the invariant. */
  lemma InitEstablishesInvariant(gr: Graph, start: Id, goal: Id)
    requires ValidGraph(gr)
    requires start in gr.adj && goal in gr.adj
    ensures SearchInvariant(gr, Init(gr, start, goal))
  {
  }

  /** Expansion never clears a visited mark. */
  lemma AddNeighborsKeepsVisited(gr: Graph, p: Planner, c: Id)
    requires Valid(gr, p)
    requires c in p.nodes
    ensures forall n :: n in p.nodes && p.nodes[n].visited ==> AddNeighbors(gr, p, c).nodes[n].visited
  {
  }

  /** Expanding the start node or a visited node preserves the search
      invariant. */
  lemma AddNeighborsPreservesInvariant(gr: Graph, p: Planner, c: Id)
    requires Valid(gr, p) && SearchInvariant(gr, p)
    requires c in p.nodes
    requires c == p.start || p.nodes[c].visited
    ensures SearchInvariant(gr, AddNeighbors(gr, p, c))
  {
    var q := AddNeighbors(gr, p, c);
    forall i | 0 <= i < |q.open|
      ensures q.open[i] in q.nodes && q.nodes[q.open[i]].visited
    {
      if i < |p.open| {
        assert q.open[i] == p.open[i];
      } else {
        assert q.open[i] == gr.adj[c][i - |p.open|];
      }
    }
    forall n | n in q.nodes && q.nodes[n].visited && n != q.start
      ensures q.nodes[n].parent.Some?
    {
      if n != c && n !in gr.adj[c] {
        assert q.nodes[n] == p.nodes[n];
      }
    }
    forall n | n in q.nodes && q.nodes[n].parent.Some?
      ensures ParentIsEdge(gr, q.nodes, n)
    {
      if n !in gr.adj[c] {
        assert q.nodes[n].parent == p.nodes[n].parent;
        assert ParentIsEdge(gr, p.nodes, n);
      }
    }
  }

  /** Selection preserves the search invariant. */
  lemma NextNodePreservesInvariant(gr: Graph, p: Planner)
    requires Valid(gr, p) && SearchInvariant(gr, p)
    requires |p.open| > 0
    ensures SearchInvariant(gr, NextNode(gr, p).1)
  {
  }

  /** Under the invariant, a parent-linked path runs along graph edges. */
  lemma ParentLinkedFollowsEdges(gr: Graph, p: Planner, path: seq<Id>)
    requires SearchInvariant(gr, p)
    requires ParentLinked(p.nodes, path)
    ensures FollowsEdges(gr, path)
  {
  }

  /** Under the invariant, the parent walk from a visited node never reads a
      missing parent before it meets the start, however many links it takes. */
  lemma {:induction false} VisitedWalksFor(gr: Graph, p: Planner, c: Id, k: nat)
    requires SearchInvariant(gr, p)
    requires c in p.nodes && p.nodes[c].visited
    ensures WalksFor(p.nodes, c, p.start, k)
    decreases k
  {
    if k > 0 && c != p.start {
      assert ParentIsEdge(gr, p.nodes, c);
      VisitedWalksFor(gr, p, p.nodes[c].parent.value, k - 1);
    }
  }

  /** In a parent-linked path that starts at `start` and does not return to
      it, two positions holding the same node are the same position. */
  lemma {:induction false} NoRepeatAt(nodes: map<Id, NodeState>, path: seq<Id>, start: Id, i: nat, j: nat)
    requires 0 < |path| && path[0] == start
    requires forall m :: 0 < m < |path| ==> path[m] != start
    requires ParentLinked(nodes, path)
    requires i <= j < |path|
    requires path[i] == path[j]
    ensures i == j
    decreases i
  {
    if i > 0 {
      assert nodes[path[i]].parent == Some(path[i - 1]);
      NoRepeatAt(nodes, path, start, i - 1, j - 1);
    }
  }

  /** A parent-linked path that meets the start node only at its head
      repeats no node. */
  lemma LinkedPathIsSimple(nodes: map<Id, NodeState>, path: seq<Id>, start: Id)
    requires 0 < |path| && path[0] == start
    requires forall m :: 0 < m < |path| ==> path[m] != start
    requires ParentLinked(nodes, path)
    ensures Distinct(path)
  {
    forall i, j | 0 <= i < j < |path|
      ensures path[i] != path[j]
    {
      if path[i] == path[j] {
        NoRepeatAt(nodes, path, start, i, j);
      }
    }
  }

  /** The start-first path of parents from `start` to `c`, as a proof object. */
  ghost function Lineage(nodes: map<Id, NodeState>, c: Id, start: Id, k: nat): (path: seq<Id>)
    requires ReachesIn(nodes, c, start, k)
    ensures |path| == k + 1
    ensures path[0] == start && path[|path| - 1] == c
    ensures forall m :: 0 < m < |path| ==> path[m] != start
    ensures ParentLinked(nodes, path)
    decreases k
  {
    if k == 0 then [c]
    else Lineage(nodes, nodes[c].parent.value, start, k - 1) + [c]
  }

  /** A sequence without repeats drawn from a set is no longer than the set. */
  lemma {:induction false} DistinctFitsSet(s: seq<Id>, keys: set<Id>)
    requires Distinct(s)
    requires forall i :: 0 <= i < |s| ==> s[i] in keys
    ensures |s| <= |keys|
    decreases |s|
  {
    if |s| > 0 {
      var rest := keys - {s[0]};
      assert forall i :: 0 <= i < |s| - 1 ==> s[1..][i] == s[i + 1];
      DistinctFitsSet(s[1..], rest);
    }
  }

  /** When the start is a node, a parent chain that reaches it has fewer
      links than the node table has entries. */
  lemma ChainFitsTable(nodes: map<Id, NodeState>, c: Id, start: Id, k: nat)
    requires start in nodes
    requires ReachesIn(nodes, c, start, k)
    ensures k < |nodes|
  {
    var path := Lineage(nodes, c, start, k);
    LinkedPathIsSimple(nodes, path, start);
    DistinctFitsSet(path, nodes.Keys);
    assert |nodes.Keys| == |nodes|;
  }

  /** A walk bounded by the size of the node table loses nothing: when it
      finds no chain, no chain of any length exists. */
  lemma FindChainComplete(nodes: map<Id, NodeState>, c: Id, start: Id)
    requires start in nodes
    requires FindChain(nodes, c, start, |nodes|).None?
    ensures forall k: nat :: !ReachesIn(nodes, c, start, k)
  {
    forall k: nat
      ensures !ReachesIn(nodes, c, start, k)
    {
      if ReachesIn(nodes, c, start, k) {
        ChainFitsTable(nodes, c, start, k);
      }
    }
  }

  /** Expansion does not test whether a neighbour is already queued or
      already has a cheaper g: a neighbour already in the open list is
      queued a second time and its g is replaced whatever it was. */
  lemma AddNeighborsDuplicates(gr: Graph, p: Planner, c: Id, n: Id)
    requires Valid(gr, p)
    requires c in p.nodes
    requires n in p.open && n in gr.adj[c]
    ensures multiset(AddNeighbors(gr, p, c).open)[n] >= 2
    ensures AddNeighbors(gr, p, c).nodes[n].g == gr.dist(n, c) + p.nodes[c].g
    ensures AddNeighbors(gr, p, c).nodes[n].parent == Some(c)
  {
  }
}
