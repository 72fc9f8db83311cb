/** The report of a completed trace: its cycles and the impact counts of its nodes, made
    from the adjacency of the reported edges. */
module TraceReport {
  import opened JsonText
  import opened TraceModel
  import TraceRun
  import Graphs
  import Tarjan
  import ImpactCounts

  type Adjacency = Graphs.Graph<NodeId>

  datatype Report = Report(cycles: seq<seq<NodeId>>, upstream: map<NodeId, nat>, downstream: map<NodeId, nat>)

  /** A path of at least one reported edge. */
  ghost predicate Leads(edges: set<Edge>, x: NodeId, y: NodeId) {
    exists path :: LeadsAlong(edges, path, x, y)
  }

  ghost predicate LeadsAlong(edges: set<Edge>, path: seq<NodeId>, x: NodeId, y: NodeId) {
    |path| > 1 && TraceRun.IsPath(edges, path) && path[0] == x && path[|path| - 1] == y
  }

  /** The map has exactly the reported edges. */
  ghost predicate Adjacent(g: Adjacency, edges: set<Edge>) {
    forall x, y :: y in Graphs.Succ(g, x) <==> TraceRun.Linked(edges, x, y)
  }

  lemma SamePaths(g: Adjacency, edges: set<Edge>, path: seq<NodeId>)
    requires Adjacent(g, edges)
    ensures Graphs.IsPath(g, path) <==> TraceRun.IsPath(edges, path)
  {
    hide Graphs.Succ, TraceRun.Linked;
    assert forall i :: 0 < i < |path| ==>
      (path[i] in Graphs.Succ(g, path[i - 1]) <==> TraceRun.Linked(edges, path[i - 1], path[i]));
  }

  lemma LeadsIsReach(g: Adjacency, edges: set<Edge>, x: NodeId, y: NodeId)
    requires Adjacent(g, edges)
    ensures Leads(edges, x, y) <==> Graphs.ReachPlus(g, x, y)
  {
    hide Adjacent, Graphs.Succ;
    if Leads(edges, x, y) {
      var path :| LeadsAlong(edges, path, x, y);
      SamePaths(g, edges, path);
      hide LeadsAlong, TraceRun.IsPath;
      TailReaches(g, path);
    }
    if Graphs.ReachPlus(g, x, y) {
      var z :| z in Graphs.Succ(g, x) && Graphs.Reach(g, z, y);
      var path :| Graphs.Connects(g, path, z, y);
      PathFrom(g, x, path);
      SamePaths(g, edges, [x] + path);
      assert LeadsAlong(edges, [x] + path, x, y);
    }
  }

  lemma TailReaches(g: Adjacency, path: seq<NodeId>)
    requires Graphs.IsPath(g, path) && |path| > 1
    ensures Graphs.ReachPlus(g, path[0], path[|path| - 1])
  {
    var tail := path[1..];
    forall i | 0 < i < |tail| ensures tail[i] in Graphs.Succ(g, tail[i - 1]) {
      assert path[i + 1] in Graphs.Succ(g, path[i]);
    }
    assert Graphs.Connects(g, tail, path[1], path[|path| - 1]);
    assert path[1] in Graphs.Succ(g, path[0]);
  }

  lemma PathFrom(g: Adjacency, x: NodeId, path: seq<NodeId>)
    requires Graphs.IsPath(g, path) && path[0] in Graphs.Succ(g, x)
    ensures Graphs.IsPath(g, [x] + path)
  {
    var longer := [x] + path;
    forall i | 0 < i < |longer| ensures longer[i] in Graphs.Succ(g, longer[i - 1]) {
      if i > 1 {
        assert longer[i] == path[i - 1] && longer[i - 1] == path[i - 2];
      }
    }
  }

  // ------------------------------------------------------------------- the numbers

  ghost function Below(nodes: set<NodeId>, edges: set<Edge>, x: NodeId): set<NodeId> {
    set y | y in nodes && y != x && Leads(edges, x, y)
  }

  ghost function Above(nodes: set<NodeId>, edges: set<Edge>, x: NodeId): set<NodeId> {
    set y | y in nodes && y != x && Leads(edges, y, x)
  }

  function Sum(nodes: seq<NodeId>, counts: map<NodeId, nat>): nat
    requires forall x :: x in nodes ==> x in counts
  {
    if nodes == [] then 0 else counts[nodes[0]] + Sum(nodes[1..], counts)
  }

  /** What the report says of a graph. */
  ghost predicate Reports(r: Report, nodes: set<NodeId>, edges: set<Edge>, nodeIds: seq<NodeId>) {
    && (forall x :: Tarjan.Listed(r.cycles, x) <==> x in nodes && Leads(edges, x, x))
    && (forall x, y :: Tarjan.Together(r.cycles, x, y) <==> Leads(edges, x, y) && Leads(edges, y, x))
    && r.downstream.Keys == nodes && r.upstream.Keys == nodes
    && (forall x :: x in nodes ==>
          r.downstream[x] == |Below(nodes, edges, x)| && r.upstream[x] == |Above(nodes, edges, x)|)
    && (forall c, x, y :: c in r.cycles && x in c && y in c ==>
          x in nodes && y in nodes && r.downstream[x] == r.downstream[y] && r.upstream[x] == r.upstream[y])
    && (forall x :: x in nodeIds ==> x in nodes)
    && Sum(nodeIds, r.downstream) == Sum(nodeIds, r.upstream)
  }

  ghost predicate EndsAreNodes(nodes: set<NodeId>, edges: set<Edge>) {
    forall e :: e in edges ==> e.from in nodes && e.to in nodes
  }

  lemma {:induction false} PathStays(nodes: set<NodeId>, edges: set<Edge>, path: seq<NodeId>)
    requires EndsAreNodes(nodes, edges) && TraceRun.IsPath(edges, path) && |path| > 1
    ensures path[0] in nodes && path[|path| - 1] in nodes
  {
    assert TraceRun.Linked(edges, path[0], path[1]) && TraceRun.Linked(edges, path[|path| - 2], path[|path| - 1]);
  }

  lemma DownstreamIsBelow(g: Adjacency, nodes: set<NodeId>, edges: set<Edge>, x: NodeId)
    requires Adjacent(g, edges) && EndsAreNodes(nodes, edges)
    ensures ImpactCounts.Downstream(g, x) == Below(nodes, edges, x)
  {
    hide Graphs.ReachPlus, ImpactCounts.Targets, Adjacent;
    forall y ensures y in ImpactCounts.Downstream(g, x) <==> y in Below(nodes, edges, x) {
      LeadsIsReach(g, edges, x, y);
      if Leads(edges, x, y) {
        var path :| LeadsAlong(edges, path, x, y);
        PathStays(nodes, edges, path);
        ImpactCounts.ReachPlusTarget(g, x, y);
      }
    }
  }

  lemma UpstreamIsAbove(g: Adjacency, h: Adjacency, nodes: set<NodeId>, edges: set<Edge>, x: NodeId)
    requires Adjacent(g, edges) && EndsAreNodes(nodes, edges) && ImpactCounts.Transposed(g, h)
    ensures ImpactCounts.Downstream(h, x) == Above(nodes, edges, x)
  {
    hide Adjacent, ImpactCounts.Transposed, Leads;
    forall y ensures y in ImpactCounts.Downstream(h, x) <==> y in Above(nodes, edges, x) {
      ImpactCounts.ImpactIsDual(g, h, y, x);
      DownstreamIsBelow(g, nodes, edges, y);
      if Leads(edges, y, x) {
        LeadingIsNode(nodes, edges, y, x);
      }
      if y in ImpactCounts.Downstream(h, x) {
        assert x in Below(nodes, edges, y);
        LeadingIsNode(nodes, edges, y, x);
      }
    }
  }

  lemma LeadingIsNode(nodes: set<NodeId>, edges: set<Edge>, x: NodeId, y: NodeId)
    requires EndsAreNodes(nodes, edges) && Leads(edges, x, y)
    ensures x in nodes && y in nodes
  {
    var path :| LeadsAlong(edges, path, x, y);
    PathStays(nodes, edges, path);
  }

  lemma {:induction false} SumIsTotal(g: Adjacency, nodes: seq<NodeId>, counts: map<NodeId, nat>)
    requires forall x :: x in nodes ==> x in counts && counts[x] == |ImpactCounts.Downstream(g, x)|
    ensures Sum(nodes, counts) == ImpactCounts.Total(g, nodes)
  {
    hide ImpactCounts.Downstream;
    if nodes != [] {
      SumIsTotal(g, nodes[1..], counts);
    }
  }

  // -------------------------------------------------------------------- the report

  function Pairs(edges: seq<Edge>): (r: seq<(NodeId, NodeId)>)
    ensures |r| == |edges| && forall i :: 0 <= i < |edges| ==> r[i] == (edges[i].from, edges[i].to)
  {
    seq(|edges|, i requires 0 <= i < |edges| => (edges[i].from, edges[i].to))
  }

  lemma PairsAreEdges(edges: seq<Edge>, g: Adjacency, all: set<Edge>)
    requires (forall e :: e in edges <==> e in all) && forall x, y :: y in Graphs.Succ(g, x) <==> (x, y) in Pairs(edges)
    ensures Adjacent(g, all)
  {
    hide Graphs.Succ;
    forall x, y ensures (x, y) in Pairs(edges) <==> TraceRun.Linked(all, x, y) {
      if (x, y) in Pairs(edges) {
        var i :| 0 <= i < |edges| && Pairs(edges)[i] == (x, y);
        assert edges[i] in all;
      }
      if TraceRun.Linked(all, x, y) {
        var e :| e in all && e.from == x && e.to == y;
        var i :| 0 <= i < |edges| && edges[i] == e;
        assert Pairs(edges)[i] == (x, y);
      }
    }
  }

  lemma CyclesClose(g: Adjacency, nodes: set<NodeId>, edges: set<Edge>, nodeIds: seq<NodeId>, comps: seq<seq<NodeId>>,
                    x: NodeId)
    requires Adjacent(g, edges) && EndsAreNodes(nodes, edges) && Tarjan.IsPartition(g, nodeIds, comps)
    requires forall n :: n in nodeIds <==> n in nodes
    ensures Tarjan.Listed(Tarjan.Cycles(g, comps), x) <==> x in nodes && Leads(edges, x, x)
  {
    Tarjan.ReportedCyclesAreCycles(g, nodeIds, comps, x);
    LeadsIsReach(g, edges, x, x);
    Graphs.ReachRefl(g, x);
    hide Graphs.Reach, Graphs.ReachPlus, Tarjan.IsPartition, Adjacent, Leads;
    if Leads(edges, x, x) {
      LeadingIsNode(nodes, edges, x, x);
      assert Graphs.ReachedFrom(g, nodeIds, x);
    }
  }

  lemma CyclesShare(g: Adjacency, nodes: set<NodeId>, edges: set<Edge>, nodeIds: seq<NodeId>, comps: seq<seq<NodeId>>,
                    x: NodeId, y: NodeId)
    requires Adjacent(g, edges) && EndsAreNodes(nodes, edges) && Tarjan.IsPartition(g, nodeIds, comps)
    requires forall n :: n in nodeIds <==> n in nodes
    ensures Tarjan.Together(Tarjan.Cycles(g, comps), x, y) <==> Leads(edges, x, y) && Leads(edges, y, x)
  {
    Tarjan.SharedCyclesAreMutual(g, nodeIds, comps, x, y);
    LeadsIsReach(g, edges, x, y);
    LeadsIsReach(g, edges, y, x);
    Graphs.ReachRefl(g, x);
    hide Graphs.Reach, Graphs.ReachPlus, Tarjan.IsPartition, Adjacent, Leads;
    if Leads(edges, x, y) {
      LeadingIsNode(nodes, edges, x, y);
      assert Graphs.ReachedFrom(g, nodeIds, x);
    }
  }

  lemma CycleCounts(g: Adjacency, h: Adjacency, nodeIds: seq<NodeId>, comps: seq<seq<NodeId>>, c: seq<NodeId>,
                    x: NodeId, y: NodeId)
    requires ImpactCounts.Transposed(g, h) && Tarjan.IsPartition(g, nodeIds, comps)
    requires c in Tarjan.Cycles(g, comps) && x in c && y in c
    ensures |ImpactCounts.Downstream(g, x)| == |ImpactCounts.Downstream(g, y)|
    ensures |ImpactCounts.Downstream(h, x)| == |ImpactCounts.Downstream(h, y)|
    ensures Tarjan.Listed(Tarjan.Cycles(g, comps), x) && Tarjan.Listed(Tarjan.Cycles(g, comps), y)
  {
    hide ImpactCounts.Downstream, Tarjan.IsPartition, ImpactCounts.Transposed;
    var a := Tarjan.IndexOf(comps, c);
    ImpactCounts.CycleMembersShareImpact(g, h, nodeIds, comps, a, x, y);
    var k := Tarjan.IndexOf(Tarjan.Cycles(g, comps), c);
  }

  ghost predicate Counted(g: Adjacency, nodes: seq<NodeId>, counts: map<NodeId, nat>) {
    && (forall x :: x in nodes <==> x in counts)
    && forall x :: x in counts ==> counts[x] == |ImpactCounts.Downstream(g, x)|
  }

  lemma CountedMore(g: Adjacency, nodes: seq<NodeId>, k: nat, counts: map<NodeId, nat>, n: nat)
    requires k < |nodes| && Counted(g, nodes[..k], counts) && n == |ImpactCounts.Downstream(g, nodes[k])|
    ensures Counted(g, nodes[..k + 1], counts[nodes[k] := n])
  {
    hide ImpactCounts.Downstream;
    assert nodes[..k + 1] == nodes[..k] + [nodes[k]];
  }

  lemma HoldsAllEnds(g: Adjacency, nodes: set<NodeId>, edges: set<Edge>, nodeIds: seq<NodeId>)
    requires Adjacent(g, edges) && EndsAreNodes(nodes, edges) && forall n :: n in nodeIds <==> n in nodes
    ensures ImpactCounts.HoldsEnds(g, nodeIds)
  {
    hide Graphs.Succ;
  }

  lemma ReportFits(nodes: set<NodeId>, edges: set<Edge>, nodeIds: seq<NodeId>, g: Adjacency, h: Adjacency,
                   comps: seq<seq<NodeId>>, r: Report)
    requires Adjacent(g, edges) && EndsAreNodes(nodes, edges) && ImpactCounts.Transposed(g, h)
    requires (forall n :: n in nodeIds <==> n in nodes) && ImpactCounts.Distinct(nodeIds)
    requires Tarjan.IsPartition(g, nodeIds, comps)
    requires r.cycles == Tarjan.Cycles(g, comps) && Counted(g, nodeIds, r.downstream) && Counted(h, nodeIds, r.upstream)
    ensures Reports(r, nodes, edges, nodeIds)
  {
    hide Adjacent, ImpactCounts.Transposed, Tarjan.IsPartition, ImpactCounts.Downstream, Below, Above, Leads;
    hide Tarjan.Cycles, Tarjan.Listed, Tarjan.Together;
    hide EndsAreNodes, ImpactCounts.Distinct;
    forall x ensures Tarjan.Listed(r.cycles, x) <==> x in nodes && Leads(edges, x, x) {
      CyclesClose(g, nodes, edges, nodeIds, comps, x);
    }
    forall x, y ensures Tarjan.Together(r.cycles, x, y) <==> Leads(edges, x, y) && Leads(edges, y, x) {
      CyclesShare(g, nodes, edges, nodeIds, comps, x, y);
    }
    forall x | x in nodes ensures r.downstream[x] == |Below(nodes, edges, x)|
      && r.upstream[x] == |Above(nodes, edges, x)| {
      DownstreamIsBelow(g, nodes, edges, x);
      UpstreamIsAbove(g, h, nodes, edges, x);
    }
    forall c, x, y | c in r.cycles && x in c && y in c
      ensures x in nodes && y in nodes && r.downstream[x] == r.downstream[y] && r.upstream[x] == r.upstream[y]
    {
      CycleCounts(g, h, nodeIds, comps, c, x, y);
    }
    HoldsAllEnds(g, nodes, edges, nodeIds);
    ImpactCounts.TotalsAgree(g, h, nodeIds);
    SumIsTotal(g, nodeIds, r.downstream);
    SumIsTotal(h, nodeIds, r.upstream);
  }

  lemma TraceEnds(p: Portal, roots: seq<Text>, lim: Limits, sha: Text -> Text)
    requires Trace(p, roots, lim, sha).Ok?
    ensures var g := Trace(p, roots, lim, sha).value.found.graph;
            EndsAreNodes(g.nodes.Keys, g.edges)
  {
    TraceRun.EdgesConnect(p, roots, lim, sha);
    hide Trace, TraceRun.RetainedRoots;
  }

  lemma NothingCounted(g: Adjacency)
    ensures Counted(g, [], map[])
  {
  }

  /** The adjacency, the cycles and the counts of a completed trace. Its ceilings make no
      difference: the report speaks of the reported edges. */
  method BuildReport(ghost p: Portal, ghost roots: seq<Text>, ghost lim: Limits, ghost sha: Text -> Text,
                     nodeIds: seq<NodeId>, edges: seq<Edge>) returns (r: Report)
    requires Trace(p, roots, lim, sha).Ok?
    requires var g := Trace(p, roots, lim, sha).value.found.graph;
             && (forall e :: e in edges <==> e in g.edges)
             && (forall n :: n in nodeIds <==> n in g.nodes) && ImpactCounts.Distinct(nodeIds)
    ensures var g := Trace(p, roots, lim, sha).value.found.graph;
            Reports(r, g.nodes.Keys, g.edges, nodeIds)
  {
    hide *;
    ghost var g := Trace(p, roots, lim, sha).value.found.graph;
    TraceEnds(p, roots, lim, sha);
    assert forall n :: n in nodeIds <==> n in g.nodes.Keys;
    var successors, predecessors := ImpactCounts.BuildAdjacency(Pairs(edges));
    PairsAreEdges(edges, successors, g.edges);
    var components := Tarjan.StronglyConnectedComponents(nodeIds, successors);
    var upstream: map<NodeId, nat>, downstream: map<NodeId, nat> := map[], map[];
    NothingCounted(successors);
    NothingCounted(predecessors);
    assert nodeIds[..0] == [];
    for k := 0 to |nodeIds|
      invariant Counted(successors, nodeIds[..k], downstream) && Counted(predecessors, nodeIds[..k], upstream)
    {
      var down := ImpactCounts.ReachableCount(nodeIds[k], successors);
      var up := ImpactCounts.ReachableCount(nodeIds[k], predecessors);
      CountedMore(successors, nodeIds, k, downstream, down);
      CountedMore(predecessors, nodeIds, k, upstream, up);
      downstream, upstream := downstream[nodeIds[k] := down], upstream[nodeIds[k] := up];
    }
    assert nodeIds[..|nodeIds|] == nodeIds;
    r := Report(Tarjan.Cycles(successors, components), upstream, downstream);
    ReportFits(g.nodes.Keys, g.edges, nodeIds, successors, predecessors, components, r);
  }
}
