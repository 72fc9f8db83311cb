/** What every step of a trace keeps true of its graph, and what a finished trace
    therefore shows: depths are shortest distances and every ceiling holds. */
module TraceShape {
  import opened JsonText
  import opened Sorting
  import opened TraceModel

  type Nodes = map<NodeId, Node>

  // ------------------------------------------------------------- what steps keep

  /** Edges join present nodes, start at items of a visited level, and never lead
      more than one level down. */
  ghost predicate EdgesFit(nodes: Nodes, edges: set<Edge>, d: nat) {
    forall e :: e in edges ==>
      && e.from in nodes && e.to in nodes && e.from.Item?
      && nodes[e.from].depth <= d && nodes[e.to].depth <= nodes[e.from].depth + 1
  }

  ghost predicate HasParent(n: NodeId, nodes: Nodes, edges: set<Edge>) {
    exists e :: e in edges && e.to == n && e.from in nodes && n in nodes && nodes[e.from].depth + 1 == nodes[n].depth
  }

  /** Roots, and only they, stand at depth zero. */
  ghost predicate DepthsFit(nodes: Nodes, d: nat, maxDepth: nat) {
    forall n :: n in nodes ==>
      nodes[n].depth <= d + 1 && nodes[n].depth <= maxDepth && (nodes[n].isRoot <==> nodes[n].depth == 0)
  }

  /** Every other node hangs below a node one level up. */
  ghost predicate Parented(nodes: Nodes, edges: set<Edge>) {
    forall n {:trigger HasParent(n, nodes, edges)} :: n in nodes && !nodes[n].isRoot ==> HasParent(n, nodes, edges)
  }

  /** The items waiting for the next level are exactly those one level down. */
  ghost predicate NextFits(next: seq<Text>, nodes: Nodes, d: nat) {
    && NoRepeats(next)
    && forall id :: id in next <==> Item(id) in nodes && nodes[Item(id)].depth == d + 1
  }

  ghost predicate Within(g: Graph, lim: Limits) {
    |g.nodes| <= lim.maxNodes && |g.edges| <= lim.maxEdges
  }

  ghost predicate Shape(f: Found, d: nat, lim: Limits) {
    && EdgesFit(f.graph.nodes, f.graph.edges, d)
    && DepthsFit(f.graph.nodes, d, lim.maxDepth) && Parented(f.graph.nodes, f.graph.edges)
    && NextFits(f.next, f.graph.nodes, d)
    && Within(f.graph, lim)
  }

  /** Nodes stay, at their depth and with their root mark. */
  ghost predicate Kept(nodes: Nodes, later: Nodes) {
    forall n :: n in nodes ==> n in later && later[n].depth == nodes[n].depth && later[n].isRoot == nodes[n].isRoot
  }

  /** A step at depth d only adds, and adds nodes only one level down. */
  ghost predicate Grew(f: Found, f': Found, d: nat) {
    && Kept(f.graph.nodes, f'.graph.nodes)
    && f.graph.edges <= f'.graph.edges && f.graph.reasons <= f'.graph.reasons
    && forall n :: n in f'.graph.nodes && n !in f.graph.nodes ==> f'.graph.nodes[n].depth == d + 1
  }

  // ----------------------------------------------------------- one reference more

  /** Following a reference changes nothing, links an existing node, or adds a node
      together with the edge that reaches it. */
  lemma AddRefCases(g: Graph, lim: Limits, from: NodeId, depth: nat, r: Ref, sha: Text -> Text)
    requires forall e :: e in g.edges ==> e.to in g.nodes
    ensures var (h, discovered) := AddRef(g, lim, from, depth, r, sha);
            var target, e := TargetOf(r, sha), EdgeOf(from, r, sha);
            && g.reasons <= h.reasons
            && (
            || (h.nodes == g.nodes && h.edges == g.edges && !discovered)
            || (target in g.nodes && h.nodes == g.nodes && h.edges == g.edges + {e} && |h.edges| <= lim.maxEdges
                && !discovered)
            || (target !in g.nodes && h.nodes == g.nodes[target := NewTarget(r, depth + 1)] && h.edges == g.edges + {e}
                && |h.edges| <= lim.maxEdges && |h.nodes| <= lim.maxNodes && discovered == r.ItemRef?))
  {
    var target := TargetOf(r, sha);
    if target !in g.nodes {
      assert EdgeOf(from, r, sha) !in g.edges;
      OneNodeMore(g.nodes, target, NewTarget(r, depth + 1));
    }
    OneEdgeMore(g.edges, EdgeOf(from, r, sha));
    hide NewTarget, TargetOf, EdgeOf;
  }

  lemma OneNodeMore(nodes: Nodes, t: NodeId, node: Node)
    requires t !in nodes
    ensures |nodes[t := node]| == |nodes| + 1
  {
    assert nodes[t := node].Keys == nodes.Keys + {t};
  }

  lemma OneEdgeMore(edges: set<Edge>, e: Edge)
    ensures |edges + {e}| == |edges| + if e in edges then 0 else 1
    ensures e in edges ==> edges + {e} == edges
  {
  }

  lemma ParentStays(n: NodeId, nodes: Nodes, edges: set<Edge>, nodes': Nodes, edges': set<Edge>)
    requires HasParent(n, nodes, edges) && Kept(nodes, nodes') && edges <= edges'
    ensures HasParent(n, nodes', edges')
  {
    var e :| e in edges && e.to == n && e.from in nodes && n in nodes && nodes[e.from].depth + 1 == nodes[n].depth;
    assert e in edges';
  }

  lemma ParentsStay(nodes: Nodes, edges: set<Edge>, nodes': Nodes, edges': set<Edge>)
    requires Parented(nodes, edges) && Kept(nodes, nodes') && edges <= edges'
    ensures forall n {:trigger HasParent(n, nodes', edges')} ::
              n in nodes && !nodes[n].isRoot ==> HasParent(n, nodes', edges')
  {
    hide HasParent;
    forall n | n in nodes && !nodes[n].isRoot ensures HasParent(n, nodes', edges') {
      assert HasParent(n, nodes, edges);
      ParentStays(n, nodes, edges, nodes', edges');
    }
  }

  /** One node more, one level down, with the edge that reaches it. */
  lemma GrowKeepsParents(nodes: Nodes, edges: set<Edge>, t: NodeId, node: Node, e: Edge)
    requires Parented(nodes, edges) && t !in nodes
    requires e.to == t && e.from in nodes && node.depth == nodes[e.from].depth + 1
    ensures Parented(nodes[t := node], edges + {e})
  {
    assert HasParent(t, nodes[t := node], edges + {e}) by { assert e in edges + {e}; }
    ParentsStay(nodes, edges, nodes[t := node], edges + {e});
  }

  lemma LinkKeepsEdges(nodes: Nodes, edges: set<Edge>, e: Edge, d: nat)
    requires EdgesFit(nodes, edges, d)
    requires e.from.Item? && e.from in nodes && e.to in nodes && nodes[e.from].depth == d && nodes[e.to].depth <= d + 1
    ensures EdgesFit(nodes, edges + {e}, d)
  {
  }

  lemma GrowKeepsEdges(nodes: Nodes, edges: set<Edge>, t: NodeId, node: Node, d: nat)
    requires EdgesFit(nodes, edges, d) && t !in nodes
    ensures EdgesFit(nodes[t := node], edges, d)
  {
  }

  lemma GrowKeepsNext(next: seq<Text>, nodes: Nodes, r: Ref, sha: Text -> Text, d: nat)
    requires NextFits(next, nodes, d) && TargetOf(r, sha) !in nodes
    ensures NextFits(if r.ItemRef? then next + [r.id] else next, nodes[TargetOf(r, sha) := NewTarget(r, d + 1)], d)
  {
    var t := TargetOf(r, sha);
    var nodes' := nodes[t := NewTarget(r, d + 1)];
    var next' := if r.ItemRef? then next + [r.id] else next;
    assert r.ItemRef? ==> r.id !in next;
    forall id ensures id in next' <==> Item(id) in nodes' && nodes'[Item(id)].depth == d + 1 {
      assert id in next <==> Item(id) in nodes && nodes[Item(id)].depth == d + 1;
    }
  }

  lemma EndsPresent(f: Found, d: nat, lim: Limits)
    requires Shape(f, d, lim)
    ensures forall e :: e in f.graph.edges ==> e.to in f.graph.nodes
  {
  }

  lemma SameKeeps(f: Found, f': Found, d: nat, lim: Limits)
    requires Shape(f, d, lim) && f' == f.(graph := f.graph.(reasons := f'.graph.reasons))
    requires f.graph.reasons <= f'.graph.reasons
    ensures Shape(f', d, lim) && Grew(f, f', d)
  {
  }

  lemma LinkKeeps(f: Found, f': Found, d: nat, lim: Limits, e: Edge)
    requires Shape(f, d, lim)
    requires e.from.Item? && e.from in f.graph.nodes && e.to in f.graph.nodes && f.graph.nodes[e.from].depth == d
    requires f'.next == f.next && f'.graph.nodes == f.graph.nodes && f'.graph.edges == f.graph.edges + {e}
    requires |f'.graph.edges| <= lim.maxEdges && f.graph.reasons <= f'.graph.reasons
    ensures Shape(f', d, lim) && Grew(f, f', d)
  {
    LinkKeepsEdges(f.graph.nodes, f.graph.edges, e, d);
    ParentsStay(f.graph.nodes, f.graph.edges, f.graph.nodes, f.graph.edges + {e});
    hide EdgesFit, HasParent, NextFits;
  }

  lemma GrowKeeps(f: Found, f': Found, d: nat, lim: Limits, from: NodeId, r: Ref, sha: Text -> Text)
    requires Shape(f, d, lim) && d < lim.maxDepth && TargetOf(r, sha) !in f.graph.nodes
    requires from.Item? && from in f.graph.nodes && f.graph.nodes[from].depth == d
    requires f'.graph.edges == f.graph.edges + {EdgeOf(from, r, sha)} && |f'.graph.edges| <= lim.maxEdges
    requires f'.graph.nodes == f.graph.nodes[TargetOf(r, sha) := NewTarget(r, d + 1)]
    requires |f'.graph.nodes| <= lim.maxNodes
    requires f'.next == (if r.ItemRef? then f.next + [r.id] else f.next) && f.graph.reasons <= f'.graph.reasons
    ensures Shape(f', d, lim) && Grew(f, f', d)
  {
    var g, e, t, node := f.graph, EdgeOf(from, r, sha), TargetOf(r, sha), NewTarget(r, d + 1);
    hide EdgesFit, HasParent, NextFits, Parented, Grew, DepthsFit;
    GrowKeepsParents(g.nodes, g.edges, t, node, e);
    GrowKeepsEdges(g.nodes, g.edges, t, node, d);
    GrowKeepsNext(f.next, g.nodes, r, sha, d);
    LinkKeepsEdges(g.nodes[t := node], g.edges, e, d);
    GrewByOne(f, f', d, t, node);
    GrowKeepsDepths(g.nodes, t, node, d, lim.maxDepth);
    hide TargetOf, EdgeOf, NewTarget;
  }

  lemma GrowKeepsDepths(nodes: Nodes, t: NodeId, node: Node, d: nat, maxDepth: nat)
    requires DepthsFit(nodes, d, maxDepth) && d < maxDepth && node.depth == d + 1 && !node.isRoot
    ensures DepthsFit(nodes[t := node], d, maxDepth)
  {
  }

  lemma GrewByOne(f: Found, f': Found, d: nat, t: NodeId, node: Node)
    requires t !in f.graph.nodes && f'.graph.nodes == f.graph.nodes[t := node] && node.depth == d + 1
    requires f.graph.edges <= f'.graph.edges && f.graph.reasons <= f'.graph.reasons
    ensures Grew(f, f', d)
  {
  }

  lemma FollowOneKeeps(f: Found, lim: Limits, from: NodeId, d: nat, r: Ref, sha: Text -> Text)
    requires Shape(f, d, lim) && d < lim.maxDepth
    requires from.Item? && from in f.graph.nodes && f.graph.nodes[from].depth == d
    ensures var f' := FollowOne(f, lim, from, d, r, sha);
            Shape(f', d, lim) && Grew(f, f', d)
  {
    EndsPresent(f, d, lim);
    AddRefCases(f.graph, lim, from, d, r, sha);
    hide AddRef, Shape, Grew;
    var f' := FollowOne(f, lim, from, d, r, sha);
    if f'.graph.nodes == f.graph.nodes && f'.graph.edges == f.graph.edges {
      SameKeeps(f, f', d, lim);
    } else if TargetOf(r, sha) in f.graph.nodes {
      LinkKeeps(f, f', d, lim, EdgeOf(from, r, sha));
    } else {
      GrowKeeps(f, f', d, lim, from, r, sha);
    }
  }

  lemma {:induction false} FollowKeeps(f: Found, lim: Limits, from: NodeId, d: nat, refs: seq<Ref>, sha: Text -> Text)
    requires Shape(f, d, lim) && d < lim.maxDepth
    requires from.Item? && from in f.graph.nodes && f.graph.nodes[from].depth == d
    ensures var f' := Follow(f, lim, from, d, refs, sha);
            Shape(f', d, lim) && Grew(f, f', d)
    decreases |refs|
  {
    hide Shape, FollowOne;
    if refs != [] {
      var n := |refs| - 1;
      FollowKeeps(f, lim, from, d, refs[..n], sha);
      FollowOneKeeps(Follow(f, lim, from, d, refs[..n], sha), lim, from, d, refs[n], sha);
    }
  }

  /** Filling in what is known of a node leaves the shape alone. */
  lemma SetKeeps(f: Found, d: nat, lim: Limits, id: NodeId, n: Node)
    requires Shape(f, d, lim) && id in f.graph.nodes
    requires n.depth == f.graph.nodes[id].depth && n.isRoot == f.graph.nodes[id].isRoot
    ensures Shape(SetNode(f, id, n), d, lim) && Grew(f, SetNode(f, id, n), d)
  {
    var nodes, edges := f.graph.nodes, f.graph.edges;
    var nodes' := nodes[id := n];
    assert nodes'.Keys == nodes.Keys;
    assert |nodes'| == |nodes'.Keys| && |nodes| == |nodes.Keys|;
    ParentsStay(nodes, edges, nodes', edges);
  }
}
