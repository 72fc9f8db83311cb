/** Which references are left out at the node and edge ceilings of a trace: first come, first
    kept, by the order in which items are asked and references are sorted. */
module TraceAdmission {
  import opened Wrappers
  import opened ArcGisRest
  import opened JsonText
  import opened Sorting
  import opened TraceModel
  import opened TraceShape
  import opened TraceRun
  import opened TraceContent
  import TraceAccount
  import opened TraceReferences
  import opened TraceDispatch

  // ------------------------------------------------------------------ first come

  ghost predicate FromOne(e: Edge, id: Text, before: seq<Ref>, sha: Text -> Text) {
    exists r :: r in before && e == EdgeOf(Item(id), r, sha)
  }

  /** The edge comes from an item ahead, or from a reference that was followed before. */
  ghost predicate EarlierEdge(e: Edge, id: Text, before: seq<Ref>, nodes: Nodes, sha: Text -> Text) {
    (e.from.Item? && Ahead(e.from.id, id, nodes)) || FromOne(e, id, before, sha)
  }

  ghost predicate ReachedBy(n: NodeId, e: Edge, id: Text, before: seq<Ref>, g: Graph, sha: Text -> Text) {
    e in g.edges && e.to == n && EarlierEdge(e, id, before, g.nodes, sha)
  }

  /** The node is a root, or such an edge leads to it. */
  ghost predicate FoundEarlier(n: NodeId, id: Text, before: seq<Ref>, g: Graph, sha: Text -> Text) {
    n in g.nodes && (g.nodes[n].isRoot || exists e :: ReachedBy(n, e, id, before, g, sha))
  }

  ghost predicate EdgesEarlier(id: Text, before: seq<Ref>, g: Graph, sha: Text -> Text) {
    forall e :: e in g.edges ==> EarlierEdge(e, id, before, g.nodes, sha)
  }

  ghost predicate NodesEarlier(id: Text, before: seq<Ref>, g: Graph, sha: Text -> Text) {
    forall n :: n in g.nodes ==> FoundEarlier(n, id, before, g, sha)
  }

  /** The reference has its edge, or was left out at a ceiling that earlier ones had met. */
  ghost predicate Admitted(k: nat, id: Text, queue: seq<Ref>, g: Graph, lim: Limits, sha: Text -> Text)
    requires k < |queue|
  {
    || EdgeOf(Item(id), queue[k], sha) in g.edges
    || (|g.edges| >= lim.maxEdges && EdgesEarlier(id, queue[..k], g, sha))
    || (TargetOf(queue[k], sha) !in g.nodes && |g.nodes| >= lim.maxNodes && NodesEarlier(id, queue[..k], g, sha))
  }

  ghost predicate AllAdmitted(id: Text, queue: seq<Ref>, g: Graph, lim: Limits, sha: Text -> Text) {
    forall k :: 0 <= k < |queue| ==> Admitted(k, id, queue, g, lim, sha)
  }

  // --------------------------------------------------------------------- growing

  /** A graph that only grows, and not beyond its ceilings. */
  ghost predicate Later(g: Graph, h: Graph, lim: Limits) {
    && Kept(g.nodes, h.nodes) && g.edges <= h.edges
    && (|g.nodes| >= lim.maxNodes ==> h.nodes.Keys == g.nodes.Keys)
    && (|g.edges| >= lim.maxEdges ==> h.edges == g.edges)
  }

  lemma LaterThen(a: Graph, b: Graph, c: Graph, lim: Limits)
    requires Later(a, b, lim) && Later(b, c, lim)
    ensures Later(a, c, lim)
  {
    assert |a.nodes| == |a.nodes.Keys| && |b.nodes| == |b.nodes.Keys|;
  }

  lemma EarlierStays(e: Edge, id: Text, before: seq<Ref>, more: seq<Ref>, nodes: Nodes, nodes': Nodes,
                     sha: Text -> Text)
    requires EarlierEdge(e, id, before, nodes, sha) && Kept(nodes, nodes') && forall r :: r in before ==> r in more
    ensures EarlierEdge(e, id, more, nodes', sha)
  {
    hide Precedes, EdgeOf;
    if FromOne(e, id, before, sha) {
      var r :| r in before && e == EdgeOf(Item(id), r, sha);
      assert r in more;
    }
  }

  lemma FoundStays(n: NodeId, id: Text, before: seq<Ref>, more: seq<Ref>, g: Graph, h: Graph, lim: Limits,
                   sha: Text -> Text)
    requires FoundEarlier(n, id, before, g, sha) && Later(g, h, lim) && forall r :: r in before ==> r in more
    ensures FoundEarlier(n, id, more, h, sha)
  {
    hide EarlierEdge;
    if !g.nodes[n].isRoot {
      var e :| ReachedBy(n, e, id, before, g, sha);
      EarlierStays(e, id, before, more, g.nodes, h.nodes, sha);
      assert ReachedBy(n, e, id, more, h, sha);
    }
  }

  lemma EdgesStay(id: Text, before: seq<Ref>, more: seq<Ref>, g: Graph, h: Graph, lim: Limits, sha: Text -> Text)
    requires EdgesEarlier(id, before, g, sha) && Later(g, h, lim) && forall r :: r in before ==> r in more
    ensures forall e :: e in g.edges ==> EarlierEdge(e, id, more, h.nodes, sha)
  {
    hide EarlierEdge;
    forall e | e in g.edges ensures EarlierEdge(e, id, more, h.nodes, sha) {
      EarlierStays(e, id, before, more, g.nodes, h.nodes, sha);
    }
  }

  lemma NodesStay(id: Text, before: seq<Ref>, more: seq<Ref>, g: Graph, h: Graph, lim: Limits, sha: Text -> Text)
    requires NodesEarlier(id, before, g, sha) && Later(g, h, lim) && forall r :: r in before ==> r in more
    ensures forall n :: n in g.nodes ==> FoundEarlier(n, id, more, h, sha)
  {
    hide FoundEarlier;
    forall n | n in g.nodes ensures FoundEarlier(n, id, more, h, sha) {
      FoundStays(n, id, before, more, g, h, lim, sha);
    }
  }

  lemma AdmittedStays(k: nat, id: Text, queue: seq<Ref>, g: Graph, h: Graph, lim: Limits, sha: Text -> Text)
    requires k < |queue| && Admitted(k, id, queue, g, lim, sha) && Later(g, h, lim)
    ensures Admitted(k, id, queue, h, lim, sha)
  {
    var before := queue[..k];
    assert |g.nodes| == |g.nodes.Keys| && |h.nodes| == |h.nodes.Keys|;
    if |g.edges| >= lim.maxEdges && EdgesEarlier(id, before, g, sha) {
      EdgesStay(id, before, before, g, h, lim, sha);
    } else if EdgeOf(Item(id), queue[k], sha) !in g.edges {
      NodesStay(id, before, before, g, h, lim, sha);
    }
    hide EarlierEdge, FoundEarlier, Kept, EdgeOf, TargetOf;
  }

  lemma AllAdmittedStays(id: Text, queue: seq<Ref>, g: Graph, h: Graph, lim: Limits, sha: Text -> Text)
    requires AllAdmitted(id, queue, g, lim, sha) && Later(g, h, lim)
    ensures AllAdmitted(id, queue, h, lim, sha)
  {
    hide Admitted, Later;
    forall k | 0 <= k < |queue| ensures Admitted(k, id, queue, h, lim, sha) {
      AdmittedStays(k, id, queue, g, h, lim, sha);
    }
  }

  // ------------------------------------------------------------ following in order

  /** Everything so far came from items ahead or from these references. */
  ghost predicate SoFar(id: Text, refs: seq<Ref>, g: Graph, lim: Limits, sha: Text -> Text) {
    EdgesEarlier(id, refs, g, sha) && NodesEarlier(id, refs, g, sha) && AllAdmitted(id, refs, g, lim, sha)
  }

  lemma OneLater(g: Graph, lim: Limits, from: NodeId, d: nat, r: Ref, sha: Text -> Text)
    ensures Later(g, AddRef(g, lim, from, d, r, sha).0, lim)
  {
    TraceAccount.AddRefMeaning(g, lim, from, d, r, sha);
    hide AddRef;
  }

  /** What the next reference brings, it brings with its own edge. */
  lemma OneReaches(g: Graph, lim: Limits, id: Text, d: nat, r: Ref, sha: Text -> Text)
    ensures var h, t, e := AddRef(g, lim, Item(id), d, r, sha).0, TargetOf(r, sha), EdgeOf(Item(id), r, sha);
            && e.to == t && (forall x :: x in h.edges && x !in g.edges ==> x == e)
            && (forall n :: n in h.nodes && n !in g.nodes ==> n == t && e in h.edges)
            && (e in h.edges || (h.edges == g.edges && |g.edges| >= lim.maxEdges)
                || (h.edges == g.edges && h.nodes == g.nodes && t !in g.nodes && |g.nodes| >= lim.maxNodes))
  {
    TraceAccount.AddRefMeaning(g, lim, Item(id), d, r, sha);
    hide AddRef;
  }

  lemma NextAdmitted(g: Graph, h: Graph, id: Text, init: seq<Ref>, r: Ref, lim: Limits, sha: Text -> Text)
    requires SoFar(id, init, g, lim, sha) && Later(g, h, lim)
    requires var t, e := TargetOf(r, sha), EdgeOf(Item(id), r, sha);
             && e.to == t && (forall x :: x in h.edges && x !in g.edges ==> x == e)
             && (forall n :: n in h.nodes && n !in g.nodes ==> n == t && e in h.edges)
             && (e in h.edges || (h.edges == g.edges && |g.edges| >= lim.maxEdges)
                 || (h.edges == g.edges && h.nodes == g.nodes && t !in g.nodes && |g.nodes| >= lim.maxNodes))
    ensures SoFar(id, init + [r], h, lim, sha)
  {
    var refs, e := init + [r], EdgeOf(Item(id), r, sha);
    assert r in refs;
    assert EarlierEdge(e, id, refs, h.nodes, sha) by { assert FromOne(e, id, refs, sha); }
    EdgesStay(id, init, refs, g, h, lim, sha);
    NodesStay(id, init, refs, g, h, lim, sha);
    EdgesStay(id, init, init, g, h, lim, sha);
    NodesStay(id, init, init, g, h, lim, sha);
    hide EarlierEdge, Later, EdgeOf, TargetOf;
    forall n | n in h.nodes ensures FoundEarlier(n, id, refs, h, sha) {
      if n !in g.nodes {
        assert ReachedBy(n, e, id, refs, h, sha);
      }
    }
    hide FoundEarlier;
    forall k | 0 <= k < |refs| ensures Admitted(k, id, refs, h, lim, sha) {
      NextAt(k, g, h, id, init, r, lim, sha);
    }
  }

  lemma NextAt(k: nat, g: Graph, h: Graph, id: Text, init: seq<Ref>, r: Ref, lim: Limits, sha: Text -> Text)
    requires k < |init + [r]| && AllAdmitted(id, init, g, lim, sha) && Later(g, h, lim)
    requires (forall e :: e in g.edges ==> EarlierEdge(e, id, init, h.nodes, sha))
    requires (forall n :: n in g.nodes ==> FoundEarlier(n, id, init, h, sha))
    requires var t, e := TargetOf(r, sha), EdgeOf(Item(id), r, sha);
             (e in h.edges || (h.edges == g.edges && |g.edges| >= lim.maxEdges)
              || (h.edges == g.edges && h.nodes == g.nodes && t !in g.nodes && |g.nodes| >= lim.maxNodes))
    ensures Admitted(k, id, init + [r], h, lim, sha)
  {
    var refs := init + [r];
    if k < |init| {
      assert Admitted(k, id, init, g, lim, sha);
      hide Later;
      AdmittedStays(k, id, init, g, h, lim, sha);
      assert refs[..k] == init[..k] && refs[k] == init[k];
    } else {
      assert refs[..k] == init && refs[k] == r;
    }
    hide EarlierEdge, FoundEarlier, EdgeOf, TargetOf, Later;
  }

  lemma {:induction false} FollowAdmits(f: Found, lim: Limits, id: Text, d: nat, refs: seq<Ref>, sha: Text -> Text)
    requires SoFar(id, [], f.graph, lim, sha)
    ensures var h := Follow(f, lim, Item(id), d, refs, sha).graph;
            SoFar(id, refs, h, lim, sha) && Later(f.graph, h, lim)
    decreases |refs|
  {
    hide SoFar, Later, AddRef, EdgeOf, TargetOf;
    if refs == [] {
      assert Later(f.graph, f.graph, lim) by { LaterSame(f.graph, lim); }
    } else {
      var n := |refs| - 1;
      var g := Follow(f, lim, Item(id), d, refs[..n], sha);
      FollowAdmits(f, lim, id, d, refs[..n], sha);
      var h := FollowOne(g, lim, Item(id), d, refs[n], sha).graph;
      OneLater(g.graph, lim, Item(id), d, refs[n], sha);
      OneReaches(g.graph, lim, id, d, refs[n], sha);
      NextAdmitted(g.graph, h, id, refs[..n], refs[n], lim, sha);
      LaterThen(f.graph, g.graph, h, lim);
      assert refs[..n] + [refs[n]] == refs;
    }
  }

  lemma LaterSame(g: Graph, lim: Limits)
    ensures Later(g, g, lim)
  {
  }

  // ---------------------------------------------------------------------- visits

  /** The references of an item in the order in which they are followed. */
  function QueueOf(p: Portal, id: Text, itemType: Option<Text>): seq<Ref> {
    Sort(RefKey, RefsAt(p, id, itemType))
  }

  /** Edges leave visited items only. */
  ghost predicate EdgesDone(g: Graph, done: seq<Text>, d: nat) {
    forall e :: e in g.edges ==>
      && e.from.Item? && e.from in g.nodes
      && (g.nodes[e.from].depth < d || (g.nodes[e.from].depth == d && e.from.id in done))
  }

  ghost predicate Admissions(g: Graph, p: Portal, lim: Limits, sha: Text -> Text) {
    forall id {:trigger Item(id) in g.nodes} :: Item(id) in g.nodes && g.nodes[Item(id)].expanded ==>
      AllAdmitted(id, QueueOf(p, id, g.nodes[Item(id)].itemType), g, lim, sha)
  }

  ghost predicate Admitting(s: State, done: seq<Text>, d: nat, p: Portal, lim: Limits, sha: Text -> Text) {
    && EdgesDone(s.found.graph, done, d) && ExpandedVisited(s.found.graph.nodes, done, d)
    && Admissions(s.found.graph, p, lim, sha)
  }

  lemma SetLater(g: Graph, id: Text, n: Node, lim: Limits)
    requires Item(id) in g.nodes && n.depth == g.nodes[Item(id)].depth && n.isRoot == g.nodes[Item(id)].isRoot
    ensures Later(g, g.(nodes := g.nodes[Item(id) := n]), lim)
  {
    assert g.nodes[Item(id) := n].Keys == g.nodes.Keys;
  }

  lemma LearnAdmits(s: State, id: Text, n: Node, b: Budget<Query>, done: seq<Text>, d: nat, p: Portal, lim: Limits,
                    sha: Text -> Text)
    requires Admitting(s, done, d, p, lim, sha) && Item(id) in s.found.graph.nodes
    requires n.depth == s.found.graph.nodes[Item(id)].depth && n.isRoot == s.found.graph.nodes[Item(id)].isRoot
    requires !s.found.graph.nodes[Item(id)].expanded && !n.expanded
    ensures Admitting(State(SetNode(s.found, Item(id), n), b), done, d, p, lim, sha)
  {
    var g, h := s.found.graph, SetNode(s.found, Item(id), n).graph;
    SetLater(g, id, n, lim);
    hide AllAdmitted, QueueOf, Later;
    forall x | Item(x) in h.nodes && h.nodes[Item(x)].expanded
      ensures AllAdmitted(x, QueueOf(p, x, h.nodes[Item(x)].itemType), h, lim, sha)
    {
      assert Item(x) in g.nodes;
      AllAdmittedStays(x, QueueOf(p, x, g.nodes[Item(x)].itemType), g, h, lim, sha);
    }
  }

  lemma ReasonAdmits(s: State, reason: Reason, done: seq<Text>, d: nat, p: Portal, lim: Limits, sha: Text -> Text)
    requires Admitting(s, done, d, p, lim, sha)
    ensures Admitting(Reasoned(s, reason), done, d, p, lim, sha)
  {
    var g, h := s.found.graph, Because(s.found.graph, reason);
    assert Later(g, h, lim);
    hide AllAdmitted, QueueOf, Later;
    forall x | Item(x) in h.nodes && h.nodes[Item(x)].expanded
      ensures AllAdmitted(x, QueueOf(p, x, h.nodes[Item(x)].itemType), h, lim, sha)
    {
      assert Item(x) in g.nodes;
      AllAdmittedStays(x, QueueOf(p, x, g.nodes[Item(x)].itemType), g, h, lim, sha);
    }
  }

  /** Nothing that came so far came from this item, or from one behind it. */
  lemma FairStays(g: Graph, h: Graph, id: Text, lim: Limits, sha: Text -> Text)
    requires SoFar(id, [], g, lim, sha) && Later(g, h, lim) && h.edges == g.edges && h.nodes.Keys == g.nodes.Keys
    ensures SoFar(id, [], h, lim, sha)
  {
    hide Later, EarlierEdge, FoundEarlier;
    EdgesStay(id, [], [], g, h, lim, sha);
    NodesStay(id, [], [], g, h, lim, sha);
  }

  lemma OthersAdmitted(g: Graph, h: Graph, id: Text, p: Portal, lim: Limits, sha: Text -> Text)
    requires Admissions(g, p, lim, sha) && Later(g, h, lim) && Item(id) in g.nodes
    requires forall n :: n in g.nodes && n != Item(id) ==> n in h.nodes && h.nodes[n] == g.nodes[n]
    requires forall n :: n in h.nodes && n !in g.nodes ==> !h.nodes[n].expanded
    requires Item(id) in h.nodes && AllAdmitted(id, QueueOf(p, id, h.nodes[Item(id)].itemType), h, lim, sha)
    ensures Admissions(h, p, lim, sha)
  {
    hide AllAdmitted, QueueOf, Later;
    forall x | Item(x) in h.nodes && h.nodes[Item(x)].expanded
      ensures AllAdmitted(x, QueueOf(p, x, h.nodes[Item(x)].itemType), h, lim, sha)
    {
      if x != id {
        assert Item(x) in g.nodes;
        AllAdmittedStays(x, QueueOf(p, x, g.nodes[Item(x)].itemType), g, h, lim, sha);
      }
    }
  }

  lemma OpenDone(g: Graph, h: Graph, id: Text, done: seq<Text>, d: nat, lim: Limits)
    requires EdgesDone(g, done, d) && ExpandedVisited(g.nodes, done, d) && AtDepth(g.nodes, id, d) && id in done
    requires Later(g, h, lim) && forall e :: e in h.edges && e !in g.edges ==> e.from == Item(id)
    requires forall n :: n in g.nodes && n != Item(id) ==> n in h.nodes && h.nodes[n] == g.nodes[n]
    requires forall n :: n in h.nodes && n !in g.nodes ==> !h.nodes[n].expanded
    ensures EdgesDone(h, done, d) && ExpandedVisited(h.nodes, done, d)
  {
  }

  /** What following references leaves of the graph that it starts from. */
  lemma FollowedFacts(g: Graph, f: Found, h: Found, id: Text, n: Node, refs: seq<Ref>, sha: Text -> Text)
    requires Item(id) in g.nodes && f.graph == g.(nodes := g.nodes[Item(id) := n])
    requires Followed(f, h, Item(id), refs, sha)
    ensures forall e :: e in h.graph.edges && e !in g.edges ==> e.from == Item(id)
    ensures forall x :: x in g.nodes && x != Item(id) ==> x in h.graph.nodes && h.graph.nodes[x] == g.nodes[x]
    ensures forall x :: x in h.graph.nodes && x !in g.nodes ==> !h.graph.nodes[x].expanded
    ensures Item(id) in h.graph.nodes && h.graph.nodes[Item(id)] == n
  {
    hide ComesFrom, Brought, Ceiling;
    assert f.graph.nodes.Keys == g.nodes.Keys;
    assert Item(id) in f.graph.nodes && f.graph.nodes[Item(id)] == n;
  }

  lemma OpenAdmits(s: State, id: Text, queue: seq<Ref>, done: seq<Text>, d: nat, p: Portal, lim: Limits,
                   sha: Text -> Text, b: Budget<Query>)
    requires Admitting(s, done, d, p, lim, sha) && AtDepth(s.found.graph.nodes, id, d) && id in done
    requires !s.found.graph.nodes[Item(id)].expanded && SoFar(id, [], s.found.graph, lim, sha)
    requires queue == QueueOf(p, id, s.found.graph.nodes[Item(id)].itemType)
    ensures var f := SetNode(s.found, Item(id), s.found.graph.nodes[Item(id)].(expanded := true));
            Admitting(State(Follow(f, lim, Item(id), d, queue, sha), b), done, d, p, lim, sha)
  {
    var g, n := s.found.graph, s.found.graph.nodes[Item(id)].(expanded := true);
    var f := SetNode(s.found, Item(id), n);
    var h := Follow(f, lim, Item(id), d, queue, sha);
    SetLater(g, id, n, lim);
    assert f.graph == g.(nodes := g.nodes[Item(id) := n]) && f.graph.nodes.Keys == g.nodes.Keys;
    hide SoFar, Later, Follow, QueueOf, Followed, AllAdmitted, Admissions, EdgesDone, ExpandedVisited;
    FairStays(g, f.graph, id, lim, sha);
    FollowAdmits(f, lim, id, d, queue, sha);
    FollowAdds(f, lim, Item(id), d, queue, sha);
    FollowedFacts(g, f, h, id, n, queue, sha);
    LaterThen(g, f.graph, h.graph, lim);
    LastAdmitted(id, queue, h.graph, lim, sha);
    OthersAdmitted(g, h.graph, id, p, lim, sha);
    OpenDone(g, h.graph, id, done, d, lim);
  }

  lemma LastAdmitted(id: Text, queue: seq<Ref>, g: Graph, lim: Limits, sha: Text -> Text)
    requires SoFar(id, queue, g, lim, sha)
    ensures AllAdmitted(id, queue, g, lim, sha)
  {
  }

  lemma ExpandAdmits(s: State, lim: Limits, p: Portal, sha: Text -> Text, id: Text, d: nat, done: seq<Text>)
    requires Admitting(s, done, d, p, lim, sha) && AtDepth(s.found.graph.nodes, id, d) && id in done
    requires !s.found.graph.nodes[Item(id)].expanded && SoFar(id, [], s.found.graph, lim, sha)
    ensures var r := Expand(s, lim, p, sha, id, d);
            r.Ok? ==> Admitting(r.value, done, d, p, lim, sha)
  {
    var (b, r) := Request(s.budget, lim.ceilings, DataOf(id), p.data(id));
    var n := s.found.graph.nodes[Item(id)];
    if r.Ok? {
      assert RefsIn(r.value, n.itemType) == RefsAt(p, id, n.itemType);
      OpenAdmits(s, id, QueueOf(p, id, n.itemType), done, d, p, lim, sha, b);
    }
    hide Request, RefsAt, RefsIn, Follow, Sort, RefKey, EdgesDone, ExpandedVisited, Admissions, SoFar;
  }

  lemma WiderAdmits(s: State, b: Budget<Query>, done: seq<Text>, id: Text, d: nat, p: Portal, lim: Limits,
                    sha: Text -> Text)
    requires Admitting(s, done, d, p, lim, sha)
    ensures Admitting(s.(budget := b), done + [id], d, p, lim, sha)
  {
    hide Admissions;
  }

  lemma ClassifyAdmits(s: State, lim: Limits, p: Portal, sha: Text -> Text, id: Text, d: nat, done: seq<Text>,
                       itemType: Option<Text>)
    requires Admitting(s, done, d, p, lim, sha) && AtDepth(s.found.graph.nodes, id, d) && id in done
    requires !s.found.graph.nodes[Item(id)].expanded && SoFar(id, [], s.found.graph, lim, sha)
    ensures var r := Classify(s, lim, p, sha, id, d, itemType);
            r.Ok? ==> Admitting(r.value, done, d, p, lim, sha)
  {
    var support := if IsExpandable(itemType) then Expandable else Terminal;
    var n := s.found.graph.nodes[Item(id)].(itemType := itemType, support := support);
    var known := s.(found := SetNode(s.found, Item(id), n));
    SetLater(s.found.graph, id, n, lim);
    assert known.found.graph == s.found.graph.(nodes := s.found.graph.nodes[Item(id) := n]);
    assert known.found.graph.nodes.Keys == s.found.graph.nodes.Keys;
    hide IsExpandable, Expand, Admitting, SoFar, Later;
    FairStays(s.found.graph, known.found.graph, id, lim, sha);
    LearnAdmits(s, id, n, s.budget, done, d, p, lim, sha);
    ReasonAdmits(known, DepthCeiling(id, d), done, d, p, lim, sha);
    ReasonAdmits(known, RequestCeiling, done, d, p, lim, sha);
    ExpandAdmits(known, lim, p, sha, id, d, done);
  }

  /** The item next in line comes after everything that the graph holds by edges. */
  lemma NextIsFair(s: State, done: seq<Text>, id: Text, d: nat, lim: Limits, sha: Text -> Text)
    requires Going(s, done, d, lim) && EdgesDone(s.found.graph, done, d)
    requires AtDepth(s.found.graph.nodes, id, d) && NextInLine(id, done)
    ensures SoFar(id, [], s.found.graph, lim, sha)
  {
    var g := s.found.graph;
    hide Less, Precedes, BudgetFits, AskedVisited, VisitedAsked, EdgesFit, NextFits, FromOne;
    forall e | e in g.edges ensures EarlierEdge(e, id, [], g.nodes, sha) {
      LessMeaning(e.from.id, id);
    }
    hide EarlierEdge;
    forall n | n in g.nodes ensures FoundEarlier(n, id, [], g, sha) {
      if !g.nodes[n].isRoot {
        assert HasParent(n, g.nodes, g.edges);
        var e :| e in g.edges && e.to == n && e.from in g.nodes && n in g.nodes
          && g.nodes[e.from].depth + 1 == g.nodes[n].depth;
        assert ReachedBy(n, e, id, [], g, sha);
      }
    }
  }

  lemma VisitAdmits(s: State, lim: Limits, p: Portal, sha: Text -> Text, id: Text, d: nat, done: seq<Text>)
    requires Going(s, done, d, lim) && Admitting(s, done, d, p, lim, sha) && AtDepth(s.found.graph.nodes, id, d)
    requires id !in done && NextInLine(id, done)
    ensures var r := Visit(s, lim, p, sha, id, d);
            r.Ok? ==> Admitting(r.value, done + [id], d, p, lim, sha)
  {
    assert !s.found.graph.nodes[Item(id)].expanded;
    NextIsFair(s, done, id, d, lim, sha);
    hide Admitting, Classify, Request, Lower, SoFar, Going, NextInLine;
    WiderAdmits(s, s.budget, done, id, d, p, lim, sha);
    ReasonAdmits(s, RequestCeiling, done + [id], d, p, lim, sha);
    var (b, r) := Request(s.budget, lim.ceilings, MetaOf(id), p.meta(id));
    WiderAdmits(s, b, done, id, d, p, lim, sha);
    if r.Ok? {
      ClassifyAdmits(s.(budget := b), lim, p, sha, id, d, done + [id], r.value.itemType);
    } else {
      LearnAdmits(s, id, s.found.graph.nodes[Item(id)].(support := Missing), b, done + [id], d, p, lim, sha);
    }
  }

  lemma {:induction false} VisitAllAdmits(s: State, lim: Limits, p: Portal, sha: Text -> Text, level: seq<Text>,
                                          d: nat)
    requires Going(s, [], d, lim) && NoRepeats(level) && AllAtDepth(level, s.found.graph.nodes, d)
    requires Present(level, s.found.graph.nodes) && Admitting(s, [], d, p, lim, sha) && StrictlySorted(Same, level)
    ensures var r := VisitAll(s, lim, p, sha, level, d);
            r.Ok? ==> Admitting(r.value, level, d, p, lim, sha)
    decreases |level|
  {
    hide Visit, Going, Grew, AllAtDepth, NoRepeats, Admitting, Less;
    if level != [] {
      var n := |level| - 1;
      InitOfLevel(level, s.found.graph.nodes, d);
      VisitAllAdmits(s, lim, p, sha, level[..n], d);
      VisitAllKeeps(s, lim, p, sha, level[..n], d);
      var before := VisitAll(s, lim, p, sha, level[..n], d);
      if before.Ok? {
        GrewKeepsLevel(s.found, before.value.found, level, d);
        InitOfLevel(level, before.value.found.graph.nodes, d);
        LastInLine(level);
        VisitAdmits(before.value, lim, p, sha, level[n], d, level[..n]);
      }
    }
  }

  lemma DescendAdmits(t: State, level: seq<Text>, d: nat, p: Portal, lim: Limits, sha: Text -> Text)
    requires Admitting(t, level, d, p, lim, sha)
    ensures Admitting(Descend(t), [], d + 1, p, lim, sha)
  {
    hide AllAdmitted, QueueOf;
  }

  lemma {:induction false} WalkAdmits(s: State, lim: Limits, p: Portal, sha: Text -> Text, level: seq<Text>, d: nat)
    requires Ready(s, level, d, lim) && (forall id :: id in level ==> Item(id) in s.found.graph.nodes)
    requires level != [] ==> d <= lim.maxDepth
    requires Admitting(Descend(s), [], d, p, lim, sha)
    ensures var r := Walk(s, lim, p, sha, level, d);
            r.Ok? ==> Admissions(r.value.found.graph, p, lim, sha)
    decreases lim.maxDepth + 1 - d
  {
    hide Admissions;
    if level != [] {
      hide Admitting;
      SortKeeps(ItemKey, level);
      var sorted := Sort(ItemKey, level);
      SortedNoRepeats(level);
      LevelInLine(level);
      hide Sort, VisitAll, Going, Grew, StrictlySorted;
      VisitAllKeeps(Descend(s), lim, p, sha, sorted, d);
      VisitAllAdmits(Descend(s), lim, p, sha, sorted, d);
      var r := VisitAll(Descend(s), lim, p, sha, sorted, d);
      if r.Ok? {
        LevelDone(s, r.value, level, sorted, d, lim);
        NextLevel(r.value, sorted, d, lim);
        DescendAdmits(r.value, sorted, d, p, lim, sha);
        WalkAdmits(r.value, lim, p, sha, r.value.found.next, d + 1);
      }
    }
  }

  lemma RootsAdmit(f: Found, ids: seq<Text>, p: Portal, lim: Limits, sha: Text -> Text)
    requires RootGraph(f, ids)
    ensures Admitting(Descend(State(f, Budget(0, 0, [], 0))), [], 0, p, lim, sha)
  {
    hide AllAdmitted, QueueOf;
  }

  lemma TraceAdmits(p: Portal, roots: seq<Text>, lim: Limits, sha: Text -> Text)
    requires Trace(p, roots, lim, sha).Ok?
    ensures Admissions(Trace(p, roots, lim, sha).value.found.graph, p, lim, sha)
  {
    var ids := CanonicalRoots(roots);
    CanonicalUnique(Same, LowerAll(roots), LowerAll(roots));
    StrictNoRepeats(Same, ids);
    RootsReady(roots, lim);
    RootNodes(ids, lim);
    hide CanonicalRoots, AddRoots, RootGraph, Ready, Admitting, Admissions;
    var start := AddRoots(ids, lim);
    RootsAdmit(start, start.next, p, lim, sha);
    WalkAdmits(State(start, Budget(0, 0, [], 0)), lim, p, sha, start.next, 0);
  }

  // --------------------------------------------------------------------- theorem

  ghost predicate FromSooner(e: Edge, id: Text, r: Ref, refs: seq<Ref>, sha: Text -> Text) {
    exists q :: q in refs && Sooner(q, r) && e == Stands(id, q, sha)
  }

  /** The edge comes from an item ahead, or from a sooner reference of the same item. */
  ghost predicate CameBefore(e: Edge, id: Text, r: Ref, refs: seq<Ref>, nodes: Nodes, sha: Text -> Text) {
    (e.from.Item? && Ahead(e.from.id, id, nodes)) || FromSooner(e, id, r, refs, sha)
  }

  ghost predicate LedTo(n: NodeId, e: Edge, id: Text, r: Ref, refs: seq<Ref>, g: Graph, sha: Text -> Text) {
    e in g.edges && e.to == n && CameBefore(e, id, r, refs, g.nodes, sha)
  }

  lemma SoonerTotal(a: Ref, b: Ref)
    ensures a == b || Sooner(a, b) || Sooner(b, a)
  {
    LessTotal(NameOf(a), NameOf(b));
    LessMeaning(NameOf(a), NameOf(b));
    LessMeaning(NameOf(b), NameOf(a));
    LessTotal(a.rel, b.rel);
    LessMeaning(a.rel, b.rel);
    LessMeaning(b.rel, a.rel);
    LessTotal(a.loc, b.loc);
    LessMeaning(a.loc, b.loc);
    LessMeaning(b.loc, a.loc);
    hide Less, Precedes;
  }

  /** What is followed before a reference without an edge is sooner, if it has one. */
  lemma BeforeIsSooner(e: Edge, id: Text, refs: seq<Ref>, k: nat, sha: Text -> Text)
    requires k < |Sort(RefKey, refs)| && FromOne(e, id, Sort(RefKey, refs)[..k], sha)
    requires e != EdgeOf(Item(id), Sort(RefKey, refs)[k], sha) && forall q :: q in refs ==> SolidRef(q)
    ensures FromSooner(e, id, Sort(RefKey, refs)[k], refs, sha)
  {
    var queue := Sort(RefKey, refs);
    SortSorts(RefKey, refs);
    SortKeeps(RefKey, refs);
    hide Sort, RefKey, EdgeOf, SolidRef, Sooner;
    var q :| q in queue[..k] && e == EdgeOf(Item(id), q, sha);
    var j :| 0 <= j < k && queue[..k][j] == q;
    assert queue[j] == q && queue[k] in refs && q in refs;
    RefKeyOrder(queue[k], q);
    SoonerTotal(q, queue[k]);
    EdgesStand(id, q, sha);
    hide Stands;
  }

  lemma EarlierCame(e: Edge, id: Text, refs: seq<Ref>, k: nat, nodes: Nodes, sha: Text -> Text)
    requires k < |Sort(RefKey, refs)| && EarlierEdge(e, id, Sort(RefKey, refs)[..k], nodes, sha)
    requires e != EdgeOf(Item(id), Sort(RefKey, refs)[k], sha) && forall q :: q in refs ==> SolidRef(q)
    ensures CameBefore(e, id, Sort(RefKey, refs)[k], refs, nodes, sha)
  {
    hide Sort, RefKey, EdgeOf, SolidRef, FromOne, FromSooner, Ahead;
    if FromOne(e, id, Sort(RefKey, refs)[..k], sha) {
      BeforeIsSooner(e, id, refs, k, sha);
    }
  }

  /** A reference of an expanded item without an edge was left out for a ceiling, and first
      come, first kept: either all edges there may be came from items ahead or from sooner
      references, or all nodes there may be did, other than the roots, and its target is
      none of them. */
  lemma FirstComeFirstKept(p: Portal, roots: seq<Text>, lim: Limits, sha: Text -> Text, id: Text, c: Content, r: Ref)
    requires Trace(p, roots, lim, sha).Ok? && TraceAccount.Gave(p.data(id), c)
    requires var g := Trace(p, roots, lim, sha).value.found.graph;
             && Item(id) in g.nodes && g.nodes[Item(id)].expanded
             && r in Counted(c, g.nodes[Item(id)].itemType) && Stands(id, r, sha) !in g.edges
             && forall q :: q in Counted(c, g.nodes[Item(id)].itemType) ==> SolidRef(q)
    ensures var g := Trace(p, roots, lim, sha).value.found.graph;
            var refs := Counted(c, g.nodes[Item(id)].itemType);
            || (|g.edges| == lim.maxEdges && forall e :: e in g.edges ==> CameBefore(e, id, r, refs, g.nodes, sha))
            || (|g.nodes| == lim.maxNodes && Stands(id, r, sha).to !in g.nodes
                && forall n :: n in g.nodes ==> g.nodes[n].isRoot || exists e :: LedTo(n, e, id, r, refs, g, sha))
  {
    var g := Trace(p, roots, lim, sha).value.found.graph;
    var refs := Counted(c, g.nodes[Item(id)].itemType);
    TraceAdmits(p, roots, lim, sha);
    CeilingsHold(p, roots, lim, sha);
    CountedRefs(p, id, g.nodes[Item(id)].itemType, c);
    hide Trace, Counted, RefsAt, TraceAccount.Gave, RefKey, SolidRef, AskedVisited;
    var queue := Sort(RefKey, refs);
    assert AllAdmitted(id, queue, g, lim, sha);
    SortKeeps(RefKey, refs);
    hide Sort, Admissions;
    var k :| 0 <= k < |queue| && queue[k] == r;
    assert Admitted(k, id, queue, g, lim, sha);
    EdgesStand(id, r, sha);
    assert Stands(id, r, sha).to == TargetOf(r, sha);
    hide EdgeOf, Stands, TargetOf, EarlierEdge, CameBefore;
    if |g.edges| >= lim.maxEdges && EdgesEarlier(id, queue[..k], g, sha) {
      forall e | e in g.edges ensures CameBefore(e, id, r, refs, g.nodes, sha) {
        EarlierCame(e, id, refs, k, g.nodes, sha);
      }
    } else {
      forall n | n in g.nodes && !g.nodes[n].isRoot ensures exists e :: LedTo(n, e, id, r, refs, g, sha) {
        assert FoundEarlier(n, id, queue[..k], g, sha);
        var e :| ReachedBy(n, e, id, queue[..k], g, sha);
        EarlierCame(e, id, refs, k, g.nodes, sha);
        assert LedTo(n, e, id, r, refs, g, sha);
      }
    }
  }
}
