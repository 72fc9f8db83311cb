/** The reported edges are the references of the expanded items: all of them when no
    node or edge ceiling was met, and never anything else. */
module TraceContent {
  import opened Wrappers
  import opened ArcGisRest
  import opened JsonText
  import opened Sorting
  import opened TraceModel
  import opened TraceShape
  import opened TraceRun

  /** The references that the data of an item holds, given the item's type. */
  function RefsAt(p: Portal, id: Text, itemType: Option<Text>): seq<Ref> {
    match p.data(id)
    case Received(_, _, _, Json(content)) => RefsIn(content, itemType)
    case _ => []
  }

  ghost predicate ComesFrom(e: Edge, refs: seq<Ref>, sha: Text -> Text) {
    exists r :: r in refs && e == EdgeOf(e.from, r, sha)
  }

  /** An edge stands for a reference of the expanded item it leaves. */
  ghost predicate Explained(e: Edge, nodes: Nodes, p: Portal, sha: Text -> Text) {
    && e.from.Item? && e.from in nodes && nodes[e.from].expanded
    && ComesFrom(e, RefsAt(p, e.from.id, nodes[e.from].itemType), sha)
  }

  ghost predicate AllExplained(g: Graph, p: Portal, sha: Text -> Text) {
    forall e {:trigger Explained(e, g.nodes, p, sha)} :: e in g.edges ==> Explained(e, g.nodes, p, sha)
  }

  ghost predicate Ceiling(g: Graph) {
    NodeCeiling in g.reasons || EdgeCeiling in g.reasons
  }

  ghost predicate EdgesOf(id: Text, refs: seq<Ref>, edges: set<Edge>, sha: Text -> Text) {
    forall r :: r in refs ==> EdgeOf(Item(id), r, sha) in edges
  }

  ghost predicate AllReported(g: Graph, p: Portal, sha: Text -> Text) {
    Ceiling(g) || forall id {:trigger Item(id) in g.nodes} ::
      Item(id) in g.nodes && g.nodes[Item(id)].expanded ==>
        EdgesOf(id, RefsAt(p, id, g.nodes[Item(id)].itemType), g.edges, sha)
  }

  /** Only visited items are expanded. */
  ghost predicate ExpandedVisited(nodes: Nodes, done: seq<Text>, d: nat) {
    forall n :: n in nodes && nodes[n].expanded ==>
      n.Item? && (nodes[n].depth < d || (nodes[n].depth == d && n.id in done))
  }

  /** The data of an expanded item holds this URL as the reference behind the edge. */
  ghost predicate ReadsUrl(e: Edge, url: Text, nodes: Nodes, p: Portal, sha: Text -> Text) {
    && e.from.Item? && e.from in nodes && nodes[e.from].expanded
    && ServiceRef(url, e.rel, e.loc) in RefsAt(p, e.from.id, nodes[e.from].itemType)
    && e.to == Service(sha(url))
  }

  ghost predicate UrlRead(n: NodeId, g: Graph, p: Portal, sha: Text -> Text)
    requires n in g.nodes
  {
    exists e :: e in g.edges && e.to == n && g.nodes[n].url.Some? && ReadsUrl(e, g.nodes[n].url.value, g.nodes, p, sha)
  }

  /** The URL of a service node was read at an edge that leads to it. */
  ghost predicate UrlsRead(g: Graph, p: Portal, sha: Text -> Text) {
    forall n {:trigger UrlRead(n, g, p, sha)} :: n in g.nodes && n.Service? ==> UrlRead(n, g, p, sha)
  }

  ghost predicate Faithful(s: State, done: seq<Text>, d: nat, p: Portal, sha: Text -> Text) {
    && AllExplained(s.found.graph, p, sha) && AllReported(s.found.graph, p, sha)
    && ExpandedVisited(s.found.graph.nodes, done, d) && UrlsRead(s.found.graph, p, sha)
  }

  // ---------------------------------------------------------- following references

  /** A service node that a reference brought, together with its edge. */
  ghost predicate Brought(n: NodeId, node: Node, from: NodeId, refs: seq<Ref>, edges: set<Edge>, sha: Text -> Text) {
    exists r ::
      r in refs && r.ServiceRef? && n == TargetOf(r, sha) && node.url == Some(r.url) && EdgeOf(from, r, sha) in edges
  }

  /** What following the references of one item adds: only edges of its references,
      and an edge for each unless a ceiling was met; known nodes stay as they are. */
  ghost predicate Followed(f: Found, f': Found, from: NodeId, refs: seq<Ref>, sha: Text -> Text) {
    && (forall n :: n in f.graph.nodes ==> n in f'.graph.nodes && f'.graph.nodes[n] == f.graph.nodes[n])
    && (forall n :: n in f'.graph.nodes && n !in f.graph.nodes ==> !f'.graph.nodes[n].expanded)
    && f.graph.edges <= f'.graph.edges && f.graph.reasons <= f'.graph.reasons
    && (forall e :: e in f'.graph.edges && e !in f.graph.edges ==> e.from == from && ComesFrom(e, refs, sha))
    && (Ceiling(f'.graph) || forall r :: r in refs ==> EdgeOf(from, r, sha) in f'.graph.edges)
    && (forall n :: n in f'.graph.nodes && n !in f.graph.nodes && n.Service? ==>
          Brought(n, f'.graph.nodes[n], from, refs, f'.graph.edges, sha))
  }

  lemma ComesFromMore(e: Edge, refs: seq<Ref>, more: seq<Ref>, sha: Text -> Text)
    requires ComesFrom(e, refs, sha) && forall r :: r in refs ==> r in more
    ensures ComesFrom(e, more, sha)
  {
  }

  lemma AddRefAdds(g: Graph, lim: Limits, from: NodeId, d: nat, r: Ref, sha: Text -> Text)
    ensures var h, t, e := AddRef(g, lim, from, d, r, sha).0, TargetOf(r, sha), EdgeOf(from, r, sha);
            && (h.nodes == g.nodes || (t !in g.nodes && h.nodes == g.nodes[t := NewTarget(r, d + 1)] && e in h.edges))
            && (h.edges == g.edges || h.edges == g.edges + {e})
            && g.reasons <= h.reasons && (e in h.edges || Ceiling(h))
  {
    var t, e, node := TargetOf(r, sha), EdgeOf(from, r, sha), NewTarget(r, d + 1);
    hide TargetOf, EdgeOf, NewTarget;
    if t !in g.nodes && |g.edges| < lim.maxEdges && |g.nodes| < lim.maxNodes {
      assert AddRef(g, lim, from, d, r, sha).0.nodes == g.nodes[t := node];
    }
  }

  lemma BroughtMore(n: NodeId, node: Node, from: NodeId, refs: seq<Ref>, edges: set<Edge>, more: seq<Ref>,
                    edges': set<Edge>, sha: Text -> Text)
    requires Brought(n, node, from, refs, edges, sha) && (forall r :: r in refs ==> r in more) && edges <= edges'
    ensures Brought(n, node, from, more, edges', sha)
  {
  }

  lemma FollowOneAdds(f: Found, lim: Limits, from: NodeId, d: nat, r: Ref, sha: Text -> Text)
    ensures Followed(f, FollowOne(f, lim, from, d, r, sha), from, [r], sha)
  {
    AddRefAdds(f.graph, lim, from, d, r, sha);
    OneBrings(from, d, r, sha);
    hide ComesFrom, AddRef, Ceiling, Brought, EdgeOf, TargetOf, NewTarget;
  }

  lemma OneBrings(from: NodeId, d: nat, r: Ref, sha: Text -> Text)
    ensures r in [r] && EdgeOf(from, r, sha).from == from && ComesFrom(EdgeOf(from, r, sha), [r], sha)
    ensures !NewTarget(r, d + 1).expanded
    ensures forall edges: set<Edge> :: EdgeOf(from, r, sha) in edges && r.ServiceRef? ==>
              Brought(TargetOf(r, sha), NewTarget(r, d + 1), from, [r], edges, sha)
    ensures TargetOf(r, sha).Service? <==> r.ServiceRef?
  {
    assert r in [r];
  }

  lemma FollowedThen(f: Found, g: Found, h: Found, from: NodeId, init: seq<Ref>, last: Ref, sha: Text -> Text)
    requires Followed(f, g, from, init, sha) && Followed(g, h, from, [last], sha)
    ensures Followed(f, h, from, init + [last], sha)
  {
    hide ComesFrom, Brought;
    forall n | n in h.graph.nodes && n !in f.graph.nodes && n.Service?
      ensures Brought(n, h.graph.nodes[n], from, init + [last], h.graph.edges, sha)
    {
      if n in g.graph.nodes {
        BroughtMore(n, h.graph.nodes[n], from, init, g.graph.edges, init + [last], h.graph.edges, sha);
      } else {
        BroughtMore(n, h.graph.nodes[n], from, [last], h.graph.edges, init + [last], h.graph.edges, sha);
      }
    }
    forall e | e in h.graph.edges && e !in f.graph.edges ensures e.from == from && ComesFrom(e, init + [last], sha) {
      if e in g.graph.edges {
        ComesFromMore(e, init, init + [last], sha);
      } else {
        ComesFromMore(e, [last], init + [last], sha);
      }
    }
    assert last in [last];
  }

  lemma {:induction false} FollowAdds(f: Found, lim: Limits, from: NodeId, d: nat, refs: seq<Ref>, sha: Text -> Text)
    ensures Followed(f, Follow(f, lim, from, d, refs, sha), from, refs, sha)
    decreases |refs|
  {
    hide Followed, FollowOne;
    if refs == [] {
      FollowedNothing(f, from, sha);
    } else {
      var n := |refs| - 1;
      var g := Follow(f, lim, from, d, refs[..n], sha);
      FollowAdds(f, lim, from, d, refs[..n], sha);
      FollowOneAdds(g, lim, from, d, refs[n], sha);
      FollowedThen(f, g, FollowOne(g, lim, from, d, refs[n], sha), from, refs[..n], refs[n], sha);
      assert refs[..n] + [refs[n]] == refs;
    }
  }

  lemma FollowedNothing(f: Found, from: NodeId, sha: Text -> Text)
    ensures Followed(f, f, from, [], sha)
  {
  }

  // --------------------------------------------------------------------- visits

  /** What is learned of an item that is not expanded touches no edge's account. */
  lemma LearnFaithful(s: State, id: Text, n: Node, b: Budget<Query>, done: seq<Text>, d: nat, p: Portal,
                      sha: Text -> Text)
    requires Faithful(s, done, d, p, sha) && Item(id) in s.found.graph.nodes
    requires !s.found.graph.nodes[Item(id)].expanded && !n.expanded
    ensures Faithful(State(SetNode(s.found, Item(id), n), b), done, d, p, sha)
  {
    hide RefsAt, ComesFrom, EdgesOf;
    var g, g' := s.found.graph, SetNode(s.found, Item(id), n).graph;
    forall e | e in g'.edges ensures Explained(e, g'.nodes, p, sha) {
      assert Explained(e, g.nodes, p, sha);
    }
    forall n | n in g'.nodes && n.Service? ensures UrlRead(n, g', p, sha) {
      assert UrlRead(n, g, p, sha);
    }
  }

  lemma ReasonFaithful(s: State, reason: Reason, done: seq<Text>, d: nat, p: Portal, sha: Text -> Text)
    requires Faithful(s, done, d, p, sha)
    ensures Faithful(Reasoned(s, reason), done, d, p, sha)
  {
    hide RefsAt, ComesFrom, EdgesOf, Explained, ReadsUrl;
    var g := s.found.graph;
    forall n | n in g.nodes && n.Service? ensures UrlRead(n, Because(g, reason), p, sha) {
      assert UrlRead(n, g, p, sha);
    }
  }

  lemma SortedRefs(e: Edge, refs: seq<Ref>, sha: Text -> Text)
    requires ComesFrom(e, Sort(RefKey, refs), sha)
    ensures ComesFrom(e, refs, sha)
  {
    SortKeeps(RefKey, refs);
    hide Sort, RefKey;
    ComesFromMore(e, Sort(RefKey, refs), refs, sha);
  }

  lemma OpenExplains(g: Graph, g': Graph, id: Text, refs: seq<Ref>, p: Portal, sha: Text -> Text)
    requires AllExplained(g, p, sha) && Item(id) in g'.nodes && g'.nodes[Item(id)].expanded
    requires refs == RefsAt(p, id, g'.nodes[Item(id)].itemType)
    requires Item(id) in g.nodes && !g.nodes[Item(id)].expanded
    requires forall n :: n in g.nodes && n != Item(id) ==> n in g'.nodes && g'.nodes[n] == g.nodes[n]
    requires forall e :: e in g'.edges && e !in g.edges ==> e.from == Item(id) && ComesFrom(e, Sort(RefKey, refs), sha)
    ensures AllExplained(g', p, sha)
  {
    hide RefsAt, ComesFrom, Sort, RefKey;
    forall e | e in g'.edges ensures Explained(e, g'.nodes, p, sha) {
      if e in g.edges {
        assert Explained(e, g.nodes, p, sha);
      } else {
        SortedRefs(e, refs, sha);
      }
    }
  }

  lemma OpenReports(g: Graph, g': Graph, id: Text, refs: seq<Ref>, p: Portal, sha: Text -> Text)
    requires AllReported(g, p, sha) && Item(id) in g'.nodes && g'.nodes[Item(id)].expanded
    requires refs == RefsAt(p, id, g'.nodes[Item(id)].itemType)
    requires forall n :: n in g.nodes && n != Item(id) ==> n in g'.nodes && g'.nodes[n] == g.nodes[n]
    requires forall n :: n in g'.nodes && n !in g.nodes ==> !g'.nodes[n].expanded
    requires g.edges <= g'.edges && g.reasons <= g'.reasons
    requires Ceiling(g') || forall r :: r in Sort(RefKey, refs) ==> EdgeOf(Item(id), r, sha) in g'.edges
    ensures AllReported(g', p, sha)
  {
    SortKeeps(RefKey, refs);
    hide RefsAt, Sort, RefKey, EdgeOf;
    if !Ceiling(g') {
      forall x | Item(x) in g'.nodes && g'.nodes[Item(x)].expanded
        ensures EdgesOf(x, RefsAt(p, x, g'.nodes[Item(x)].itemType), g'.edges, sha)
      {
        if x == id {
          assert forall r :: r in refs ==> r in Sort(RefKey, refs);
        } else {
          assert EdgesOf(x, RefsAt(p, x, g.nodes[Item(x)].itemType), g.edges, sha);
        }
      }
    }
  }

  lemma OpenReads(g: Graph, g': Graph, id: Text, refs: seq<Ref>, p: Portal, sha: Text -> Text)
    requires UrlsRead(g, p, sha) && Item(id) in g'.nodes && g'.nodes[Item(id)].expanded
    requires refs == RefsAt(p, id, g'.nodes[Item(id)].itemType)
    requires Item(id) in g.nodes && !g.nodes[Item(id)].expanded
    requires forall n :: n in g.nodes && n != Item(id) ==> n in g'.nodes && g'.nodes[n] == g.nodes[n]
    requires g.edges <= g'.edges
    requires forall n :: n in g'.nodes && n !in g.nodes && n.Service? ==>
               Brought(n, g'.nodes[n], Item(id), Sort(RefKey, refs), g'.edges, sha)
    ensures UrlsRead(g', p, sha)
  {
    SortKeeps(RefKey, refs);
    hide RefsAt, Sort, RefKey;
    forall n | n in g'.nodes && n.Service? ensures UrlRead(n, g', p, sha) {
      if n in g.nodes {
        assert UrlRead(n, g, p, sha);
        var e :| e in g.edges && e.to == n && g.nodes[n].url.Some?
          && ReadsUrl(e, g.nodes[n].url.value, g.nodes, p, sha);
        assert ReadsUrl(e, g'.nodes[n].url.value, g'.nodes, p, sha);
      } else {
        var r :| r in Sort(RefKey, refs) && r.ServiceRef? && n == TargetOf(r, sha) && g'.nodes[n].url == Some(r.url)
                 && EdgeOf(Item(id), r, sha) in g'.edges;
        assert ReadsUrl(EdgeOf(Item(id), r, sha), r.url, g'.nodes, p, sha);
      }
    }
  }

  lemma ExpandFaithful(s: State, lim: Limits, p: Portal, sha: Text -> Text, id: Text, d: nat, done: seq<Text>)
    requires Faithful(s, done, d, p, sha) && AtDepth(s.found.graph.nodes, id, d)
    requires !s.found.graph.nodes[Item(id)].expanded && id in done
    ensures var r := Expand(s, lim, p, sha, id, d);
            r.Ok? ==> Faithful(r.value, done, d, p, sha)
  {
    var (b, r) := Request(s.budget, lim.ceilings, DataOf(id), p.data(id));
    if r.Ok? {
      var n := s.found.graph.nodes[Item(id)];
      var refs := RefsIn(r.value, n.itemType);
      assert refs == RefsAt(p, id, n.itemType);
      hide Request, RefsAt, RefsIn, Follow, Sort, RefKey, ComesFrom, Ceiling, AllExplained, AllReported, Explained;
      hide EdgesOf;
      hide UrlsRead, Brought;
      var f := SetNode(s.found, Item(id), n.(expanded := true));
      var f' := Follow(f, lim, Item(id), d, Sort(RefKey, refs), sha);
      FollowAdds(f, lim, Item(id), d, Sort(RefKey, refs), sha);
      OpenExplains(s.found.graph, f'.graph, id, refs, p, sha);
      OpenReports(s.found.graph, f'.graph, id, refs, p, sha);
      OpenReads(s.found.graph, f'.graph, id, refs, p, sha);
    }
  }

  lemma WiderFaithful(s: State, b: Budget<Query>, done: seq<Text>, id: Text, d: nat, p: Portal, sha: Text -> Text)
    requires Faithful(s, done, d, p, sha)
    ensures Faithful(s.(budget := b), done + [id], d, p, sha)
  {
    hide AllExplained, AllReported, UrlsRead;
  }

  lemma ClassifyFaithful(s: State, lim: Limits, p: Portal, sha: Text -> Text, id: Text, d: nat, done: seq<Text>,
                         itemType: Option<Text>)
    requires Faithful(s, done, d, p, sha) && AtDepth(s.found.graph.nodes, id, d) && id in done
    requires !s.found.graph.nodes[Item(id)].expanded
    ensures var r := Classify(s, lim, p, sha, id, d, itemType);
            r.Ok? ==> Faithful(r.value, done, d, p, sha)
  {
    hide IsExpandable, Expand, Faithful;
    var support := if IsExpandable(itemType) then Expandable else Terminal;
    var n := s.found.graph.nodes[Item(id)].(itemType := itemType, support := support);
    var known := s.(found := SetNode(s.found, Item(id), n));
    LearnFaithful(s, id, n, s.budget, done, d, p, sha);
    ReasonFaithful(known, DepthCeiling(id, d), done, d, p, sha);
    ReasonFaithful(known, RequestCeiling, done, d, p, sha);
    ExpandFaithful(known, lim, p, sha, id, d, done);
  }

  lemma VisitFaithful(s: State, lim: Limits, p: Portal, sha: Text -> Text, id: Text, d: nat, done: seq<Text>)
    requires Faithful(s, done, d, p, sha) && AtDepth(s.found.graph.nodes, id, d) && id !in done
    ensures var r := Visit(s, lim, p, sha, id, d);
            r.Ok? ==> Faithful(r.value, done + [id], d, p, sha)
  {
    assert !s.found.graph.nodes[Item(id)].expanded;
    hide Faithful, Classify, Request, Lower;
    WiderFaithful(s, s.budget, done, id, d, p, sha);
    ReasonFaithful(s, RequestCeiling, done + [id], d, p, sha);
    var (b, r) := Request(s.budget, lim.ceilings, MetaOf(id), p.meta(id));
    WiderFaithful(s, b, done, id, d, p, sha);
    if r.Ok? {
      ClassifyFaithful(s.(budget := b), lim, p, sha, id, d, done + [id], r.value.itemType);
    } else {
      LearnFaithful(s, id, s.found.graph.nodes[Item(id)].(support := Missing), b, done + [id], d, p, sha);
    }
  }

  lemma {:induction false} VisitAllFaithful(s: State, lim: Limits, p: Portal, sha: Text -> Text, level: seq<Text>,
                                            d: nat)
    requires Going(s, [], d, lim) && NoRepeats(level) && AllAtDepth(level, s.found.graph.nodes, d)
    requires Present(level, s.found.graph.nodes) && Faithful(s, [], d, p, sha)
    ensures var r := VisitAll(s, lim, p, sha, level, d);
            r.Ok? ==> Faithful(r.value, level, d, p, sha)
    decreases |level|
  {
    hide Visit, Going, Grew, AllAtDepth, NoRepeats, Faithful;
    if level != [] {
      var n := |level| - 1;
      InitOfLevel(level, s.found.graph.nodes, d);
      VisitAllFaithful(s, lim, p, sha, level[..n], d);
      VisitAllKeeps(s, lim, p, sha, level[..n], d);
      var before := VisitAll(s, lim, p, sha, level[..n], d);
      if before.Ok? {
        GrewKeepsLevel(s.found, before.value.found, level, d);
        InitOfLevel(level, before.value.found.graph.nodes, d);
        VisitFaithful(before.value, lim, p, sha, level[n], d, level[..n]);
      }
    }
  }

  lemma DescendFaithful(t: State, level: seq<Text>, d: nat, p: Portal, sha: Text -> Text)
    requires Faithful(t, level, d, p, sha)
    ensures Faithful(Descend(t), [], d + 1, p, sha)
  {
    hide AllExplained, AllReported, UrlsRead;
  }

  lemma {:induction false} WalkFaithful(s: State, lim: Limits, p: Portal, sha: Text -> Text, level: seq<Text>, d: nat)
    requires Ready(s, level, d, lim) && (forall id :: id in level ==> Item(id) in s.found.graph.nodes)
    requires level != [] ==> d <= lim.maxDepth
    requires Faithful(Descend(s), [], d, p, sha)
    ensures var r := Walk(s, lim, p, sha, level, d);
            r.Ok? ==> exists last :: Faithful(r.value, [], last, p, sha)
    decreases lim.maxDepth + 1 - d
  {
    hide Faithful;
    if level != [] {
      SortKeeps(ItemKey, level);
      var sorted := Sort(ItemKey, level);
      SortedNoRepeats(level);
      hide Sort, VisitAll, Going, Grew;
      VisitAllKeeps(Descend(s), lim, p, sha, sorted, d);
      VisitAllFaithful(Descend(s), lim, p, sha, sorted, d);
      var r := VisitAll(Descend(s), lim, p, sha, sorted, d);
      if r.Ok? {
        LevelDone(s, r.value, level, sorted, d, lim);
        NextLevel(r.value, sorted, d, lim);
        DescendFaithful(r.value, sorted, d, p, sha);
        WalkFaithful(r.value, lim, p, sha, r.value.found.next, d + 1);
      }
    }
  }

  lemma RootsFaithful(f: Found, ids: seq<Text>, b: Budget<Query>, p: Portal, sha: Text -> Text)
    requires RootGraph(f, ids)
    ensures Faithful(State(f, b), [], 0, p, sha)
  {
    hide EdgesOf, Explained;
  }

  /** The edges of a completed trace are references of its expanded items; unless a
      node or edge ceiling was met, they are all of them. */
  lemma EdgesAreReferences(p: Portal, roots: seq<Text>, lim: Limits, sha: Text -> Text)
    requires Trace(p, roots, lim, sha).Ok?
    ensures var g := Trace(p, roots, lim, sha).value.found.graph;
            && AllExplained(g, p, sha) && AllReported(g, p, sha) && UrlsRead(g, p, sha)
  {
    var ids := CanonicalRoots(roots);
    CanonicalUnique(Same, LowerAll(roots), LowerAll(roots));
    StrictNoRepeats(Same, ids);
    RootsReady(roots, lim);
    RootNodes(ids, lim);
    hide CanonicalRoots, AddRoots, RootGraph, Ready, AllExplained, AllReported, UrlsRead;
    var start := AddRoots(ids, lim);
    var s := State(start, Budget(0, 0, [], 0));
    RootsFaithful(Descend(s).found.(next := start.next), start.next, s.budget, p, sha);
    WalkFaithful(s, lim, p, sha, start.next, 0);
  }

  // ------------------------------------------------------------ service identity

  /** Every reported edge leads to a node of the very URL it was read from. */
  ghost predicate OwnUrls(g: Graph, p: Portal, sha: Text -> Text) {
    forall e, url {:trigger ReadsUrl(e, url, g.nodes, p, sha)} ::
      e in g.edges && ReadsUrl(e, url, g.nodes, p, sha) ==> e.to in g.nodes && g.nodes[e.to].url == Some(url)
  }

  /** No two URLs read at reported edges have one hash. */
  ghost predicate NoClash(g: Graph, p: Portal, sha: Text -> Text) {
    forall e, url, e', url' {:trigger ReadsUrl(e, url, g.nodes, p, sha), ReadsUrl(e', url', g.nodes, p, sha)} ::
      e in g.edges && e' in g.edges && ReadsUrl(e, url, g.nodes, p, sha) && ReadsUrl(e', url', g.nodes, p, sha) ==>
        (sha(url) == sha(url') ==> url == url')
  }

  /** In a completed trace every service edge leads to a node of its own URL, exactly
      when no two of the URLs read at its edges have one hash. */
  lemma ServiceEdgesKeepUrls(p: Portal, roots: seq<Text>, lim: Limits, sha: Text -> Text)
    requires Trace(p, roots, lim, sha).Ok?
    ensures var g := Trace(p, roots, lim, sha).value.found.graph;
            OwnUrls(g, p, sha) <==> NoClash(g, p, sha)
  {
    EdgesAreReferences(p, roots, lim, sha);
    EdgesConnect(p, roots, lim, sha);
    var g := Trace(p, roots, lim, sha).value.found.graph;
    hide Trace, AllExplained, AllReported, RetainedRoots, HasParent, RefsAt;
    if NoClash(g, p, sha) {
      forall e, url | e in g.edges && ReadsUrl(e, url, g.nodes, p, sha) ensures e.to in g.nodes
        && g.nodes[e.to].url == Some(url) {
        assert UrlRead(e.to, g, p, sha);
        var e' :| e' in g.edges && e'.to == e.to && g.nodes[e.to].url.Some?
          && ReadsUrl(e', g.nodes[e.to].url.value, g.nodes, p, sha);
      }
    }
  }

  /** No two service references anywhere in the portal's data have different URLs and
      one hash. */
  ghost predicate NoClashInData(p: Portal, sha: Text -> Text) {
    forall id, itemType, r, id', itemType', r' {:trigger r in RefsAt(p, id, itemType),
                                                r' in RefsAt(p, id', itemType')} ::
      (r in RefsAt(p, id, itemType) && r' in RefsAt(p, id', itemType')) ==>
        (r.ServiceRef? && r'.ServiceRef? && sha(r.url) == sha(r'.url) ==> r.url == r'.url)
  }

  /** So the portal's data alone can rule a mix-up out. */
  lemma DataKeepsUrls(p: Portal, roots: seq<Text>, lim: Limits, sha: Text -> Text)
    requires Trace(p, roots, lim, sha).Ok? && NoClashInData(p, sha)
    ensures OwnUrls(Trace(p, roots, lim, sha).value.found.graph, p, sha)
  {
    var g := Trace(p, roots, lim, sha).value.found.graph;
    ServiceEdgesKeepUrls(p, roots, lim, sha);
    hide Trace, RefsAt;
    forall e, url, e', url' | e in g.edges && e' in g.edges && ReadsUrl(e, url, g.nodes, p, sha)
                              && ReadsUrl(e', url', g.nodes, p, sha) && sha(url) == sha(url')
      ensures url == url'
    {
      assert ServiceRef(url, e.rel, e.loc).url == url && ServiceRef(url', e'.rel, e'.loc).url == url';
    }
  }

  /** Two references with one target and one edge: the first brings both. */
  lemma FollowTwins(f: Found, lim: Limits, from: NodeId, d: nat, a: Ref, b: Ref, sha: Text -> Text)
    requires a.ServiceRef? && b.ServiceRef? && EdgeOf(from, a, sha) == EdgeOf(from, b, sha)
    requires TargetOf(a, sha) !in f.graph.nodes
    requires |f.graph.nodes| < lim.maxNodes && |f.graph.edges| < lim.maxEdges
    ensures var h := Follow(f, lim, from, d, [a, b], sha);
            && h.graph.nodes == f.graph.nodes[TargetOf(a, sha) := NewTarget(a, d + 1)]
            && EdgeOf(from, a, sha) in h.graph.edges && h.next == f.next
  {
    var refs := [a, b];
    assert refs[..1] == [a] && [a][..0] == [];
    assert Follow(f, lim, from, d, [a], sha) == FollowOne(f, lim, from, d, a, sha);
  }

  /** Two URLs that one web map refers to in one place, and the size of each answer. */
  datatype Twins = Twins(id: Text, u: Text, v: Text, rel: Text, loc: Text, bytes: nat)

  function RefsOf(t: Twins): seq<Ref> {
    [ServiceRef(t.u, t.rel, t.loc), ServiceRef(t.v, t.rel, t.loc)]
  }

  /** A portal that has this web map. */
  function PortalOf(t: Twins): Portal {
    Portal(_ => Received(t.bytes, 200, true, Json(Meta(Some(t.id), Some(Ascii("Web Map"))))),
           _ => Received(t.bytes, 200, true, Json(Content([], RefsOf(t)))))
  }

  function EdgeOfBoth(t: Twins, sha: Text -> Text): Edge {
    Edge(Item(t.id), Service(sha(t.u)), t.rel, t.loc)
  }

  /** The ceilings leave room for one item, one service, an edge and two answers. */
  predicate RoomFor(lim: Limits, t: Twins) {
    && lim.maxDepth >= 1 && lim.maxNodes >= 2 && lim.maxEdges >= 1 && lim.ceilings.maxRequests >= 2
    && 0 < t.bytes <= lim.ceilings.maxResponseBytes && 2 * t.bytes <= lim.ceilings.maxTotalBytes
  }

  ghost predicate BothRead(s: State, t: Twins, sha: Text -> Text) {
    && s.found.next == [] && s.budget.successes > 0 && s.budget.evidence != []
    && EdgeOfBoth(t, sha) in s.found.graph.edges
    && ReadsUrl(EdgeOfBoth(t, sha), t.u, s.found.graph.nodes, PortalOf(t), sha)
    && ReadsUrl(EdgeOfBoth(t, sha), t.v, s.found.graph.nodes, PortalOf(t), sha)
  }

  lemma TwinsExpanded(s: State, lim: Limits, t: Twins, sha: Text -> Text)
    requires sha(t.u) == sha(t.v) && RoomFor(lim, t) && s.budget.bytesUsed == t.bytes && s.found.next == []
    requires s.found.graph.nodes.Keys == {Item(t.id)} && s.found.graph.edges == {}
    requires s.found.graph.nodes[Item(t.id)].itemType == Some(Ascii("Web Map"))
    ensures Expand(s, lim, PortalOf(t), sha, t.id, 0).Ok?
    ensures BothRead(Expand(s, lim, PortalOf(t), sha, t.id, 0).value, t, sha)
  {
    MapIsNoApplication();
    var a, b := RefsOf(t)[0], RefsOf(t)[1];
    hide Ascii, RefKey, Follow, Request, Sort, TargetOf, EdgeOf, RoomFor, ReadsUrl, EdgeOfBoth;
    DataArrives(s.budget, lim, t);
    SortTwo(RefKey, a, b);
    RoomForBoth(lim, t);
    var f := SetNode(s.found, Item(t.id), s.found.graph.nodes[Item(t.id)].(expanded := true));
    assert f.graph.nodes.Keys == {Item(t.id)} && |f.graph.nodes.Keys| == |f.graph.nodes|;
    SameTwins(t, sha);
    FollowTwins(f, lim, Item(t.id), 0, a, b, sha);
    FollowTwins(f, lim, Item(t.id), 0, b, a, sha);
    TwinsRead(Expand(s, lim, PortalOf(t), sha, t.id, 0).value.found.graph.nodes, t, sha);
  }

  lemma TwinsRead(nodes: Nodes, t: Twins, sha: Text -> Text)
    requires sha(t.u) == sha(t.v) && Item(t.id) in nodes && nodes[Item(t.id)].expanded
    requires nodes[Item(t.id)].itemType == Some(Ascii("Web Map"))
    ensures ReadsUrl(EdgeOfBoth(t, sha), t.u, nodes, PortalOf(t), sha)
    ensures ReadsUrl(EdgeOfBoth(t, sha), t.v, nodes, PortalOf(t), sha)
  {
    MapIsNoApplication();
    hide Ascii;
    assert RefsOf(t)[0] in RefsOf(t) && RefsOf(t)[1] in RefsOf(t);
  }

  lemma RoomForBoth(lim: Limits, t: Twins)
    requires RoomFor(lim, t)
    ensures lim.maxNodes >= 2 && lim.maxEdges >= 1
  {
  }

  lemma DataArrives(b: Budget<Query>, lim: Limits, t: Twins)
    requires RoomFor(lim, t) && b.bytesUsed == t.bytes
    ensures var (b', m) := Request(b, lim.ceilings, DataOf(t.id), PortalOf(t).data(t.id));
            m == Ok(Content([], RefsOf(t))) && b'.successes > 0 && b'.evidence != []
  {
    hide RefsOf;
  }

  lemma SameTwins(t: Twins, sha: Text -> Text)
    requires sha(t.u) == sha(t.v)
    ensures var a, b := RefsOf(t)[0], RefsOf(t)[1];
            && EdgeOf(Item(t.id), a, sha) == EdgeOf(Item(t.id), b, sha) == EdgeOfBoth(t, sha)
            && TargetOf(a, sha) == TargetOf(b, sha) == Service(sha(t.u))
  {
  }

  lemma MapIsNoApplication()
    ensures Ascii("Web Map") != Ascii("Web Mapping Application")
  {
    assert |Ascii("Web Map")| == 7 && |Ascii("Web Mapping Application")| == 23;
  }

  lemma SortTwo(key: Ref -> Text, a: Ref, b: Ref)
    ensures Sort(key, [a, b]) == [a, b] || Sort(key, [a, b]) == [b, a]
  {
    assert [a, b][1..] == [b] && [b][1..] == [];
    assert Sort(key, [b]) == [b];
    assert Sort(key, [a, b]) == Insert(key, a, [b]);
    assert Insert(key, a, []) == [a];
  }

  lemma OneRoot(id: Text)
    requires Lower(id) == id
    ensures CanonicalRoots([id]) == [id]
  {
    assert LowerAll([id]) == [id];
    assert [id][..0] == [] && [id][1..] == [];
    assert Unique<Text>([id]) == [id];
    assert Sort(Same, [id]) == Insert(Same, id, []) == [id];
  }

  function OnlyRoot(id: Text): Found {
    Found(Graph(map[Item(id) := NewItem(0, true)], {}, {}), [id])
  }

  lemma OneRootAdded(id: Text, lim: Limits)
    requires lim.maxNodes > 0
    ensures AddRoots([id], lim) == OnlyRoot(id)
  {
    assert [id][..0] == [];
    assert AddRoots([id], lim) == AddRoot(AddRoots([], lim), lim, id);
  }

  lemma OneVisit(s: State, lim: Limits, p: Portal, sha: Text -> Text, id: Text)
    requires Item(id) in s.found.graph.nodes
    ensures VisitAll(s, lim, p, sha, [id], 0) == Visit(s, lim, p, sha, id, 0)
  {
    hide Visit;
    assert [id][..0] == [];
    assert VisitAll(s, lim, p, sha, [], 0) == Ok(s);
  }

  lemma RootVisited(s: State, lim: Limits, t: Twins, sha: Text -> Text)
    requires s == Descend(State(OnlyRoot(t.id), Budget(0, 0, [], 0)))
    requires sha(t.u) == sha(t.v) && RoomFor(lim, t) && Lower(t.id) == t.id
    ensures Visit(s, lim, PortalOf(t), sha, t.id, 0).Ok?
    ensures BothRead(Visit(s, lim, PortalOf(t), sha, t.id, 0).value, t, sha)
  {
    var p := PortalOf(t);
    var (b, m) := Request(s.budget, lim.ceilings, MetaOf(t.id), p.meta(t.id));
    var n := NewItem(0, true).(itemType := Some(Ascii("Web Map")), support := Expandable);
    var known := State(SetNode(s.found, Item(t.id), n), b);
    hide Expand, BothRead, Ascii, Lower;
    assert b.requestCount == 1 && b.bytesUsed == t.bytes && m == Ok(Meta(Some(t.id), Some(Ascii("Web Map"))));
    hide Request;
    assert Visit(s, lim, p, sha, t.id, 0) == Expand(known, lim, p, sha, t.id, 0);
    TwinsExpanded(known, lim, t, sha);
  }

  /** The trace of one root that leads to no other item is the visit of that root. */
  lemma OneLevel(lim: Limits, p: Portal, sha: Text -> Text, id: Text)
    requires Lower(id) == id && lim.maxNodes > 0
    requires var r := Visit(Descend(State(OnlyRoot(id), Budget(0, 0, [], 0))), lim, p, sha, id, 0);
             r.Ok? && r.value.found.next == [] && r.value.budget.successes > 0 && r.value.budget.evidence != []
    ensures Trace(p, [id], lim, sha) == Visit(Descend(State(OnlyRoot(id), Budget(0, 0, [], 0))), lim, p, sha, id, 0)
  {
    OneRoot(id);
    OneRootAdded(id, lim);
    var start := State(OnlyRoot(id), Budget(0, 0, [], 0));
    assert Sort(ItemKey, [id]) == [id] by { assert [id][1..] == []; }
    OneVisit(Descend(start), lim, p, sha, id);
    hide Visit, VisitAll, CanonicalRoots, AddRoots, Sort, Lower;
    var visited := Visit(Descend(start), lim, p, sha, id, 0).value;
    WalkEnds(visited, lim, p, sha);
    WalkOnce(start, lim, p, sha, id);
  }

  lemma WalkEnds(s: State, lim: Limits, p: Portal, sha: Text -> Text)
    requires s.found.next == []
    ensures Walk(s, lim, p, sha, [], 1) == Ok(s)
  {
    assert Descend(s) == s;
  }

  lemma WalkOnce(s: State, lim: Limits, p: Portal, sha: Text -> Text, id: Text)
    requires Item(id) in s.found.graph.nodes && Sort(ItemKey, [id]) == [id]
    requires VisitAll(Descend(s), lim, p, sha, [id], 0).Ok?
    requires VisitAll(Descend(s), lim, p, sha, [id], 0).value.found.next == []
    ensures Walk(s, lim, p, sha, [id], 0) == Walk(VisitAll(Descend(s), lim, p, sha, [id], 0).value, lim, p, sha, [], 1)
  {
    hide VisitAll, Sort;
  }

  /** For any two URLs with one hash, any web map that refers to both in one place, and
      any ceilings with room for it: the trace comes to its end without a failure and
      reports the edge of both, although one URL has the other's node. The collision
      check of the source is never reached. */
  lemma CollidingUrlsMerge(sha: Text -> Text, t: Twins, lim: Limits)
    requires t.u != t.v && sha(t.u) == sha(t.v) && Lower(t.id) == t.id && RoomFor(lim, t)
    ensures var r := Trace(PortalOf(t), [t.id], lim, sha);
            r.Ok? && !OwnUrls(r.value.found.graph, PortalOf(t), sha)
  {
    RootVisited(Descend(State(OnlyRoot(t.id), Budget(0, 0, [], 0))), lim, t, sha);
    hide Visit, ReadsUrl, Lower, Trace;
    OneLevel(lim, PortalOf(t), sha, t.id);
    hide PortalOf, EdgeOfBoth, OnlyRoot;
  }
}
