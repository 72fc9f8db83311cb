/** What a whole trace keeps true: its graph's shape, its request accounting, and
    that it asks for every item at most once. */
module TraceRun {
  import opened Wrappers
  import opened ArcGisRest
  import opened JsonText
  import opened Sorting
  import opened TraceModel
  import opened TraceShape

  // ------------------------------------------------------------------ every step

  /** Only visited items were asked about. */
  ghost predicate AskedVisited(evidence: seq<Evidence<Query>>, nodes: Nodes, done: seq<Text>, d: nat) {
    forall e :: e in evidence ==>
      var n := Item(e.query.item);
      n in nodes && (nodes[n].depth < d || (nodes[n].depth == d && e.query.item in done))
  }

  /** Every visited item was asked about, unless the request ceiling was met. */
  ghost predicate VisitedAsked(evidence: seq<Evidence<Query>>, nodes: Nodes, done: seq<Text>, d: nat) {
    forall id {:trigger Asked(evidence, MetaOf(id))} ::
      Item(id) in nodes && (nodes[Item(id)].depth < d || id in done) ==> Asked(evidence, MetaOf(id))
  }

  ghost predicate Going(s: State, done: seq<Text>, d: nat, lim: Limits) {
    && Shape(s.found, d, lim) && BudgetFits(s.budget, lim.ceilings)
    && AskedVisited(s.budget.evidence, s.found.graph.nodes, done, d)
    && (RequestCeiling in s.found.graph.reasons || VisitedAsked(s.budget.evidence, s.found.graph.nodes, done, d))
  }

  ghost predicate AtDepth(nodes: Nodes, id: Text, d: nat) {
    Item(id) in nodes && nodes[Item(id)].depth == d
  }

  lemma AskedMore(evidence: seq<Evidence<Query>>, e: Evidence<Query>, q: Query)
    ensures Asked(evidence + [e], q) <==> Asked(evidence, q) || e.query == q
  {
    if Asked(evidence, q) {
      var x :| x in evidence && x.query == q;
      assert x in evidence + [e];
    }
    if e.query == q {
      assert e in evidence + [e];
    }
  }

  /** One more record, about an item of the level. */
  lemma AskKeeps(evidence: seq<Evidence<Query>>, e: Evidence<Query>, nodes: Nodes, done: seq<Text>, d: nat)
    requires AskedVisited(evidence, nodes, done, d) && AtDepth(nodes, e.query.item, d) && e.query.item in done
    ensures AskedVisited(evidence + [e], nodes, done, d)
    ensures VisitedAsked(evidence, nodes, done, d) ==> VisitedAsked(evidence + [e], nodes, done, d)
  {
    forall id ensures Asked(evidence, MetaOf(id)) ==> Asked(evidence + [e], MetaOf(id)) {
      AskedMore(evidence, e, MetaOf(id));
    }
  }

  /** More nodes below the level change nothing for those already visited. */
  lemma GrowthKeepsAsked(evidence: seq<Evidence<Query>>, nodes: Nodes, nodes': Nodes, done: seq<Text>, d: nat)
    requires Kept(nodes, nodes') && forall n :: n in nodes' && n !in nodes ==> nodes'[n].depth > d
    requires forall id :: id in done ==> Item(id) in nodes
    ensures AskedVisited(evidence, nodes, done, d) ==> AskedVisited(evidence, nodes', done, d)
    ensures VisitedAsked(evidence, nodes, done, d) ==> VisitedAsked(evidence, nodes', done, d)
  {
  }

  lemma GrewTransitive(a: Found, b: Found, c: Found, d: nat)
    requires Grew(a, b, d) && Grew(b, c, d)
    ensures Grew(a, c, d)
  {
  }

  lemma GrewSame(f: Found, d: nat)
    ensures Grew(f, f, d)
  {
  }

  ghost predicate Present(done: seq<Text>, nodes: Nodes) {
    forall id :: id in done ==> Item(id) in nodes
  }

  /** The graph grew below the level, and the budget stayed. */
  lemma GrowthKeeps(s: State, f: Found, done: seq<Text>, d: nat, lim: Limits)
    requires Going(s, done, d, lim) && Shape(f, d, lim) && Grew(s.found, f, d) && Present(done, s.found.graph.nodes)
    ensures Going(State(f, s.budget), done, d, lim)
  {
    GrowthKeepsAsked(s.budget.evidence, s.found.graph.nodes, f.graph.nodes, done, d);
    hide Shape, BudgetFits, AskedVisited, VisitedAsked;
  }

  /** The question about an item of the level was answered, and the graph stayed. */
  lemma AnswerKeeps(s: State, b: Budget<Query>, e: Evidence<Query>, done: seq<Text>, d: nat, lim: Limits)
    requires Going(s, done, d, lim) && BudgetFits(b, lim.ceilings) && b.evidence == s.budget.evidence + [e]
    requires e.query.item in done && AtDepth(s.found.graph.nodes, e.query.item, d)
    ensures Going(State(s.found, b), done, d, lim)
  {
    AskKeeps(s.budget.evidence, e, s.found.graph.nodes, done, d);
    hide Shape, BudgetFits, AskedVisited, VisitedAsked;
  }

  /** The next item of the level was asked about. */
  lemma FirstAnswerKeeps(s: State, b: Budget<Query>, e: Evidence<Query>, done: seq<Text>, id: Text, d: nat, lim: Limits)
    requires Going(s, done, d, lim) && BudgetFits(b, lim.ceilings) && b.evidence == s.budget.evidence + [e]
    requires e.query == MetaOf(id) && AtDepth(s.found.graph.nodes, id, d)
    ensures Going(State(s.found, b), done + [id], d, lim)
  {
    var ev, nodes := s.budget.evidence, s.found.graph.nodes;
    if VisitedAsked(ev, nodes, done, d) {
      forall x | Item(x) in nodes && (nodes[Item(x)].depth < d || x in done + [id])
        ensures Asked(b.evidence, MetaOf(x))
      {
        AskedMore(ev, e, MetaOf(x));
        assert x == id || Asked(ev, MetaOf(x));
      }
    }
    assert AskedVisited(b.evidence, nodes, done + [id], d);
    hide Shape, BudgetFits, AskedVisited;
  }

  /** The next item of the level was passed over at the request ceiling. */
  lemma SkipKeeps(s: State, done: seq<Text>, id: Text, d: nat, lim: Limits)
    requires Going(s, done, d, lim)
    ensures Going(Reasoned(s, RequestCeiling), done + [id], d, lim)
    ensures Grew(s.found, Reasoned(s, RequestCeiling).found, d)
  {
    var t := Reasoned(s, RequestCeiling);
    SameKeeps(s.found, t.found, d, lim);
    assert AskedVisited(t.budget.evidence, t.found.graph.nodes, done + [id], d);
    hide Shape, BudgetFits, AskedVisited, VisitedAsked, Grew;
  }

  lemma ReasonKeeps(s: State, reason: Reason, done: seq<Text>, d: nat, lim: Limits)
    requires Going(s, done, d, lim) && Present(done, s.found.graph.nodes)
    ensures Going(Reasoned(s, reason), done, d, lim) && Grew(s.found, Reasoned(s, reason).found, d)
  {
    var t := Reasoned(s, reason);
    SameKeeps(s.found, t.found, d, lim);
    GrowthKeeps(s, t.found, done, d, lim);
  }

  lemma SetNodeKeeps(s: State, id: Text, n: Node, done: seq<Text>, d: nat, lim: Limits)
    requires Going(s, done, d, lim) && Present(done, s.found.graph.nodes) && Item(id) in s.found.graph.nodes
    requires n.depth == s.found.graph.nodes[Item(id)].depth && n.isRoot == s.found.graph.nodes[Item(id)].isRoot
    ensures Going(s.(found := SetNode(s.found, Item(id), n)), done, d, lim)
    ensures Grew(s.found, SetNode(s.found, Item(id), n), d)
  {
    SetKeeps(s.found, d, lim, Item(id), n);
    GrowthKeeps(s, SetNode(s.found, Item(id), n), done, d, lim);
  }

  lemma ExpandKeeps(s: State, lim: Limits, p: Portal, sha: Text -> Text, id: Text, d: nat, done: seq<Text>)
    requires Going(s, done, d, lim) && id in done && Present(done, s.found.graph.nodes)
    requires AtDepth(s.found.graph.nodes, id, d) && d < lim.maxDepth
    requires s.budget.requestCount < lim.ceilings.maxRequests && !Asked(s.budget.evidence, DataOf(id))
    ensures var r := Expand(s, lim, p, sha, id, d);
            r.Ok? ==> Going(r.value, done, d, lim) && Grew(s.found, r.value.found, d)
  {
    RequestKeeps(s.budget, lim.ceilings, DataOf(id), p.data(id));
    hide Request, Sort, Tolerated, BudgetFits, AskedVisited, VisitedAsked, Follow, RefsIn, Grew;
    var (b, r) := Request(s.budget, lim.ceilings, DataOf(id), p.data(id));
    if Expand(s, lim, p, sha, id, d).Ok? {
      var e := Evidence(DataOf(id), BytesOf(p.data(id)));
      AnswerKeeps(s, b, e, done, d, lim);
      GrewSame(s.found, d);
      if r.Ok? {
        var n := s.found.graph.nodes[Item(id)];
        SetNodeKeeps(State(s.found, b), id, n.(expanded := true), done, d, lim);
        var f := SetNode(s.found, Item(id), n.(expanded := true));
        var refs := Sort(RefKey, RefsIn(r.value, n.itemType));
        FollowKeeps(f, lim, Item(id), d, refs, sha);
        GrowthKeeps(State(f, b), Follow(f, lim, Item(id), d, refs, sha), done, d, lim);
        GrewTransitive(s.found, f, Follow(f, lim, Item(id), d, refs, sha), d);
      }
    }
  }

  lemma ClassifyKeeps(s: State, lim: Limits, p: Portal, sha: Text -> Text, id: Text, d: nat, done: seq<Text>,
                      itemType: Option<Text>)
    requires Going(s, done, d, lim) && id in done && Present(done, s.found.graph.nodes)
    requires AtDepth(s.found.graph.nodes, id, d) && !Asked(s.budget.evidence, DataOf(id))
    ensures var r := Classify(s, lim, p, sha, id, d, itemType);
            r.Ok? ==> Going(r.value, done, d, lim) && Grew(s.found, r.value.found, d)
  {
    hide IsExpandable, Expand, Going, Grew, Asked;
    var support := if IsExpandable(itemType) then Expandable else Terminal;
    var n := s.found.graph.nodes[Item(id)].(itemType := itemType, support := support);
    var known := s.(found := SetNode(s.found, Item(id), n));
    SetNodeKeeps(s, id, n, done, d, lim);
    if !IsExpandable(itemType) {
    } else if d >= lim.maxDepth || s.budget.requestCount >= lim.ceilings.maxRequests {
      var reason := if d >= lim.maxDepth then DepthCeiling(id, d) else RequestCeiling;
      ReasonKeeps(known, reason, done, d, lim);
      GrewTransitive(s.found, known.found, Reasoned(known, reason).found, d);
    } else {
      ExpandKeeps(known, lim, p, sha, id, d, done);
      var r := Expand(known, lim, p, sha, id, d);
      if r.Ok? {
        GrewTransitive(s.found, known.found, r.value.found, d);
      }
    }
  }

  lemma NotAskedYet(s: State, done: seq<Text>, id: Text, d: nat, lim: Limits, q: Query)
    requires Going(s, done, d, lim) && id !in done && AtDepth(s.found.graph.nodes, id, d) && q.item == id
    ensures !Asked(s.budget.evidence, q)
  {
  }

  /** Visiting one more item of the level keeps everything. */
  lemma VisitKeeps(s: State, lim: Limits, p: Portal, sha: Text -> Text, id: Text, d: nat, done: seq<Text>)
    requires Going(s, done, d, lim) && id !in done && Present(done, s.found.graph.nodes)
    requires AtDepth(s.found.graph.nodes, id, d)
    ensures var r := Visit(s, lim, p, sha, id, d);
            r.Ok? ==> Going(r.value, done + [id], d, lim) && Grew(s.found, r.value.found, d)
  {
    if s.budget.requestCount >= lim.ceilings.maxRequests {
      SkipKeeps(s, done, id, d, lim);
    } else {
      NotAskedYet(s, done, id, d, lim, MetaOf(id));
      NotAskedYet(s, done, id, d, lim, DataOf(id));
      RequestKeeps(s.budget, lim.ceilings, MetaOf(id), p.meta(id));
      hide Request, Classify, Lower, Tolerated, Grew, BudgetFits, AskedVisited, VisitedAsked;
      var (b, r) := Request(s.budget, lim.ceilings, MetaOf(id), p.meta(id));
      if Visit(s, lim, p, sha, id, d).Ok? {
        var e := Evidence(MetaOf(id), BytesOf(p.meta(id)));
        FirstAnswerKeeps(s, b, e, done, id, d, lim);
        AskedMore(s.budget.evidence, e, DataOf(id));
        if r.Ok? {
          ClassifyKeeps(s.(budget := b), lim, p, sha, id, d, done + [id], r.value.itemType);
        } else {
          SetNodeKeeps(State(s.found, b), id, s.found.graph.nodes[Item(id)].(support := Missing), done + [id], d, lim);
        }
      }
    }
  }

  ghost predicate AllAtDepth(level: seq<Text>, nodes: Nodes, d: nat) {
    forall id :: id in level ==> AtDepth(nodes, id, d)
  }

  lemma GrewKeepsLevel(f: Found, f': Found, level: seq<Text>, d: nat)
    requires Grew(f, f', d) && AllAtDepth(level, f.graph.nodes, d)
    ensures AllAtDepth(level, f'.graph.nodes, d)
  {
  }

  lemma {:induction false} VisitAllKeeps(s: State, lim: Limits, p: Portal, sha: Text -> Text, level: seq<Text>, d: nat)
    requires Going(s, [], d, lim) && NoRepeats(level) && AllAtDepth(level, s.found.graph.nodes, d)
    requires Present(level, s.found.graph.nodes)
    ensures var r := VisitAll(s, lim, p, sha, level, d);
            r.Ok? ==> Going(r.value, level, d, lim) && Grew(s.found, r.value.found, d)
    decreases |level|
  {
    hide Visit, Going, Grew, AllAtDepth, NoRepeats;
    if level == [] {
      GrewSame(s.found, d);
    } else {
      var n := |level| - 1;
      InitOfLevel(level, s.found.graph.nodes, d);
      VisitAllKeeps(s, lim, p, sha, level[..n], d);
      var before := VisitAll(s, lim, p, sha, level[..n], d);
      if before.Ok? {
        GrewKeepsLevel(s.found, before.value.found, level, d);
        InitOfLevel(level, before.value.found.graph.nodes, d);
        VisitKeeps(before.value, lim, p, sha, level[n], d, level[..n]);
        var r := VisitAll(s, lim, p, sha, level, d);
        if r.Ok? {
          GrewTransitive(s.found, before.value.found, r.value.found, d);
        }
      }
    }
  }

  lemma InitOfLevel(level: seq<Text>, nodes: Nodes, d: nat)
    requires NoRepeats(level) && AllAtDepth(level, nodes, d) && level != []
    ensures var n := |level| - 1;
            && NoRepeats(level[..n]) && AllAtDepth(level[..n], nodes, d) && Present(level[..n], nodes)
            && AtDepth(nodes, level[n], d) && level[n] !in level[..n] && level[..n] + [level[n]] == level
  {
    assert level[|level| - 1] in level;
  }

  // ----------------------------------------------------------------- level by level

  /** Before a level: its items are exactly those at its depth, and nothing below. */
  ghost predicate Ready(s: State, level: seq<Text>, d: nat, lim: Limits) {
    Going(Descend(s), [], d, lim) && NoRepeats(level) && forall id :: id in level <==>
      AtDepth(s.found.graph.nodes, id, d)
  }

  /** After a level, the items found on the way are ready to be the next one. */
  lemma NextLevel(t: State, level: seq<Text>, d: nat, lim: Limits)
    requires Going(t, level, d, lim) && forall id :: id in level <==> AtDepth(t.found.graph.nodes, id, d)
    ensures Ready(t, t.found.next, d + 1, lim)
  {
    var nodes, ev := t.found.graph.nodes, t.budget.evidence;
    assert NextFits([], nodes, d + 1);
    assert AskedVisited(ev, nodes, [], d + 1);
    if VisitedAsked(ev, nodes, level, d) {
      forall id | Item(id) in nodes && nodes[Item(id)].depth < d + 1 ensures Asked(ev, MetaOf(id)) {
        assert id in level <==> AtDepth(nodes, id, d);
      }
    }
    hide BudgetFits, AskedVisited, NextFits, HasParent;
  }

  /** The level that has been walked, in its own order. */
  lemma LevelDone(s: State, t: State, level: seq<Text>, sorted: seq<Text>, d: nat, lim: Limits)
    requires Ready(s, level, d, lim) && SameElements(sorted, level)
    requires Going(t, sorted, d, lim) && Grew(s.found, t.found, d)
    ensures forall id :: id in sorted <==> AtDepth(t.found.graph.nodes, id, d)
  {
    forall id ensures id in sorted <==> AtDepth(t.found.graph.nodes, id, d) {
      assert id in sorted <==> id in level;
      assert id in level <==> AtDepth(s.found.graph.nodes, id, d);
    }
  }

  /** A finished walk: no item is left to visit. */
  ghost predicate Finished(s: State, d: nat, lim: Limits) {
    Going(s, [], d, lim) && s.found.next == [] && forall id :: !AtDepth(s.found.graph.nodes, id, d)
  }

  ghost predicate RootsAre(roots: seq<Text>, nodes: Nodes) {
    forall n :: n in nodes && nodes[n].isRoot <==> n.Item? && n.id in roots
  }

  lemma RootsStay(s: State, t: State, level: seq<Text>, d: nat, lim: Limits, roots: seq<Text>)
    requires RootsAre(roots, s.found.graph.nodes) && Grew(s.found, t.found, d) && Going(t, level, d, lim)
    ensures RootsAre(roots, t.found.graph.nodes)
  {
    var nodes, nodes' := s.found.graph.nodes, t.found.graph.nodes;
    forall n ensures n in nodes' && nodes'[n].isRoot <==> n.Item? && n.id in roots {
      assert n in nodes && nodes[n].isRoot <==> n.Item? && n.id in roots;
    }
  }

  lemma {:induction false} WalkKeeps(s: State, lim: Limits, p: Portal, sha: Text -> Text, level: seq<Text>, d: nat,
                                       roots: seq<Text>)
    returns (last: nat)
    requires Ready(s, level, d, lim) && (forall id :: id in level ==> Item(id) in s.found.graph.nodes)
    requires level != [] ==> d <= lim.maxDepth
    requires RootsAre(roots, s.found.graph.nodes)
    ensures var r := Walk(s, lim, p, sha, level, d);
            r.Ok? ==> Finished(r.value, last, lim) && RootsAre(roots, r.value.found.graph.nodes)
    decreases lim.maxDepth + 1 - d
  {
    last := d;
    if level != [] {
      SortKeeps(ItemKey, level);
      var sorted := Sort(ItemKey, level);
      SortedNoRepeats(level);
      hide Sort, VisitAll, Going, Grew, RootsAre;
      VisitAllKeeps(Descend(s), lim, p, sha, sorted, d);
      var r := VisitAll(Descend(s), lim, p, sha, sorted, d);
      if r.Ok? {
        LevelDone(s, r.value, level, sorted, d, lim);
        NextLevel(r.value, sorted, d, lim);
        RootsStay(Descend(s), r.value, sorted, d, lim, roots);
        last := WalkKeeps(r.value, lim, p, sha, r.value.found.next, d + 1, roots);
      }
    }
  }

  lemma SortedNoRepeats(level: seq<Text>)
    requires NoRepeats(level)
    ensures NoRepeats(Sort(ItemKey, level))
  {
    hide Sort;
    SortSorts(ItemKey, level);
    NoRepeatsIsMultiset(level);
    NoRepeatsIsMultiset(Sort(ItemKey, level));
  }

  /** The canonical roots that the node ceiling leaves. */
  function RetainedRoots(roots: seq<Text>, lim: Limits): seq<Text> {
    var ids := CanonicalRoots(roots);
    ids[..if |ids| < lim.maxNodes then |ids| else lim.maxNodes]
  }

  /** The graph that holds just these roots. */
  ghost predicate RootGraph(f: Found, ids: seq<Text>) {
    && f.next == ids && f.graph.edges == {} && |f.graph.nodes| == |ids|
    && (forall n :: n in f.graph.nodes <==> n.Item? && n.id in ids)
    && forall n :: n in f.graph.nodes ==> f.graph.nodes[n] == NewItem(0, true)
  }

  lemma AddRootKeeps(f: Found, ids: seq<Text>, id: Text, lim: Limits)
    requires RootGraph(f, ids) && id !in ids
    ensures RootGraph(AddRoot(f, lim, id), if |ids| < lim.maxNodes then ids + [id] else ids)
  {
    assert f.graph.nodes[Item(id) := NewItem(0, true)].Keys == f.graph.nodes.Keys + {Item(id)};
  }

  lemma NoRoots()
    ensures RootGraph(Found(Graph(map[], {}, {}), []), [])
  {
  }

  lemma {:induction false} RootNodes(ids: seq<Text>, lim: Limits)
    requires NoRepeats(ids)
    ensures RootGraph(AddRoots(ids, lim), ids[..if |ids| < lim.maxNodes then |ids| else lim.maxNodes])
    decreases |ids|
  {
    hide RootGraph, AddRoot;
    if ids == [] {
      NoRoots();
      assert ids[..0] == [];
    } else {
      var n := |ids| - 1;
      RootNodes(ids[..n], lim);
      var k := if n < lim.maxNodes then n else lim.maxNodes;
      assert ids[..n][..k] == ids[..k] && ids[..n + 1] == ids[..n] + [ids[n]] && ids[n] !in ids[..k];
      AddRootKeeps(AddRoots(ids[..n], lim), ids[..k], ids[n], lim);
    }
  }

  /** Before the first level: the roots, and nothing else. */
  lemma RootsShape(f: Found, ids: seq<Text>, lim: Limits)
    requires RootGraph(f, ids) && NoRepeats(ids) && |ids| <= lim.maxNodes
    ensures Ready(State(f, Budget(0, 0, [], 0)), f.next, 0, lim)
  {
    assert VisitedAsked([], f.graph.nodes, [], 0);
    assert AskedVisited([], f.graph.nodes, [], 0);
    hide VisitedAsked, AskedVisited;
  }

  lemma RootsReady(roots: seq<Text>, lim: Limits)
    ensures var f := AddRoots(CanonicalRoots(roots), lim);
            && Ready(State(f, Budget(0, 0, [], 0)), f.next, 0, lim)
            && f.next == RetainedRoots(roots, lim) && RootsAre(RetainedRoots(roots, lim), f.graph.nodes)
  {
    var ids := CanonicalRoots(roots);
    CanonicalUnique(Same, LowerAll(roots), LowerAll(roots));
    StrictNoRepeats(Same, ids);
    hide CanonicalRoots, Ready;
    RootNodes(ids, lim);
    hide AddRoots, RootsAre;
    RootsShape(AddRoots(ids, lim), RetainedRoots(roots, lim), lim);
  }

  /** Every trace that completes ends in a finished walk from the retained roots. */
  lemma TraceFinishes(p: Portal, roots: seq<Text>, lim: Limits, sha: Text -> Text) returns (last: nat)
    ensures var r := Trace(p, roots, lim, sha);
            r.Ok? ==> Finished(r.value, last, lim) && RootsAre(RetainedRoots(roots, lim), r.value.found.graph.nodes)
  {
    hide AddRoots, CanonicalRoots, Ready, Finished, RootsAre, RetainedRoots;
    var start := AddRoots(CanonicalRoots(roots), lim);
    RootsReady(roots, lim);
    last := WalkKeeps(State(start, Budget(0, 0, [], 0)), lim, p, sha, start.next, 0, RetainedRoots(roots, lim));
  }

  // -------------------------------------------------------------------- theorems

  /** All ceilings hold in a completed trace; it has one evidence record for each
      request, accounts for every byte, asks for no item's metadata or data twice,
      and left an item unasked only at the request ceiling. */
  lemma CeilingsHold(p: Portal, roots: seq<Text>, lim: Limits, sha: Text -> Text)
    requires Trace(p, roots, lim, sha).Ok?
    ensures var s := Trace(p, roots, lim, sha).value;
            var g, b := s.found.graph, s.budget;
            && |g.nodes| <= lim.maxNodes && |g.edges| <= lim.maxEdges
            && (forall n :: n in g.nodes ==> g.nodes[n].depth <= lim.maxDepth)
            && b.requestCount == |b.evidence| <= lim.ceilings.maxRequests
            && b.bytesUsed == SumBytes(b.evidence) <= lim.ceilings.maxTotalBytes
            && (forall i, j :: 0 <= i < j < |b.evidence| ==> b.evidence[i].query != b.evidence[j].query)
            && (forall e :: e in b.evidence ==> Item(e.query.item) in g.nodes)
            && (RequestCeiling in g.reasons || forall id :: Item(id) in g.nodes ==> Asked(b.evidence, MetaOf(id)))
  {
    var last := TraceFinishes(p, roots, lim, sha);
    var s := Trace(p, roots, lim, sha).value;
    hide Trace;
    if RequestCeiling !in s.found.graph.reasons {
      forall id | Item(id) in s.found.graph.nodes ensures Asked(s.budget.evidence, MetaOf(id)) {
        assert !AtDepth(s.found.graph.nodes, id, last);
      }
    }
  }

  ghost predicate Linked(edges: set<Edge>, a: NodeId, b: NodeId) {
    exists e :: e in edges && e.from == a && e.to == b
  }

  /** A path along reported edges. */
  ghost predicate IsPath(edges: set<Edge>, path: seq<NodeId>) {
    path != [] && forall i :: 0 < i < |path| ==> Linked(edges, path[i - 1], path[i])
  }

  /** A path from one of the roots to a node. */
  ghost predicate Reaches(edges: set<Edge>, roots: seq<Text>, path: seq<NodeId>, n: NodeId) {
    IsPath(edges, path) && path[0].Item? && path[0].id in roots && path[|path| - 1] == n
  }

  ghost predicate FromRoot(nodes: Nodes, path: seq<NodeId>) {
    path != [] && path[0] in nodes && nodes[path[0]].isRoot
  }

  /** No path from a root is shorter than the depth of where it leads. */
  lemma {:induction false} DepthBelow(nodes: Nodes, edges: set<Edge>, d: nat, maxDepth: nat, path: seq<NodeId>)
    requires EdgesFit(nodes, edges, d) && DepthsFit(nodes, d, maxDepth)
    requires IsPath(edges, path) && FromRoot(nodes, path)
    ensures var n := path[|path| - 1];
            n in nodes && nodes[n].depth <= |path| - 1
    decreases |path|
  {
    var k := |path| - 1;
    if k > 0 {
      assert Linked(edges, path[k - 1], path[k]);
      DepthBelow(nodes, edges, d, maxDepth, path[..k]);
    }
  }

  /** Parents lead up to a root, one level at a time. */
  lemma {:induction false} PathOfDepth(nodes: Nodes, edges: set<Edge>, d: nat, maxDepth: nat, n: NodeId)
    returns (path: seq<NodeId>)
    requires DepthsFit(nodes, d, maxDepth) && Parented(nodes, edges) && n in nodes
    ensures IsPath(edges, path) && FromRoot(nodes, path) && path[|path| - 1] == n && |path| == nodes[n].depth + 1
    decreases nodes[n].depth
  {
    path := [n];
    if !nodes[n].isRoot {
      assert HasParent(n, nodes, edges);
      var e :| e in edges && e.to == n && e.from in nodes && nodes[e.from].depth + 1 == nodes[n].depth;
      var up := PathOfDepth(nodes, edges, d, maxDepth, e.from);
      path := up + [n];
      assert Linked(edges, up[|up| - 1], n);
    }
  }

  /** The reported depth of a node is its distance from the retained roots along
      the reported edges, whichever ceilings were met. */
  lemma DepthIsDistance(p: Portal, roots: seq<Text>, lim: Limits, sha: Text -> Text, n: NodeId)
    returns (shortest: seq<NodeId>)
    requires Trace(p, roots, lim, sha).Ok? && n in Trace(p, roots, lim, sha).value.found.graph.nodes
    ensures var g := Trace(p, roots, lim, sha).value.found.graph;
            && Reaches(g.edges, RetainedRoots(roots, lim), shortest, n) && |shortest| == g.nodes[n].depth + 1
            && forall path: seq<NodeId> :: Reaches(g.edges, RetainedRoots(roots, lim), path, n) ==> |shortest| <= |path|
  {
    var last := TraceFinishes(p, roots, lim, sha);
    var g := Trace(p, roots, lim, sha).value.found.graph;
    hide Trace, RetainedRoots;
    shortest := PathOfDepth(g.nodes, g.edges, last, lim.maxDepth, n);
    forall path: seq<NodeId> | Reaches(g.edges, RetainedRoots(roots, lim), path, n)
      ensures |shortest| <= |path|
    {
      DepthBelow(g.nodes, g.edges, last, lim.maxDepth, path);
    }
  }

  /** Both ends of a reported edge are reported, edges leave items only, and every
      node but the roots has an edge from the level above. */
  lemma EdgesConnect(p: Portal, roots: seq<Text>, lim: Limits, sha: Text -> Text)
    requires Trace(p, roots, lim, sha).Ok?
    ensures var g := Trace(p, roots, lim, sha).value.found.graph;
            && (forall e :: e in g.edges ==> e.from in g.nodes && e.to in g.nodes && e.from.Item?)
            && (forall n :: n in g.nodes ==>
                  (n.Item? && n.id in RetainedRoots(roots, lim)) || HasParent(n, g.nodes, g.edges))
  {
    var last := TraceFinishes(p, roots, lim, sha);
    hide Trace, RetainedRoots, HasParent;
  }
}
