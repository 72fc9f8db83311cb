/** Which references a completed trace follows, in what order they come, and which roots
    it starts from. */
module TraceReferences {
  import opened Wrappers
  import opened ArcGisRest
  import opened JsonText
  import opened Sorting
  import opened TraceModel
  import opened TraceShape
  import opened TraceRun
  import opened TraceContent
  import opened TraceAccount

  // ---------------------------------------------------------------- what is followed

  /** The edge of a reference that an item's data holds. */
  function Stands(id: Text, r: Ref, sha: Text -> Text): Edge {
    match r
    case ItemRef(target, rel, loc) => Edge(Item(id), Item(target), rel, loc)
    case ServiceRef(url, rel, loc) => Edge(Item(id), Service(sha(url)), rel, loc)
  }

  /** The references that count for an item of this type: a web mapping application is read
      as such, and anything else that is read is a web map. */
  function Counted(c: Content, itemType: Option<Text>): seq<Ref> {
    if itemType == Some(Ascii("Web Mapping Application")) then c.asApplication else c.asMap
  }

  ghost predicate StandsForOne(e: Edge, id: Text, refs: seq<Ref>, sha: Text -> Text) {
    exists r :: r in refs && e == Stands(id, r, sha)
  }

  lemma CountedRefs(p: Portal, id: Text, itemType: Option<Text>, c: Content)
    requires Gave(p.data(id), c)
    ensures RefsAt(p, id, itemType) == Counted(c, itemType)
  {
  }

  lemma EdgesStand(id: Text, r: Ref, sha: Text -> Text)
    ensures EdgeOf(Item(id), r, sha) == Stands(id, r, sha)
  {
  }

  /** The edges that leave an item: none unless it is expanded; otherwise those of the
      references that count for its type, all of them unless a node or edge ceiling is
      among the reasons. */
  lemma ReferencesFollowed(p: Portal, roots: seq<Text>, lim: Limits, sha: Text -> Text, id: Text)
    requires Trace(p, roots, lim, sha).Ok? && Item(id) in Trace(p, roots, lim, sha).value.found.graph.nodes
    ensures var g := Trace(p, roots, lim, sha).value.found.graph;
            var n := g.nodes[Item(id)];
            && (!n.expanded ==> forall e :: e in g.edges ==> e.from != Item(id))
            && forall c :: n.expanded && Gave(p.data(id), c) ==>
                 && (forall e :: e in g.edges && e.from == Item(id) ==>
                       StandsForOne(e, id, Counted(c, n.itemType), sha))
                 && (NodeCeiling in g.reasons || EdgeCeiling in g.reasons
                     || forall r :: r in Counted(c, n.itemType) ==> Stands(id, r, sha) in g.edges)
  {
    EdgesAreReferences(p, roots, lim, sha);
    var g := Trace(p, roots, lim, sha).value.found.graph;
    var n := g.nodes[Item(id)];
    hide Trace, RefsAt, Counted, UrlsRead;
    forall e | e in g.edges && e.from == Item(id) ensures n.expanded {
      assert Explained(e, g.nodes, p, sha);
    }
    forall c | n.expanded && Gave(p.data(id), c)
      ensures forall e :: e in g.edges && e.from == Item(id) ==> StandsForOne(e, id, Counted(c, n.itemType), sha)
      ensures NodeCeiling in g.reasons || EdgeCeiling in g.reasons
              || forall r :: r in Counted(c, n.itemType) ==> Stands(id, r, sha) in g.edges
    {
      CountedRefs(p, id, n.itemType, c);
      hide Gave;
      forall e | e in g.edges && e.from == Item(id) ensures StandsForOne(e, id, Counted(c, n.itemType), sha) {
        assert Explained(e, g.nodes, p, sha);
        var r :| r in RefsAt(p, id, n.itemType) && e == EdgeOf(e.from, r, sha);
        EdgesStand(id, r, sha);
      }
      forall r | r in Counted(c, n.itemType) ensures EdgeOf(Item(id), r, sha) == Stands(id, r, sha) {
        EdgesStand(id, r, sha);
      }
      hide EdgeOf, Stands, ComesFrom, Explained;
    }
  }

  // ------------------------------------------------------------------------ in what order

  /** Texts without blanks or anything below, as identifiers, URLs and locators are. */
  predicate Solid(t: Text) {
    forall i :: 0 <= i < |t| ==> t[i] > SPACE
  }

  predicate SolidRef(r: Ref) {
    match r
    case ItemRef(id, rel, loc) => Solid(id) && Solid(rel) && Solid(loc)
    case ServiceRef(url, rel, loc) => Solid(url) && Solid(rel) && Solid(loc)
  }

  function NameOf(r: Ref): Text {
    if r.ItemRef? then r.id else r.url
  }

  /** Items before services, then by name, relationship and locator. */
  ghost predicate Sooner(a: Ref, b: Ref) {
    if a.ItemRef? != b.ItemRef? then a.ItemRef?
    else if NameOf(a) != NameOf(b) then Precedes(NameOf(a), NameOf(b))
    else if a.rel != b.rel then Precedes(a.rel, b.rel)
    else Precedes(a.loc, b.loc)
  }

  lemma {:induction false} SameFront(front: Text, a: Text, b: Text)
    ensures Less(front + a, front + b) <==> Less(a, b)
  {
    if front == [] {
      assert front + a == a && front + b == b;
    } else {
      assert (front + a)[1..] == front[1..] + a && (front + b)[1..] == front[1..] + b;
      SameFront(front[1..], a, b);
    }
  }

  /** Two words followed by a blank and more: the words decide unless they are the same. */
  lemma {:induction false} WordsDecide(a: Text, b: Text, x: Text, y: Text)
    requires Solid(a) && Solid(b)
    ensures Less(a + ([SPACE] + x), b + ([SPACE] + y)) <==> if a != b then Less(a, b) else Less(x, y)
  {
    if a == [] || b == [] {
      assert [] + ([SPACE] + x) == [SPACE] + x && [] + ([SPACE] + y) == [SPACE] + y;
      assert ([SPACE] + x)[1..] == x && ([SPACE] + y)[1..] == y;
    } else {
      assert (a + ([SPACE] + x))[1..] == a[1..] + ([SPACE] + x);
      assert (b + ([SPACE] + y))[1..] == b[1..] + ([SPACE] + y);
      WordsDecide(a[1..], b[1..], x, y);
      assert a == [a[0]] + a[1..] && b == [b[0]] + b[1..];
    }
  }

  lemma KindsDecide(x: Text, y: Text)
    ensures Less(Ascii("item") + x, Ascii("service") + y) && !Less(Ascii("service") + y, Ascii("item") + x)
  {
    assert Ascii("item") == [0x69, 0x74, 0x65, 0x6D] && Ascii("service") == [0x73, 0x65, 0x72, 0x76, 0x69, 0x63, 0x65];
  }

  /** The order in which references are followed, and ceilings are met. */
  lemma RefKeyOrder(a: Ref, b: Ref)
    requires SolidRef(a) && SolidRef(b)
    ensures Less(RefKey(a), RefKey(b)) <==> Sooner(a, b)
  {
    var (m, n) := (NameOf(a), NameOf(b));
    LessMeaning(m, n);
    LessMeaning(a.rel, b.rel);
    LessMeaning(a.loc, b.loc);
    hide Less, Ascii, Precedes, Solid;
    WordsDecide(a.rel, b.rel, a.loc, b.loc);
    WordsDecide(m, n, a.rel + ([SPACE] + a.loc), b.rel + ([SPACE] + b.loc));
    if a.ItemRef? == b.ItemRef? {
      var kind := if a.ItemRef? then Ascii("item") else Ascii("service");
      SameFront([SPACE], m + ([SPACE] + (a.rel + ([SPACE] + a.loc))), n + ([SPACE] + (b.rel + ([SPACE] + b.loc))));
      SameFront(kind, [SPACE] + (m + ([SPACE] + (a.rel + ([SPACE] + a.loc)))),
                [SPACE] + (n + ([SPACE] + (b.rel + ([SPACE] + b.loc)))));
    } else {
      KindsDecide([SPACE] + ((if a.ItemRef? then m else n)
                             + ([SPACE] + ((if a.ItemRef? then a.rel else b.rel)
                                           + ([SPACE] + (if a.ItemRef? then a.loc else b.loc))))),
                  [SPACE] + ((if a.ItemRef? then n else m)
                             + ([SPACE] + ((if a.ItemRef? then b.rel else a.rel)
                                           + ([SPACE] + (if a.ItemRef? then b.loc else a.loc))))));
    }
  }

  // ---------------------------------------------------------------- from which roots

  lemma {:induction false} WalkKeepsReasons(s: State, lim: Limits, p: Portal, sha: Text -> Text, level: seq<Text>,
                                              d: nat)
    requires Ready(s, level, d, lim) && (forall id :: id in level ==> Item(id) in s.found.graph.nodes)
    requires level != [] ==> d <= lim.maxDepth
    ensures var r := Walk(s, lim, p, sha, level, d);
            r.Ok? ==> s.found.graph.reasons <= r.value.found.graph.reasons
    decreases lim.maxDepth + 1 - d
  {
    if level != [] {
      SortKeeps(ItemKey, level);
      var sorted := Sort(ItemKey, level);
      SortedNoRepeats(level);
      hide Sort, VisitAll, Going;
      VisitAllKeeps(Descend(s), lim, p, sha, sorted, d);
      var r := VisitAll(Descend(s), lim, p, sha, sorted, d);
      if r.Ok? {
        LevelDone(s, r.value, level, sorted, d, lim);
        NextLevel(r.value, sorted, d, lim);
        WalkKeepsReasons(r.value, lim, p, sha, r.value.found.next, d + 1);
      }
    }
  }

  lemma LeftOutForNodes(p: Portal, roots: seq<Text>, lim: Limits, sha: Text -> Text)
    requires Trace(p, roots, lim, sha).Ok?
    ensures |CanonicalRoots(roots)| > lim.maxNodes ==>
              NodeCeiling in Trace(p, roots, lim, sha).value.found.graph.reasons
  {
    var ids := CanonicalRoots(roots);
    CanonicalUnique(Same, LowerAll(roots), LowerAll(roots));
    StrictNoRepeats(Same, ids);
    RootsReady(roots, lim);
    RootReasons(ids, lim);
    hide CanonicalRoots, AddRoots, Ready;
    var start := AddRoots(ids, lim);
    WalkKeepsReasons(State(start, Budget(0, 0, [], 0)), lim, p, sha, start.next, 0);
  }

  /** A root, given in some case of its letters. */
  ghost predicate GivenRoot(roots: seq<Text>, id: Text) {
    exists root :: root in roots && SameLetters(root, id)
  }

  ghost predicate RootsBefore(nodes: Nodes, id: Text) {
    forall m :: m in nodes && nodes[m].isRoot ==> m.Item? && Precedes(m.id, id)
  }

  lemma GivenInLower(roots: seq<Text>, id: Text)
    ensures id in LowerAll(roots) <==> GivenRoot(roots, id)
  {
    hide Lower, SameLetters;
    if id in LowerAll(roots) {
      var i :| 0 <= i < |roots| && LowerAll(roots)[i] == id;
      LowerMeaning(roots[i], id);
      assert roots[i] in roots;
    }
    if root :| root in roots && SameLetters(root, id) {
      LowerMeaning(root, id);
      var i :| 0 <= i < |roots| && roots[i] == root;
      assert LowerAll(roots)[i] == id;
    }
  }

  lemma BehindFront(ids: seq<Text>, k: nat, id: Text) returns (j: nat)
    requires k <= |ids| && id in ids && id !in ids[..k]
    ensures k <= j < |ids| && ids[j] == id
  {
    assert ids == ids[..k] + ids[k..];
    var i :| 0 <= i < |ids[k..]| && ids[k..][i] == id;
    j := k + i;
  }

  /** The identifiers left out come after all that are kept. */
  lemma KeptComeFirst(nodes: Nodes, ids: seq<Text>, k: nat, j: nat)
    requires k <= j < |ids| && StrictlySorted(Same, ids) && RootsAre(ids[..k], nodes)
    ensures RootsBefore(nodes, ids[j])
  {
    hide Less, Precedes;
    forall m | m in nodes && nodes[m].isRoot ensures m.Item? && Precedes(m.id, ids[j]) {
      var i :| 0 <= i < k && ids[..k][i] == m.id;
      assert Less(Same(ids[i]), Same(ids[j]));
      LessMeaning(m.id, ids[j]);
    }
  }

  lemma RootFacts(roots: seq<Text>, lim: Limits) returns (k: nat)
    ensures var ids := CanonicalRoots(roots);
            && k == (if |ids| < lim.maxNodes then |ids| else lim.maxNodes) && RetainedRoots(roots, lim) == ids[..k]
            && StrictlySorted(Same, ids) && SameElements(ids, LowerAll(roots))
  {
    CanonicalUnique(Same, LowerAll(roots), LowerAll(roots));
    k := if |CanonicalRoots(roots)| < lim.maxNodes then |CanonicalRoots(roots)| else lim.maxNodes;
    hide StrictlySorted, Sort, Unique;
  }

  /** Every given root is one, whatever the case of its letters, unless the node ceiling was
      met by roots that all come before it; and nothing else is a root. */
  lemma RootsRetained(p: Portal, roots: seq<Text>, lim: Limits, sha: Text -> Text, n: NodeId)
    requires Trace(p, roots, lim, sha).Ok?
    ensures var g := Trace(p, roots, lim, sha).value.found.graph;
            && (n in g.nodes && g.nodes[n].isRoot ==> n.Item? && g.nodes[n].depth == 0 && GivenRoot(roots, n.id))
            && (n.Item? && GivenRoot(roots, n.id) ==>
                  (n in g.nodes && g.nodes[n].isRoot) || (NodeCeiling in g.reasons && RootsBefore(g.nodes, n.id)))
  {
    var last := TraceFinishes(p, roots, lim, sha);
    LeftOutForNodes(p, roots, lim, sha);
    var g := Trace(p, roots, lim, sha).value.found.graph;
    RootsAtTop(Trace(p, roots, lim, sha).value, last, lim, n);
    hide Trace, Finished;
    var k := RootFacts(roots, lim);
    var ids := CanonicalRoots(roots);
    hide CanonicalRoots, RetainedRoots, GivenRoot, RootsBefore, StrictlySorted;
    if n.Item? {
      GivenInLower(roots, n.id);
      assert n.id in ids[..k] ==> n.id in ids;
      if n.id in ids && n.id !in ids[..k] {
        var j := BehindFront(ids, k, n.id);
        KeptComeFirst(g.nodes, ids, k, j);
      }
    }
  }

  lemma RootsAtTop(s: State, last: nat, lim: Limits, n: NodeId)
    requires Finished(s, last, lim)
    ensures n in s.found.graph.nodes && s.found.graph.nodes[n].isRoot ==> s.found.graph.nodes[n].depth == 0
  {
    hide BudgetFits, AskedVisited, VisitedAsked;
  }
}
