/** A trace does not depend on the order of the roots, nor on the order or the
    repetition of references inside an item. */
module TraceOrder {
  import opened Wrappers
  import opened ArcGisRest
  import opened JsonText
  import opened Sorting
  import opened TraceModel

  // ------------------------------------------------------------- reference keys

  predicate NoSpace(t: Text) {
    forall i :: 0 <= i < |t| ==> t[i] != SPACE
  }

  /** References as the parsers make them: hexadecimal ids and percent-encoded
      URLs, relationships and locators from fixed lists. */
  predicate Clean(r: Ref) {
    NoSpace(r.rel) && NoSpace(r.loc) && (if r.ItemRef? then NoSpace(r.id) else NoSpace(r.url))
  }

  lemma SpaceAfter(a: Text, x: Text, t: Text)
    requires t == a + ([SPACE] + x)
    ensures |a| < |t| && t[|a|] == SPACE && t[..|a|] == a && t[|a| + 1..] == x
    ensures forall i :: 0 <= i < |a| ==> t[i] == a[i]
  {
  }

  /** The first space splits a text in one way only. */
  lemma SplitAtSpace(a: Text, x: Text, b: Text, y: Text)
    requires NoSpace(a) && NoSpace(b) && a + ([SPACE] + x) == b + ([SPACE] + y)
    ensures a == b && x == y
  {
    var t := a + ([SPACE] + x);
    SpaceAfter(a, x, t);
    SpaceAfter(b, y, t);
    assert |a| == |b|;
  }

  function Word(r: Ref): Text {
    if r.ItemRef? then Ascii("item") else Ascii("service")
  }

  function Name(r: Ref): Text {
    if r.ItemRef? then r.id else r.url
  }

  lemma WordHasNoSpace(r: Ref)
    ensures NoSpace(Word(r)) && |Word(r)| == if r.ItemRef? then 4 else 7
  {
    if r.ItemRef? {
      assert Ascii("item") == [0x69, 0x74, 0x65, 0x6D];
    } else {
      assert Ascii("service") == [0x73, 0x65, 0x72, 0x76, 0x69, 0x63, 0x65];
    }
  }

  /** The sort key tells references apart, so their order is canonical. */
  lemma RefKeyInjective(r: Ref, s: Ref)
    requires Clean(r) && Clean(s) && RefKey(r) == RefKey(s)
    ensures r == s
  {
    WordHasNoSpace(r);
    WordHasNoSpace(s);
    var loc, loc' := r.loc, s.loc;
    var rel, rel' := r.rel + ([SPACE] + loc), s.rel + ([SPACE] + loc');
    var name, name' := Name(r) + ([SPACE] + rel), Name(s) + ([SPACE] + rel');
    assert RefKey(r) == Word(r) + ([SPACE] + name) && RefKey(s) == Word(s) + ([SPACE] + name');
    hide Word, RefKey, Ascii, NoSpace;
    SplitAtSpace(Word(r), name, Word(s), name');
    SplitAtSpace(Name(r), rel, Name(s), rel');
    SplitAtSpace(r.rel, loc, s.rel, loc');
  }

  // -------------------------------------------------------- repeated references

  lemma FollowTwice(f: Found, lim: Limits, from: NodeId, d: nat, r: Ref, sha: Text -> Text)
    ensures var once := FollowOne(f, lim, from, d, r, sha);
            FollowOne(once, lim, from, d, r, sha) == once
  {
  }

  lemma {:induction false} FollowDedup(f: Found, lim: Limits, from: NodeId, d: nat, refs: seq<Ref>, sha: Text -> Text)
    ensures Follow(f, lim, from, d, refs, sha) == Follow(f, lim, from, d, Dedup(refs), sha)
    decreases |refs|
  {
    hide FollowOne;
    if |refs| > 1 {
      var n := |refs| - 1;
      FollowDedup(f, lim, from, d, refs[..n], sha);
      if refs[n] == refs[n - 1] {
        var before := Follow(f, lim, from, d, refs[..n][..n - 1], sha);
        assert Follow(f, lim, from, d, refs[..n], sha) == FollowOne(before, lim, from, d, refs[n - 1], sha);
        FollowTwice(before, lim, from, d, refs[n], sha);
      } else {
        var d0 := Dedup(refs[..n]);
        assert (d0 + [refs[n]])[..|d0|] == d0;
      }
    }
  }

  ghost predicate AllClean(refs: seq<Ref>) {
    forall r :: r in refs ==> Clean(r)
  }

  /** The outcome depends on the set of references only. */
  lemma FollowSameRefs(f: Found, lim: Limits, from: NodeId, d: nat, refs: seq<Ref>, refs': seq<Ref>, sha: Text -> Text)
    requires SameElements(refs, refs') && AllClean(refs)
    ensures Follow(f, lim, from, d, Sort(RefKey, refs), sha) == Follow(f, lim, from, d, Sort(RefKey, refs'), sha)
  {
    forall r, s | r in refs && s in refs && RefKey(r) == RefKey(s) ensures r == s {
      RefKeyInjective(r, s);
    }
    hide Follow, Sort, Dedup, RefKey;
    FollowDedup(f, lim, from, d, Sort(RefKey, refs), sha);
    FollowDedup(f, lim, from, d, Sort(RefKey, refs'), sha);
    CanonicalList(RefKey, refs, refs');
  }

  // -------------------------------------------------------------- same content

  ghost predicate SameRefs(c: Content, c': Content) {
    && SameElements(c.asApplication, c'.asApplication) && SameElements(c.asMap, c'.asMap)
    && AllClean(c.asApplication) && AllClean(c.asMap)
  }

  /** Two answers to a data request that differ in the order and the repetition of
      references at most, and so perhaps in their size. */
  ghost predicate SameData(a: Reply<Content>, b: Reply<Content>) {
    match (a, b)
    case (Received(_, status, textual, body), Received(_, status', textual', body')) =>
      && status == status' && textual == textual'
      && (if body.Json? && body'.Json? then SameRefs(body.value, body'.value) else body == body')
    case _ => a == b
  }

  ghost predicate SameContent(p: Portal, q: Portal) {
    && (forall id :: p.meta(id) == q.meta(id))
    && forall id :: SameData(p.data(id), q.data(id))
  }

  ghost predicate SameSizes(p: Portal, q: Portal) {
    forall id {:trigger p.data(id)} :: !p.data(id).Lost? && !q.data(id).Lost? ==>
      BytesOf(p.data(id)) == BytesOf(q.data(id))
  }

  lemma RefsInSame(c: Content, c': Content, t: Option<Text>)
    requires SameRefs(c, c')
    ensures SameElements(RefsIn(c, t), RefsIn(c', t)) && AllClean(RefsIn(c, t))
  {
  }

  // ---------------------------------------------------------- runs that complete

  function Questions(evidence: seq<Evidence<Query>>): (r: seq<Query>)
    ensures |r| == |evidence| && forall i :: 0 <= i < |evidence| ==> r[i] == evidence[i].query
  {
    seq(|evidence|, i requires 0 <= i < |evidence| => evidence[i].query)
  }

  /** The same but for the sizes of the responses. */
  ghost predicate SameBudget(a: Budget<Query>, b: Budget<Query>) {
    a.requestCount == b.requestCount && a.successes == b.successes && Questions(a.evidence) == Questions(b.evidence)
  }

  ghost predicate Twins(s: State, t: State) {
    s.found == t.found && SameBudget(s.budget, t.budget)
  }

  ghost predicate GoesOn<T>(r: Result<T, Failure>) {
    r.Ok? || Tolerated(r.error)
  }

  lemma RequestTwins<T>(a: Budget<Query>, b: Budget<Query>, lim: Ceilings, q: Query, x: Reply<T>, y: Reply<T>)
    requires SameBudget(a, b) && x.Lost? == y.Lost?
    requires x.Received? == y.Received?
    requires x.Received? ==> x.status == y.status && x.textual == y.textual && (x.body.Json? == y.body.Json?)
                             && (!x.body.Json? ==> x.body == y.body)
    ensures var (a', r) := Request(a, lim, q, x);
            var (b', s) := Request(b, lim, q, y);
            GoesOn(r) && GoesOn(s) ==>
              && SameBudget(a', b') && r.Ok? == s.Ok?
              && (r.Ok? ==>
                    x.Received? && y.Received? && x.body.Json? && r.value == x.body.value && s.value == y.body.value)
  {
  }

  lemma ExpandTwins(s: State, t: State, lim: Limits, p: Portal, q: Portal, sha: Text -> Text, id: Text, d: nat)
    requires Twins(s, t) && SameContent(p, q) && Item(id) in s.found.graph.nodes
    ensures var r, r' := Expand(s, lim, p, sha, id, d), Expand(t, lim, q, sha, id, d);
            r.Ok? && r'.Ok? ==> Twins(r.value, r'.value)
  {
    assert SameData(p.data(id), q.data(id));
    RequestTwins(s.budget, t.budget, lim.ceilings, DataOf(id), p.data(id), q.data(id));
    hide Request, Follow, SameBudget, RefsIn, Sort, SameRefs;
    var (_, r) := Request(s.budget, lim.ceilings, DataOf(id), p.data(id));
    var (_, r') := Request(t.budget, lim.ceilings, DataOf(id), q.data(id));
    if r.Ok? && r'.Ok? {
      var n := s.found.graph.nodes[Item(id)];
      RefsInSame(r.value, r'.value, n.itemType);
      FollowSameRefs(SetNode(s.found, Item(id), n.(expanded := true)), lim, Item(id), d,
                     RefsIn(r.value, n.itemType), RefsIn(r'.value, n.itemType), sha);
    }
  }

  lemma ClassifyTwins(s: State, t: State, lim: Limits, p: Portal, q: Portal, sha: Text -> Text, id: Text, d: nat,
                      itemType: Option<Text>)
    requires Twins(s, t) && SameContent(p, q) && Item(id) in s.found.graph.nodes
    ensures var r, r' := Classify(s, lim, p, sha, id, d, itemType), Classify(t, lim, q, sha, id, d, itemType);
            r.Ok? && r'.Ok? ==> Twins(r.value, r'.value)
  {
    hide Expand, IsExpandable, SameContent;
    var support := if IsExpandable(itemType) then Expandable else Terminal;
    var n := s.found.graph.nodes[Item(id)].(itemType := itemType, support := support);
    var f := SetNode(s.found, Item(id), n);
    ExpandTwins(s.(found := f), t.(found := f), lim, p, q, sha, id, d);
  }

  lemma VisitTwins(s: State, t: State, lim: Limits, p: Portal, q: Portal, sha: Text -> Text, id: Text, d: nat)
    requires Twins(s, t) && SameContent(p, q) && Item(id) in s.found.graph.nodes
    ensures var r, r' := Visit(s, lim, p, sha, id, d), Visit(t, lim, q, sha, id, d);
            r.Ok? && r'.Ok? ==> Twins(r.value, r'.value)
  {
    RequestTwins(s.budget, t.budget, lim.ceilings, MetaOf(id), p.meta(id), q.meta(id));
    var (b, r) := Request(s.budget, lim.ceilings, MetaOf(id), p.meta(id));
    var (b', r') := Request(t.budget, lim.ceilings, MetaOf(id), q.meta(id));
    if r.Ok? && r'.Ok? {
      assert p.meta(id) == q.meta(id);
      hide Request, Classify, Lower, SameContent, SameBudget;
      ClassifyTwins(s.(budget := b), t.(budget := b'), lim, p, q, sha, id, d, r.value.itemType);
    } else {
      hide Request, Classify, Lower, SameContent;
    }
  }

  lemma {:induction false} VisitAllTwins(s: State, t: State, lim: Limits, p: Portal, q: Portal, sha: Text -> Text,
                                         level: seq<Text>, d: nat)
    requires Twins(s, t) && SameContent(p, q) && forall id :: id in level ==> Item(id) in s.found.graph.nodes
    ensures var r, r' := VisitAll(s, lim, p, sha, level, d), VisitAll(t, lim, q, sha, level, d);
            r.Ok? && r'.Ok? ==> Twins(r.value, r'.value)
    decreases |level|
  {
    hide Visit, SameContent, SameBudget;
    if level != [] {
      var n := |level| - 1;
      VisitAllTwins(s, t, lim, p, q, sha, level[..n], d);
      var r, r' := VisitAll(s, lim, p, sha, level[..n], d), VisitAll(t, lim, q, sha, level[..n], d);
      if r.Ok? && r'.Ok? {
        assert level[n] in level;
        VisitTwins(r.value, r'.value, lim, p, q, sha, level[n], d);
      }
    }
  }

  lemma {:induction false} WalkTwins(s: State, t: State, lim: Limits, p: Portal, q: Portal, sha: Text -> Text,
                                     level: seq<Text>, d: nat)
    requires Twins(s, t) && SameContent(p, q) && forall id :: id in level ==> Item(id) in s.found.graph.nodes
    requires level != [] ==> d <= lim.maxDepth
    ensures var r, r' := Walk(s, lim, p, sha, level, d), Walk(t, lim, q, sha, level, d);
            r.Ok? && r'.Ok? ==> Twins(r.value, r'.value)
    decreases lim.maxDepth + 1 - d
  {
    hide VisitAll, SameContent, SameBudget, Sort;
    if level != [] {
      SortKeeps(ItemKey, level);
      VisitAllTwins(Descend(s), Descend(t), lim, p, q, sha, Sort(ItemKey, level), d);
      var r := VisitAll(Descend(s), lim, p, sha, Sort(ItemKey, level), d);
      var r' := VisitAll(Descend(t), lim, q, sha, Sort(ItemKey, level), d);
      if r.Ok? && r'.Ok? {
        WalkTwins(r.value, r'.value, lim, p, q, sha, r.value.found.next, d + 1);
      }
    }
  }

  lemma RootsSame(rs: seq<Text>, ss: seq<Text>)
    requires SameElements(LowerAll(rs), LowerAll(ss))
    ensures CanonicalRoots(rs) == CanonicalRoots(ss)
  {
    hide LowerAll, Sort, Unique;
    CanonicalUnique(Same, LowerAll(rs), LowerAll(ss));
  }

  /** Order independence: whatever ceilings are met, two completed traces of the same
      content from the same roots have the same nodes, depths, edges and truncation
      reasons, and dispatched the same requests in the same order. */
  lemma OrderIndependent(p: Portal, q: Portal, rs: seq<Text>, ss: seq<Text>, lim: Limits, sha: Text -> Text)
    requires SameContent(p, q) && SameElements(LowerAll(rs), LowerAll(ss))
    requires Trace(p, rs, lim, sha).Ok? && Trace(q, ss, lim, sha).Ok?
    ensures var s, t := Trace(p, rs, lim, sha).value, Trace(q, ss, lim, sha).value;
            s.found.graph == t.found.graph && SameBudget(s.budget, t.budget)
  {
    RootsSame(rs, ss);
    hide SameContent, CanonicalRoots, AddRoots, LowerAll;
    var start := AddRoots(CanonicalRoots(rs), lim);
    var s := State(start, Budget(0, 0, [], 0));
    WalkTwins(s, s, lim, p, q, sha, start.next, 0);
  }

  // ------------------------------------------------------- responses of equal size

  /** The two answers are judged alike, and leave the same budget. */
  lemma RequestSame(b: Budget<Query>, lim: Limits, id: Text, p: Portal, q: Portal)
    requires SameContent(p, q) && SameSizes(p, q)
    ensures var (a, r) := Request(b, lim.ceilings, DataOf(id), p.data(id));
            var (a', r') := Request(b, lim.ceilings, DataOf(id), q.data(id));
            a == a' && (r.Err? || r'.Err? ==> r == r') && (r.Ok? && r'.Ok? ==> SameRefs(r.value, r'.value))
  {
    assert SameData(p.data(id), q.data(id));
  }

  lemma VisitSame(s: State, lim: Limits, p: Portal, q: Portal, sha: Text -> Text, id: Text, d: nat)
    requires SameContent(p, q) && SameSizes(p, q) && Item(id) in s.found.graph.nodes
    ensures Visit(s, lim, p, sha, id, d) == Visit(s, lim, q, sha, id, d)
  {
    assert p.meta(id) == q.meta(id);
    hide Request, Expand, SameContent, SameSizes, IsExpandable, Lower;
    var (b, r) := Request(s.budget, lim.ceilings, MetaOf(id), p.meta(id));
    if r.Ok? {
      var support := if IsExpandable(r.value.itemType) then Expandable else Terminal;
      var n := s.found.graph.nodes[Item(id)].(itemType := r.value.itemType, support := support);
      ExpandSame(s.(budget := b).(found := SetNode(s.found, Item(id), n)), lim, p, q, sha, id, d);
    }
  }

  lemma ExpandSame(s: State, lim: Limits, p: Portal, q: Portal, sha: Text -> Text, id: Text, d: nat)
    requires SameContent(p, q) && SameSizes(p, q) && Item(id) in s.found.graph.nodes
    ensures Expand(s, lim, p, sha, id, d) == Expand(s, lim, q, sha, id, d)
  {
    hide Request, Follow, SameContent, SameSizes, RefsIn, Sort, SameRefs;
    RequestSame(s.budget, lim, id, p, q);
    var (_, r) := Request(s.budget, lim.ceilings, DataOf(id), p.data(id));
    var (_, r') := Request(s.budget, lim.ceilings, DataOf(id), q.data(id));
    if r.Ok? && r'.Ok? {
      var n := s.found.graph.nodes[Item(id)];
      RefsInSame(r.value, r'.value, n.itemType);
      FollowSameRefs(SetNode(s.found, Item(id), n.(expanded := true)), lim, Item(id), d,
                     RefsIn(r.value, n.itemType), RefsIn(r'.value, n.itemType), sha);
    }
  }

  lemma {:induction false} VisitAllSame(s: State, lim: Limits, p: Portal, q: Portal, sha: Text -> Text,
                                        level: seq<Text>, d: nat)
    requires SameContent(p, q) && SameSizes(p, q) && forall id :: id in level ==> Item(id) in s.found.graph.nodes
    ensures VisitAll(s, lim, p, sha, level, d) == VisitAll(s, lim, q, sha, level, d)
    decreases |level|
  {
    hide Visit, SameContent, SameSizes;
    if level != [] {
      var n := |level| - 1;
      VisitAllSame(s, lim, p, q, sha, level[..n], d);
      var r := VisitAll(s, lim, p, sha, level[..n], d);
      if r.Ok? {
        assert level[n] in level;
        VisitSame(r.value, lim, p, q, sha, level[n], d);
      }
    }
  }

  lemma {:induction false} WalkSame(s: State, lim: Limits, p: Portal, q: Portal, sha: Text -> Text, level: seq<Text>,
                                    d: nat)
    requires SameContent(p, q) && SameSizes(p, q) && forall id :: id in level ==> Item(id) in s.found.graph.nodes
    requires level != [] ==> d <= lim.maxDepth
    ensures Walk(s, lim, p, sha, level, d) == Walk(s, lim, q, sha, level, d)
    decreases lim.maxDepth + 1 - d
  {
    hide VisitAll, SameContent, SameSizes, Sort;
    if level != [] {
      SortKeeps(ItemKey, level);
      VisitAllSame(Descend(s), lim, p, q, sha, Sort(ItemKey, level), d);
      var r := VisitAll(Descend(s), lim, p, sha, Sort(ItemKey, level), d);
      if r.Ok? {
        WalkSame(r.value, lim, p, q, sha, r.value.found.next, d + 1);
      }
    }
  }

  /** When the responses keep their size, as under a permutation, the whole outcome
      is the same, completed or failed. */
  lemma PermutationIndependent(p: Portal, q: Portal, rs: seq<Text>, ss: seq<Text>, lim: Limits, sha: Text -> Text)
    requires SameContent(p, q) && SameSizes(p, q) && SameElements(LowerAll(rs), LowerAll(ss))
    ensures Trace(p, rs, lim, sha) == Trace(q, ss, lim, sha)
  {
    RootsSame(rs, ss);
    hide SameContent, SameSizes, CanonicalRoots, AddRoots, LowerAll;
    var start := AddRoots(CanonicalRoots(rs), lim);
    WalkSame(State(start, Budget(0, 0, [], 0)), lim, p, q, sha, start.next, 0);
  }
}
