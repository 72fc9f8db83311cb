/** The order in which a trace asks its questions. */
module TraceDispatch {
  import opened Wrappers
  import opened ArcGisRest
  import opened JsonText
  import opened Sorting
  import opened TraceModel
  import opened TraceShape
  import opened TraceRun
  import TraceAccount
  import opened TraceReferences

  /** Nearer to the roots, or as near and with the smaller identifier. */
  ghost predicate Ahead(x: Text, y: Text, nodes: Nodes) {
    && Item(x) in nodes && Item(y) in nodes
    && (nodes[Item(x)].depth < nodes[Item(y)].depth
        || (nodes[Item(x)].depth == nodes[Item(y)].depth && Precedes(x, y)))
  }

  /** One item's metadata before its data, and otherwise the item ahead first. */
  ghost predicate Earlier(a: Query, b: Query, nodes: Nodes) {
    if a.item == b.item then a.MetaOf? && b.DataOf? else Ahead(a.item, b.item, nodes)
  }

  ghost predicate InTurn(ev: seq<Evidence<Query>>, nodes: Nodes) {
    forall i, j :: 0 <= i < j < |ev| ==> Earlier(ev[i].query, ev[j].query, nodes)
  }

  /** Every question is about an item ahead of this one. */
  ghost predicate AllAhead(ev: seq<Evidence<Query>>, y: Text, nodes: Nodes) {
    forall e :: e in ev ==> Ahead(e.query.item, y, nodes)
  }

  /** Whoever was passed over was so at the request ceiling, after everyone ahead. */
  ghost predicate PassedOver(s: State, done: seq<Text>, d: nat, lim: Limits) {
    forall y {:trigger Asked(s.budget.evidence, MetaOf(y))} ::
      Item(y) in s.found.graph.nodes && (s.found.graph.nodes[Item(y)].depth < d || y in done)
      && !Asked(s.budget.evidence, MetaOf(y)) ==>
        s.budget.requestCount >= lim.ceilings.maxRequests && AllAhead(s.budget.evidence, y, s.found.graph.nodes)
  }

  ghost predicate Ranked(s: State, done: seq<Text>, d: nat, lim: Limits) {
    InTurn(s.budget.evidence, s.found.graph.nodes) && PassedOver(s, done, d, lim)
  }

  /** The item that is next in line: all done items of its level have smaller identifiers. */
  ghost predicate NextInLine(id: Text, done: seq<Text>) {
    forall x :: x in done ==> Less(x, id)
  }

  lemma EveryoneAhead(ev: seq<Evidence<Query>>, nodes: Nodes, done: seq<Text>, id: Text, d: nat)
    requires AskedVisited(ev, nodes, done, d) && AtDepth(nodes, id, d) && NextInLine(id, done)
    ensures AllAhead(ev, id, nodes)
  {
    hide Less, Precedes;
    forall e | e in ev ensures Ahead(e.query.item, id, nodes) {
      LessMeaning(e.query.item, id);
    }
  }

  /** What a visit asks: nothing at the ceiling, else the metadata, and perhaps the data. */
  lemma VisitAsks(s: State, lim: Limits, p: Portal, sha: Text -> Text, id: Text, d: nat)
    returns (asked: seq<Evidence<Query>>)
    requires Item(id) in s.found.graph.nodes
    ensures var r := Visit(s, lim, p, sha, id, d);
            r.Ok? ==>
              && r.value.budget.evidence == s.budget.evidence + asked
              && s.budget.requestCount <= r.value.budget.requestCount
              && if s.budget.requestCount >= lim.ceilings.maxRequests then asked == []
                 else
                   && 1 <= |asked| <= 2 && asked[0].query == MetaOf(id)
                   && (|asked| == 2 ==> asked[1].query == DataOf(id))
  {
    hide Lower, IsExpandable, Follow, Sort, RefsIn, Judge, Tolerated;
    asked := [];
    var r := Visit(s, lim, p, sha, id, d);
    if r.Ok? {
      var ev := s.budget.evidence;
      if s.budget.requestCount < lim.ceilings.maxRequests {
        TraceAccount.Answered(s.budget, lim, MetaOf(id), p.meta(id));
        var (b, m) := Request(s.budget, lim.ceilings, MetaOf(id), p.meta(id));
        asked := [Evidence(MetaOf(id), p.meta(id).bytes)];
        if m.Ok? {
          TraceAccount.Answered(b, lim, DataOf(id), p.data(id));
          if r.value.budget.evidence != ev + asked {
            asked := asked + [Evidence(DataOf(id), p.data(id).bytes)];
          }
        }
      }
      assert ev + [] == ev;
    }
  }

  lemma TurnsStay(ev: seq<Evidence<Query>>, nodes: Nodes, nodes': Nodes)
    requires InTurn(ev, nodes) && Kept(nodes, nodes')
    ensures InTurn(ev, nodes')
  {
    hide Precedes;
    forall i, j | 0 <= i < j < |ev| ensures Earlier(ev[i].query, ev[j].query, nodes') {
      assert Earlier(ev[i].query, ev[j].query, nodes);
    }
  }

  lemma AheadStays(ev: seq<Evidence<Query>>, y: Text, nodes: Nodes, nodes': Nodes)
    requires AllAhead(ev, y, nodes) && Kept(nodes, nodes')
    ensures AllAhead(ev, y, nodes')
  {
    hide Precedes;
  }

  lemma NextTurns(ev: seq<Evidence<Query>>, asked: seq<Evidence<Query>>, id: Text, nodes: Nodes)
    requires InTurn(ev, nodes) && AllAhead(ev, id, nodes) && forall e :: e in ev ==> e.query.item != id
    requires |asked| <= 2 && (|asked| > 0 ==> asked[0].query == MetaOf(id))
    requires |asked| == 2 ==> asked[1].query == DataOf(id)
    ensures InTurn(ev + asked, nodes)
  {
    hide Ahead;
    forall i, j | 0 <= i < j < |ev + asked|
      ensures Earlier((ev + asked)[i].query, (ev + asked)[j].query, nodes)
    {
      if i < |ev| {
        assert ev[i] in ev;
      }
    }
  }

  lemma OthersPassedOver(s: State, t: State, id: Text, asked: seq<Evidence<Query>>, done: seq<Text>, d: nat,
                         lim: Limits)
    requires PassedOver(s, done, d, lim) && Grew(s.found, t.found, d) && Present(done, s.found.graph.nodes)
    requires t.budget.evidence == s.budget.evidence + asked && s.budget.requestCount <= t.budget.requestCount
    requires AllAhead(s.budget.evidence, id, s.found.graph.nodes)
    requires if s.budget.requestCount >= lim.ceilings.maxRequests then asked == []
             else asked != [] && asked[0].query == MetaOf(id)
    ensures PassedOver(t, done + [id], d, lim)
  {
    var ev, ev', nodes, nodes' := s.budget.evidence, t.budget.evidence, s.found.graph.nodes, t.found.graph.nodes;
    hide AllAhead;
    forall y | Item(y) in nodes' && (nodes'[Item(y)].depth < d || y in done + [id]) && !Asked(ev', MetaOf(y))
      ensures t.budget.requestCount >= lim.ceilings.maxRequests && AllAhead(ev', y, nodes')
    {
      if asked != [] {
        assert asked[0] in ev';
      }
      StillUnasked(ev, asked, MetaOf(y));
      assert y != id ==> Item(y) in nodes && !Asked(ev, MetaOf(y));
      assert ev + [] == ev;
      AheadStays(ev, y, nodes, nodes');
    }
  }

  lemma StillUnasked(ev: seq<Evidence<Query>>, asked: seq<Evidence<Query>>, q: Query)
    requires !Asked(ev + asked, q)
    ensures !Asked(ev, q)
  {
    forall e | e in ev ensures e.query != q {
      assert e in ev + asked;
    }
  }

  /** The next item of a level is asked about after everyone ahead of it. */
  lemma VisitRanks(s: State, lim: Limits, p: Portal, sha: Text -> Text, id: Text, d: nat, done: seq<Text>)
    requires Going(s, done, d, lim) && Ranked(s, done, d, lim) && Present(done, s.found.graph.nodes)
    requires AtDepth(s.found.graph.nodes, id, d) && id !in done && NextInLine(id, done)
    ensures var r := Visit(s, lim, p, sha, id, d);
            r.Ok? ==> Ranked(r.value, done + [id], d, lim)
  {
    var asked := VisitAsks(s, lim, p, sha, id, d);
    VisitKeeps(s, lim, p, sha, id, d, done);
    var r := Visit(s, lim, p, sha, id, d);
    var ev, nodes := s.budget.evidence, s.found.graph.nodes;
    EveryoneAhead(ev, nodes, done, id, d);
    hide Visit, BudgetFits, VisitedAsked, Shape, NextInLine, InTurn, PassedOver;
    forall e | e in ev ensures e.query.item != id {
      assert Item(e.query.item) in nodes;
    }
    hide AllAhead, AskedVisited;
    if r.Ok? {
      OthersPassedOver(s, r.value, id, asked, done, d, lim);
      NextTurns(ev, asked, id, nodes);
      TurnsStay(ev + asked, nodes, r.value.found.graph.nodes);
    }
  }

  lemma {:induction false} VisitAllRanks(s: State, lim: Limits, p: Portal, sha: Text -> Text, level: seq<Text>, d: nat)
    requires Going(s, [], d, lim) && NoRepeats(level) && AllAtDepth(level, s.found.graph.nodes, d)
    requires Present(level, s.found.graph.nodes) && Ranked(s, [], d, lim) && StrictlySorted(Same, level)
    ensures var r := VisitAll(s, lim, p, sha, level, d);
            r.Ok? ==> Ranked(r.value, level, d, lim)
    decreases |level|
  {
    hide Visit, Going, Grew, AllAtDepth, NoRepeats, Ranked, Less;
    if level != [] {
      var n := |level| - 1;
      InitOfLevel(level, s.found.graph.nodes, d);
      VisitAllRanks(s, lim, p, sha, level[..n], d);
      VisitAllKeeps(s, lim, p, sha, level[..n], d);
      var before := VisitAll(s, lim, p, sha, level[..n], d);
      if before.Ok? {
        GrewKeepsLevel(s.found, before.value.found, level, d);
        InitOfLevel(level, before.value.found.graph.nodes, d);
        LastInLine(level);
        VisitRanks(before.value, lim, p, sha, level[n], d, level[..n]);
      }
    }
  }

  lemma LastInLine(level: seq<Text>)
    requires level != [] && StrictlySorted(Same, level)
    ensures NextInLine(level[|level| - 1], level[..|level| - 1])
  {
    hide Less;
    var n := |level| - 1;
    forall x | x in level[..n] ensures Less(x, level[n]) {
      var i :| 0 <= i < n && level[..n][i] == x;
      assert Less(Same(level[i]), Same(level[n]));
    }
  }

  /** Items are sorted by a key that only puts the same word before their identifiers. */
  lemma LevelInLine(level: seq<Text>)
    requires NoRepeats(level)
    ensures StrictlySorted(Same, Sort(ItemKey, level))
  {
    SortSorts(ItemKey, level);
    NoRepeatsIsMultiset(level);
    NoRepeatsIsMultiset(Sort(ItemKey, level));
    var r := Sort(ItemKey, level);
    hide Sort, Less, Ascii;
    forall i, j | 0 <= i < j < |r| ensures Less(Same(r[i]), Same(r[j])) {
      assert !Less(ItemKey(r[j]), ItemKey(r[i]));
      SameFront(Ascii("item:"), r[j], r[i]);
      LessTotal(r[i], r[j]);
    }
  }

  lemma DescendRanks(t: State, level: seq<Text>, d: nat, lim: Limits)
    requires Ranked(t, level, d, lim) && forall id :: id in level <==> AtDepth(t.found.graph.nodes, id, d)
    ensures Ranked(Descend(t), [], d + 1, lim)
  {
    hide InTurn, AllAhead;
    var nodes, ev := t.found.graph.nodes, t.budget.evidence;
    forall y | Item(y) in nodes && nodes[Item(y)].depth < d + 1 && !Asked(ev, MetaOf(y))
      ensures t.budget.requestCount >= lim.ceilings.maxRequests && AllAhead(ev, y, nodes)
    {
      assert y in level <==> AtDepth(nodes, y, d);
    }
  }

  lemma {:induction false} WalkRanks(s: State, lim: Limits, p: Portal, sha: Text -> Text, level: seq<Text>, d: nat)
    returns (last: nat)
    requires Ready(s, level, d, lim) && (forall id :: id in level ==> Item(id) in s.found.graph.nodes)
    requires level != [] ==> d <= lim.maxDepth
    requires Ranked(Descend(s), [], d, lim)
    ensures var r := Walk(s, lim, p, sha, level, d);
            r.Ok? ==> Ranked(r.value, [], last, lim) && TraceAccount.AllAbove(r.value.found.graph.nodes, last)
    decreases lim.maxDepth + 1 - d
  {
    hide Ranked;
    last := d;
    if level == [] {
      TraceAccount.NothingBelow(s, d, lim);
    } else {
      SortKeeps(ItemKey, level);
      var sorted := Sort(ItemKey, level);
      SortedNoRepeats(level);
      LevelInLine(level);
      hide Sort, VisitAll, Going, Grew, StrictlySorted;
      VisitAllKeeps(Descend(s), lim, p, sha, sorted, d);
      VisitAllRanks(Descend(s), lim, p, sha, sorted, d);
      var r := VisitAll(Descend(s), lim, p, sha, sorted, d);
      if r.Ok? {
        LevelDone(s, r.value, level, sorted, d, lim);
        NextLevel(r.value, sorted, d, lim);
        DescendRanks(r.value, sorted, d, lim);
        last := WalkRanks(r.value, lim, p, sha, r.value.found.next, d + 1);
      }
    }
  }

  lemma TraceRanks(p: Portal, roots: seq<Text>, lim: Limits, sha: Text -> Text) returns (last: nat)
    requires Trace(p, roots, lim, sha).Ok?
    ensures var s := Trace(p, roots, lim, sha).value;
            Ranked(s, [], last, lim) && TraceAccount.AllAbove(s.found.graph.nodes, last)
  {
    RootsReady(roots, lim);
    hide CanonicalRoots, AddRoots, Ready, Ranked, TraceAccount.AllAbove;
    var start := AddRoots(CanonicalRoots(roots), lim);
    var s := State(start, Budget(0, 0, [], 0));
    assert Ranked(Descend(s), [], 0, lim) by { NothingAsked(s, lim); }
    last := WalkRanks(s, lim, p, sha, start.next, 0);
  }

  lemma NothingAsked(s: State, lim: Limits)
    requires s.budget.evidence == []
    ensures Ranked(Descend(s), [], 0, lim)
  {
    hide Precedes;
  }

  /** A trace asks level by level and, within a level, in the order of the identifiers; each
      item's metadata directly comes before its data. At the request ceiling it is the
      items last in this order that are left unasked. */
  lemma DispatchOrder(p: Portal, roots: seq<Text>, lim: Limits, sha: Text -> Text)
    requires Trace(p, roots, lim, sha).Ok?
    ensures var s := Trace(p, roots, lim, sha).value;
            var ev, nodes := s.budget.evidence, s.found.graph.nodes;
            && (forall i, j :: 0 <= i < j < |ev| ==> Earlier(ev[i].query, ev[j].query, nodes))
            && forall y {:trigger Asked(ev, MetaOf(y))} :: Item(y) in nodes && !Asked(ev, MetaOf(y)) ==>
                 s.budget.requestCount == lim.ceilings.maxRequests && AllAhead(ev, y, nodes)
  {
    var last := TraceRanks(p, roots, lim, sha);
    CeilingsHold(p, roots, lim, sha);
    hide Trace, Earlier, AllAhead;
  }
}
