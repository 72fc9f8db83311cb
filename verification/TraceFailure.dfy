/** Why a trace fails: every failure has its cause in an answer of the portal. */
module TraceFailure {
  import opened Wrappers
  import opened ArcGisRest
  import opened JsonText
  import opened Sorting
  import opened TraceModel
  import opened TraceShape
  import opened TraceRun
  import opened TraceAccount

  /** The records of a run that may still ask: distinct questions, each with its response's
      size, within both ceilings. */
  ghost predicate Underway(ev: seq<Evidence<Query>>, p: Portal, lim: Limits) {
    && |ev| < lim.ceilings.maxRequests && SumBytes(ev) <= lim.ceilings.maxTotalBytes
    && (forall i, j :: 0 <= i < j < |ev| ==> ev[i].query != ev[j].query)
    && forall e :: e in ev ==> Recorded(e, p, lim)
  }

  /** The portal's answer to a new question was refused for this, and not as missing. */
  ghost predicate AnswerFails(f: Failure, q: Query, ev: seq<Evidence<Query>>, p: Portal, lim: Limits) {
    && Underway(ev, p, lim) && !Asked(ev, q)
    && !f.EnvelopeError? && (f.HttpError? ==> !(400 <= f.status <= 499))
    && match q
       case MetaOf(id) => RefusedFor(f, lim.ceilings, SumBytes(ev), p.meta(id))
       case DataOf(id) =>
         && RefusedFor(f, lim.ceilings, SumBytes(ev), p.data(id))
         && exists m :: Gave(p.meta(id), m) && HoldsReferences(m.itemType)
  }

  /** The portal answered for another item than the one asked for. */
  ghost predicate AnswersForAnother(id: Text, ev: seq<Evidence<Query>>, p: Portal, lim: Limits) {
    && Underway(ev, p, lim) && !Asked(ev, MetaOf(id))
    && exists m :: Gave(p.meta(id), m) && m.echo.Some? && !SameLetters(m.echo.value, id)
  }

  /** No retained root had a usable answer: it was missing, or left at the request ceiling. */
  ghost predicate AllMissed(roots: seq<Text>, ev: seq<Evidence<Query>>, p: Portal, lim: Limits) {
    && (forall e :: e in ev ==> Recorded(e, p, lim) && !Useful(e, p))
    && forall id :: id in roots ==>
         if Asked(ev, MetaOf(id)) then Missed(p.meta(id)) else |ev| >= lim.ceilings.maxRequests
  }

  ghost predicate Caused(stop: Stop, roots: seq<Text>, p: Portal, lim: Limits) {
    match stop
    case Refused(f) => exists q, ev :: AnswerFails(f, q, ev, p, lim)
    case IdentityMismatch => exists id, ev :: AnswersForAnother(id, ev, p, lim)
    case ServiceCollision => false
    case NothingSucceeded => exists ev :: AllMissed(roots, ev, p, lim)
  }

  lemma StillUnderway(b: Budget<Query>, p: Portal, lim: Limits)
    requires BudgetFits(b, lim.ceilings) && Books(b, p, lim) && b.requestCount < lim.ceilings.maxRequests
    ensures Underway(b.evidence, p, lim) && SumBytes(b.evidence) == b.bytesUsed
  {
    hide Recorded, Useful;
  }

  lemma RefusedCause<T>(b: Budget<Query>, q: Query, reply: Reply<T>, lim: Limits)
    ensures var (_, r) := Request(b, lim.ceilings, q, reply);
            r.Err? && !Tolerated(r.error) ==>
              && RefusedFor(r.error, lim.ceilings, b.bytesUsed, reply)
              && !r.error.EnvelopeError? && (r.error.HttpError? ==> !(400 <= r.error.status <= 499))
  {
    var (_, r) := Request(b, lim.ceilings, q, reply);
    if r.Err? {
      RefusalMeaning(lim.ceilings, b.bytesUsed, reply, r.error);
    }
    hide Verdict, Tolerated, RefusedFor;
  }

  /** The metadata has arrived: only the data request can fail. */
  lemma ClassifyFails(s: State, lim: Limits, p: Portal, sha: Text -> Text, id: Text, d: nat, m: Meta, roots: seq<Text>)
    requires Item(id) in s.found.graph.nodes && Gave(p.meta(id), m)
    requires BudgetFits(s.budget, lim.ceilings) && Books(s.budget, p, lim) && !Asked(s.budget.evidence, DataOf(id))
    ensures var r := Classify(s, lim, p, sha, id, d, m.itemType);
            r.Err? ==> Caused(r.error, roots, p, lim)
  {
    ExpandableTypes(m.itemType);
    hide Request, Tolerated, IsExpandable, HoldsReferences, Gave, BudgetFits, Books, Asked, RefusedFor, Underway;
    var r := Classify(s, lim, p, sha, id, d, m.itemType);
    if r.Err? {
      StillUnderway(s.budget, p, lim);
      RefusedCause(s.budget, DataOf(id), p.data(id), lim);
      var (_, answer) := Request(s.budget, lim.ceilings, DataOf(id), p.data(id));
      assert answer.Err? && r.error == Refused(answer.error);
      assert HoldsReferences(m.itemType) && Gave(p.meta(id), m);
      assert AnswerFails(r.error.failure, DataOf(id), s.budget.evidence, p, lim);
    }
  }

  /** Whatever ends a visit has its cause in the portal's answer. */
  lemma VisitFails(s: State, lim: Limits, p: Portal, sha: Text -> Text, id: Text, d: nat, roots: seq<Text>)
    requires Item(id) in s.found.graph.nodes && BudgetFits(s.budget, lim.ceilings) && Books(s.budget, p, lim)
    requires !Asked(s.budget.evidence, MetaOf(id)) && !Asked(s.budget.evidence, DataOf(id))
    ensures var r := Visit(s, lim, p, sha, id, d);
            r.Err? ==> Caused(r.error, roots, p, lim)
  {
    hide Request, Classify, Lower, Tolerated, Gave, BudgetFits, Books, SameLetters, Asked, RefusedFor, Underway, Missed;
    var r := Visit(s, lim, p, sha, id, d);
    if r.Err? {
      var ev := s.budget.evidence;
      var (b, m) := Request(s.budget, lim.ceilings, MetaOf(id), p.meta(id));
      StillUnderway(s.budget, p, lim);
      if m.Err? {
        RefusedCause(s.budget, MetaOf(id), p.meta(id), lim);
        assert AnswerFails(r.error.failure, MetaOf(id), ev, p, lim);
      } else {
        Answered(s.budget, lim, MetaOf(id), p.meta(id));
        if m.value.echo.Some? && Lower(m.value.echo.value) != id {
          LowerMeaning(m.value.echo.value, id);
          assert AnswersForAnother(id, ev, p, lim);
        } else {
          MetaBooks(s.budget, b, id, m.value, p, lim);
          ClassifyFails(s.(budget := b), lim, p, sha, id, d, m.value, roots);
        }
      }
    }
  }

  lemma MetaBooks(b: Budget<Query>, b': Budget<Query>, id: Text, m: Meta, p: Portal, lim: Limits)
    requires BudgetFits(b, lim.ceilings) && Books(b, p, lim) && b.requestCount < lim.ceilings.maxRequests
    requires !Asked(b.evidence, MetaOf(id)) && !Asked(b.evidence, DataOf(id))
    requires Request(b, lim.ceilings, MetaOf(id), p.meta(id)) == (b', Ok(m))
    ensures BudgetFits(b', lim.ceilings) && Books(b', p, lim) && !Asked(b'.evidence, DataOf(id))
  {
    RequestKeeps(b, lim.ceilings, MetaOf(id), p.meta(id));
    Answered(b, lim, MetaOf(id), p.meta(id));
    var e := Evidence(MetaOf(id), p.meta(id).bytes);
    AskedMore(b.evidence, e, DataOf(id));
    hide Request, Books, BudgetFits, Asked;
    RecordMore(b, b', e, p, lim);
  }

  lemma {:induction false} VisitAllFails(s: State, lim: Limits, p: Portal, sha: Text -> Text, level: seq<Text>, d: nat,
                                         roots: seq<Text>)
    requires Going(s, [], d, lim) && NoRepeats(level) && AllAtDepth(level, s.found.graph.nodes, d)
    requires Present(level, s.found.graph.nodes) && Told(s, [], d, p, lim, sha)
    ensures var r := VisitAll(s, lim, p, sha, level, d);
            r.Err? ==> Caused(r.error, roots, p, lim)
    decreases |level|
  {
    hide Visit, Grew, AllAtDepth, NoRepeats, Shape, Asked, AskedVisited, VisitedAsked, BudgetFits, Books, Caused;
    hide ItemsTold, ServicesTold, ReasonsHold;
    if level != [] {
      var n := |level| - 1;
      InitOfLevel(level, s.found.graph.nodes, d);
      VisitAllFails(s, lim, p, sha, level[..n], d, roots);
      VisitAllKeeps(s, lim, p, sha, level[..n], d);
      VisitAllTells(s, lim, p, sha, level[..n], d);
      var before := VisitAll(s, lim, p, sha, level[..n], d);
      if before.Ok? {
        GrewKeepsLevel(s.found, before.value.found, level, d);
        InitOfLevel(level, before.value.found.graph.nodes, d);
        NotAskedYet(before.value, level[..n], level[n], d, lim, MetaOf(level[n]));
        NotAskedYet(before.value, level[..n], level[n], d, lim, DataOf(level[n]));
        VisitFails(before.value, lim, p, sha, level[n], d, roots);
      }
    }
  }

  lemma {:induction false} WalkFails(s: State, lim: Limits, p: Portal, sha: Text -> Text, level: seq<Text>, d: nat,
                                     roots: seq<Text>)
    requires Ready(s, level, d, lim) && (forall id :: id in level ==> Item(id) in s.found.graph.nodes)
    requires level != [] ==> d <= lim.maxDepth
    requires Told(Descend(s), [], d, p, lim, sha)
    ensures var r := Walk(s, lim, p, sha, level, d);
            r.Err? ==> Caused(r.error, roots, p, lim)
    decreases lim.maxDepth + 1 - d
  {
    hide Told, Caused;
    if level != [] {
      SortKeeps(ItemKey, level);
      var sorted := Sort(ItemKey, level);
      SortedNoRepeats(level);
      hide Sort, VisitAll, Going, Grew;
      VisitAllKeeps(Descend(s), lim, p, sha, sorted, d);
      VisitAllTells(Descend(s), lim, p, sha, sorted, d);
      VisitAllFails(Descend(s), lim, p, sha, sorted, d, roots);
      var r := VisitAll(Descend(s), lim, p, sha, sorted, d);
      if r.Ok? {
        LevelDone(s, r.value, level, sorted, d, lim);
        NextLevel(r.value, sorted, d, lim);
        DescendTells(r.value, sorted, d, p, lim, sha);
        WalkFails(r.value, lim, p, sha, r.value.found.next, d + 1, roots);
      }
    }
  }

  /** A finished walk without a success: every root was missing or not asked for. */
  lemma NothingUseful(s: State, last: nat, end: nat, roots: seq<Text>, p: Portal, lim: Limits, sha: Text -> Text)
    requires Told(s, [], last, p, lim, sha) && AllAbove(s.found.graph.nodes, last) && Finished(s, end, lim)
    requires RootsAre(roots, s.found.graph.nodes) && (s.budget.successes == 0 || s.budget.evidence == [])
    ensures AllMissed(roots, s.budget.evidence, p, lim)
  {
    hide Recorded, Settled, Gave, HoldsReferences, Shape, AskedVisited, VisitedAsked;
    var ev, g := s.budget.evidence, s.found.graph;
    forall e | e in ev ensures Recorded(e, p, lim) && !Useful(e, p) {
    }
    forall id | id in roots
      ensures if Asked(ev, MetaOf(id)) then Missed(p.meta(id)) else |ev| >= lim.ceilings.maxRequests
    {
      assert Item(id) in g.nodes && g.nodes[Item(id)].isRoot;
      assert ItemTold(id, s, [], last, p, lim);
      if Asked(ev, MetaOf(id)) {
        var e :| e in ev && e.query == MetaOf(id);
        assert !Useful(e, p);
      } else {
        assert ReasonHolds(RequestCeiling, s, [], last, lim);
      }
    }
  }

  /** A trace fails for a cause: a portal answer that cannot be used, within a run whose
      requests are all accounted for; an answer for another item; or no retained root with
      a usable answer. Services never collide. */
  lemma TraceFailsForCause(p: Portal, roots: seq<Text>, lim: Limits, sha: Text -> Text)
    requires Trace(p, roots, lim, sha).Err?
    ensures Caused(Trace(p, roots, lim, sha).error, RetainedRoots(roots, lim), p, lim)
  {
    var ids := CanonicalRoots(roots);
    var kept := RetainedRoots(roots, lim);
    CanonicalUnique(Same, LowerAll(roots), LowerAll(roots));
    StrictNoRepeats(Same, ids);
    RootsReady(roots, lim);
    RootNodes(ids, lim);
    RootReasons(ids, lim);
    hide CanonicalRoots, AddRoots, RootGraph, Ready, Told, AllAbove, Caused, RetainedRoots, Finished, RootsAre;
    var start := AddRoots(ids, lim);
    var s := State(start, Budget(0, 0, [], 0));
    RootsTold(start, start.next, p, lim, sha);
    WalkFails(s, lim, p, sha, start.next, 0, kept);
    var last := WalkTells(s, lim, p, sha, start.next, 0);
    var end := WalkKeeps(s, lim, p, sha, start.next, 0, kept);
    var r := Walk(s, lim, p, sha, start.next, 0);
    if r.Ok? {
      NothingUseful(r.value, last, end, kept, p, lim, sha);
      assert Caused(NothingSucceeded, kept, p, lim) by { SomeMissed(kept, r.value.budget.evidence, p, lim); }
    }
  }

  lemma SomeMissed(roots: seq<Text>, ev: seq<Evidence<Query>>, p: Portal, lim: Limits)
    requires AllMissed(roots, ev, p, lim)
    ensures Caused(NothingSucceeded, roots, p, lim)
  {
    hide AllMissed;
  }
}
