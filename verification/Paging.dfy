/** The feature query: layer metadata, matched ids, then pages by id, split in halves
    whenever the server says a page is too large. */
module Paging {
  import opened Wrappers
  import opened ArcGisRest
  import opened PagingModel
  import opened PagingOutcome

  const FALLBACK_MAX_RECORD_COUNT := 1000
  const MAX_PAGE_SIZE := 2000

  datatype QueryName = LayerMetadata | QueryIds | QueryFeatures(attempt: nat)

  /** A feature as some accepted page gave it for a batch that asked for it. */
  ghost predicate GivenIn(server: Server, attempt: nat, batch: seq<int>, id: int, content: string) {
    match server.page(attempt, batch)
    case Received(_, _, _, Json(json)) => PageFits(json, batch) && id in batch && Holds(json.rows.value, id, content)
    case _ => false
  }

  ghost predicate Given(server: Server, id: int, content: string) {
    exists attempt, batch :: GivenIn(server, attempt, batch, id, content)
  }

  lemma PageIsWhole(json: PageJson, batch: seq<int>)
    requires PageFits(json, batch)
    ensures json.rows.Some? && json.exceeded != Is(true)
  {
  }

  datatype Feature = Feature(id: int, content: string)

  /** One feature for each selected id, in order, each as the server gave it. */
  ghost predicate Retrieved(server: Server, selected: seq<int>, features: seq<Feature>) {
    && |features| == |selected|
    && forall i :: 0 <= i < |selected| ==>
      features[i].id == selected[i] && Given(server, features[i].id, features[i].content)
  }

  // ------------------------------------------------------------------ collecting

  ghost predicate SameKeys(collected: map<int, string>, done: seq<int>) {
    |collected| == |done| && forall x :: x in collected <==> x in done
  }

  /** The ids of a batch are new, and together with what was collected they are the
      next stretch of the selected ids. */
  lemma BatchIsApart(selected: seq<int>, done: seq<int>, batch: seq<int>, rest: seq<int>)
    requires Ascending(selected) && selected == done + (batch + rest)
    ensures NoRepeats(batch) && forall x :: x in done ==> x !in batch
  {
    forall i, j | 0 <= i < |done| && 0 <= j < |batch| ensures done[i] != batch[j] {
      assert selected[i] == done[i] && selected[|done| + j] == batch[j];
    }
    forall i, j | 0 <= i < j < |batch| ensures batch[i] != batch[j] {
      assert selected[|done| + i] == batch[i] && selected[|done| + j] == batch[j];
    }
  }

  lemma BatchIsNew(selected: seq<int>, done: seq<int>, batch: seq<int>, rest: seq<int>,
                   collected: map<int, string>, features: map<int, string>)
    requires Ascending(selected) && selected == done + (batch + rest)
    requires SameKeys(collected, done) && forall x :: x in features <==> x in batch
    ensures collected.Keys !! features.Keys && SameKeys(collected + features, done + batch)
  {
    BatchIsApart(selected, done, batch, rest);
    DistinctCount(batch);
    var ids := set x | x in batch;
    forall x ensures x in features.Keys <==> x in ids {
      assert x in features <==> x in batch;
    }
    assert features.Keys == ids;
    assert (collected + features).Keys == collected.Keys + features.Keys;
  }

  lemma {:induction false} DistinctCount(xs: seq<int>)
    requires NoRepeats(xs)
    ensures |set x | x in xs| == |xs|
  {
    if xs != [] {
      DistinctCount(xs[1..]);
      assert xs[0] !in xs[1..];
      assert xs == [xs[0]] + xs[1..];
      assert (set x | x in xs) == {xs[0]} + (set x | x in xs[1..]);
    } else {
      assert (set x | x in xs) == {};
    }
  }

  ghost predicate AllGiven(server: Server, features: map<int, string>) {
    forall x :: x in features ==> Given(server, x, features[x])
  }

  lemma NothingDone(server: Server, pending: seq<seq<int>>)
    ensures SameKeys(map[], []) && AllGiven(server, map[]) && [] + Flatten(pending) == Flatten(pending)
  {
  }

  lemma GivenMore(server: Server, collected: map<int, string>, features: map<int, string>)
    requires AllGiven(server, collected) && AllGiven(server, features)
    ensures AllGiven(server, collected + features)
  {
    hide Given;
  }

  /** The selected features in order. */
  function Listed(selected: seq<int>, collected: map<int, string>): (r: seq<Feature>)
    requires forall i :: 0 <= i < |selected| ==> selected[i] in collected
    ensures |r| == |selected|
    ensures forall i :: 0 <= i < |selected| ==> r[i] == Feature(selected[i], collected[selected[i]])
  {
    seq(|selected|, i requires 0 <= i < |selected| => Feature(selected[i], collected[selected[i]]))
  }

  lemma AllDone(server: Server, selected: seq<int>, done: seq<int>, pending: seq<seq<int>>, collected: map<int, string>)
    requires pending == [] && selected == done + Flatten(pending) && SameKeys(collected, done)
    requires AllGiven(server, collected)
    ensures |collected| == |selected| && forall i :: 0 <= i < |selected| ==> selected[i] in collected
    ensures Retrieved(server, selected, Listed(selected, collected))
  {
    assert selected == done;
    forall i | 0 <= i < |selected| ensures selected[i] in collected {
      var x := done[i];
      assert x in done;
      assert x in collected;
    }
  }

  /** Where the query was started: the server, the ceilings, the requests and bytes
      spent before, and the batches asked for. */
  datatype Outset = Outset(server: Server, lim: Ceilings, requests: nat, used: nat, selected: seq<int>,
                           first: seq<seq<int>>)

  /** After some good pages: what was collected, followed by what is pending, spells the
      selected ids, and the queue is the one that the server's answers leave. */
  ghost predicate Collecting(o: Outset, done: seq<int>, pending: seq<seq<int>>, collected: map<int, string>,
                             pages: nat) {
    && o.selected == done + Flatten(pending) && Ascending(o.selected) && NonEmpty(pending) && SameKeys(collected, done)
    && AllGiven(o.server, collected)
    && pages + Potential(pending) <= Potential(o.first) && 0 <= Potential(pending)
    && pending == QueueAfter(o.server, o.first, pages) && PagesServe(o.server, o.lim, o.used, o.first, pages)
    && o.requests + pages <= o.lim.maxRequests
  }

  lemma NoneCollected(o: Outset)
    requires o.selected == Flatten(o.first) && Ascending(o.selected) && NonEmpty(o.first)
    requires o.requests <= o.lim.maxRequests
    ensures Collecting(o, [], o.first, map[], 0) && BytesThrough(o.server, o.first, 0) == 0
  {
    PotentialIsNatural(o.first);
    NothingDone(o.server, o.first);
  }

  lemma SplitCollects(o: Outset, done: seq<int>, pending: seq<seq<int>>, collected: map<int, string>, pages: nat,
                      reply: Reply<PageJson>)
    requires Collecting(o, done, pending, collected, pages) && pending != []
    requires reply == o.server.page(pages + 1, pending[0]) && reply.Received?
    requires o.requests + pages < o.lim.maxRequests
    requires Verdict(o.lim, o.used + BytesThrough(o.server, o.first, pages), reply).Ok?
    requires CutShort(reply) && |pending[0]| > 1
    ensures var split := Halves(pending[0]) + pending[1..];
            Collecting(o, done, split, collected, pages + 1) && Potential(split) < Potential(pending)
    ensures BytesThrough(o.server, o.first, pages + 1) == BytesThrough(o.server, o.first, pages) + BytesOf(reply)
  {
    hide Flatten, AllGiven, SameKeys, Ascending, QueueAfter, BytesThrough, PagesServe, PageFits;
    PageCounts(o.server, o.lim, o.used, o.first, pages);
    SplitKeeps(pending);
    PotentialIsNatural(Halves(pending[0]) + pending[1..]);
    hide Potential, NonEmpty;
  }

  lemma PageCollects(o: Outset, done: seq<int>, pending: seq<seq<int>>, collected: map<int, string>, pages: nat,
                     reply: Reply<PageJson>, features: map<int, string>)
    requires Collecting(o, done, pending, collected, pages) && pending != []
    requires reply == o.server.page(pages + 1, pending[0]) && reply.Received?
    requires o.requests + pages < o.lim.maxRequests
    requires Verdict(o.lim, o.used + BytesThrough(o.server, o.first, pages), reply).Ok?
    requires !CutShort(reply) && PageFits(reply.body.value, pending[0])
    requires (forall x :: x in features <==> x in pending[0]) && AllGiven(o.server, features)
    ensures collected.Keys !! features.Keys
    ensures Collecting(o, done + pending[0], pending[1..], collected + features, pages + 1)
    ensures Potential(pending[1..]) < Potential(pending)
    ensures BytesThrough(o.server, o.first, pages + 1) == BytesThrough(o.server, o.first, pages) + BytesOf(reply)
  {
    hide Flatten, AllGiven, SameKeys, Ascending, QueueAfter, BytesThrough, PagesServe, PageFits;
    PageCounts(o.server, o.lim, o.used, o.first, pages);
    TakeKeeps(pending);
    PotentialIsNatural(pending[1..]);
    hide Potential, NonEmpty;
    BatchIsNew(o.selected, done, pending[0], Flatten(pending[1..]), collected, features);
    GivenMore(o.server, collected, features);
    Regroup(done, pending[0], Flatten(pending[1..]));
  }

  lemma FirstBatch(o: Outset, done: seq<int>, pending: seq<seq<int>>, collected: map<int, string>, pages: nat)
    requires Collecting(o, done, pending, collected, pages) && pending != []
    ensures pending[0] != [] && pages < Potential(o.first) && QueueAfter(o.server, o.first, pages) == pending
    ensures PagesServe(o.server, o.lim, o.used, o.first, pages) && 0 <= Potential(pending)
  {
    PotentialIsNatural(pending);
    hide Potential, Flatten, AllGiven, SameKeys, Ascending, QueueAfter, PagesServe;
    assert pending[0] in pending;
  }

  lemma AllCollected(o: Outset, done: seq<int>, collected: map<int, string>, pages: nat)
    requires Collecting(o, done, [], collected, pages)
    ensures |collected| == |o.selected| && forall i :: 0 <= i < |o.selected| ==> o.selected[i] in collected
    ensures Retrieved(o.server, o.selected, Listed(o.selected, collected))
    ensures AllServed(o.server, o.lim, o.requests, o.used, o.first) && pages <= Potential(o.first)
  {
    assert ServedBy(o.server, o.lim, o.requests, o.used, o.first, pages);
    hide AllGiven, SameKeys, Ascending, QueueAfter, PagesServe, Retrieved;
    AllDone(o.server, o.selected, done, [], collected);
  }

  /** A page that fails to serve is where the query stops. */
  lemma FetchStops(server: Server, lim: Ceilings, base: nat, used: nat, first: seq<seq<int>>, k: nat, e: QueryError)
    requires QueueAfter(server, first, k) != []
    requires FetchFails(lim, base + k, used + BytesThrough(server, first, k),
                        server.page(k + 1, QueueAfter(server, first, k)[0]),
                        QueueAfter(server, first, k)[0], e)
    ensures StopsAt(server, lim, base, used, first, k, e)
  {
    hide QueueAfter, BytesThrough, PageFault, PageFits, Verdict;
  }

  lemma StoppedShort(o: Outset, k: nat, e: QueryError)
    requires StopsAt(o.server, o.lim, o.requests, o.used, o.first, k, e)
    ensures !AllServed(o.server, o.lim, o.requests, o.used, o.first)
    ensures !e.DuplicateAcrossBatches? && !e.Incomplete? && !e.BadIds?
    ensures e.RequestCeilingMet? ==> o.requests + k >= o.lim.maxRequests
  {
    StoppedForGood(o.server, o.lim, o.requests, o.used, o.first, k, e);
  }

  lemma SingleStops(server: Server, lim: Ceilings, base: nat, used: nat, first: seq<seq<int>>, k: nat)
    requires QueueAfter(server, first, k) != [] && |QueueAfter(server, first, k)[0]| == 1 && base + k < lim.maxRequests
    requires var reply := server.page(k + 1, QueueAfter(server, first, k)[0]);
             Verdict(lim, used + BytesThrough(server, first, k), reply).Ok? && CutShort(reply)
    ensures StopsAt(server, lim, base, used, first, k, SingleIdExceeded)
  {
    hide QueueAfter, BytesThrough, Verdict;
  }

  /** A page that serves its batch is one good page more. */
  lemma PageCounts(server: Server, lim: Ceilings, used: nat, first: seq<seq<int>>, k: nat)
    requires PagesServe(server, lim, used, first, k) && QueueAfter(server, first, k) != []
    requires var q, reply := QueueAfter(server, first, k), server.page(k + 1, QueueAfter(server, first, k)[0]);
             && Verdict(lim, used + BytesThrough(server, first, k), reply).Ok?
             && (if CutShort(reply) then |q[0]| > 1 else PageFits(reply.body.value, q[0]))
    ensures PagesServe(server, lim, used, first, k + 1)
    ensures var q, reply := QueueAfter(server, first, k), server.page(k + 1, QueueAfter(server, first, k)[0]);
            && BytesThrough(server, first, k + 1) == BytesThrough(server, first, k) + BytesOf(reply)
            && QueueAfter(server, first, k + 1) == if CutShort(reply) then Halves(q[0]) + q[1..] else q[1..]
  {
    var reply := server.page(k + 1, QueueAfter(server, first, k)[0]);
    AcceptedMeaning(lim, used + BytesThrough(server, first, k), reply);
    hide PageFits, Verdict;
    assert PageServes(server, lim, used, first, k);
  }

  // -------------------------------------------------------------------- the query

  class Query {
    const server: Server
    const ceilings: Ceilings
    var budget: Budget<QueryName>

    constructor (server: Server, ceilings: Ceilings)
      ensures this.server == server && this.ceilings == ceilings && budget == Budget(0, 0, [], 0)
    {
      this.server, this.ceilings := server, ceilings;
      budget := Budget(0, 0, [], 0);
    }

    /** The books are in order, and no feature request after this attempt was made. */
    ghost predicate InOrder(attempt: nat)
      reads this
    {
      && BudgetFits(budget, ceilings)
      && forall e :: e in budget.evidence && e.query.QueryFeatures? ==> e.query.attempt <= attempt
    }

    /** Refuses at the request ceiling. Otherwise the attempt counts, a received response
        leaves its record and its bytes even when it fails, and only a usable response
        within the byte ceilings is passed on. */
    method Dispatch<T>(name: QueryName, reply: Reply<T>) returns (r: Result<T, QueryError>)
      requires BudgetFits(budget, ceilings) && !Asked(budget.evidence, name)
      modifies this`budget
      ensures old(budget).requestCount >= ceilings.maxRequests ==> r == Err(RequestCeilingMet) && budget == old(budget)
      ensures old(budget).requestCount < ceilings.maxRequests ==>
                && r == (match Verdict(ceilings, old(budget).bytesUsed, reply)
                         case Ok(json) => Ok(json)
                         case Err(f) => Err(Transport(f)))
                && budget.requestCount == old(budget).requestCount + 1
                && if reply.Lost? || old(budget).bytesUsed >= ceilings.maxTotalBytes
                   then budget.evidence == old(budget).evidence && budget.bytesUsed == old(budget).bytesUsed
                   else budget.evidence == old(budget).evidence + [Evidence(name, BytesOf(reply))]
                        && budget.bytesUsed == old(budget).bytesUsed + BytesOf(reply)
      ensures r.Ok? ==> reply.Received? && reply.body == Json(r.value) && BudgetFits(budget, ceilings)
                        && budget.bytesUsed == old(budget).bytesUsed + reply.bytes
    {
      if budget.requestCount >= ceilings.maxRequests {
        return Err(RequestCeilingMet);
      }
      RequestKeeps(budget, ceilings, name, reply);
      AcceptedMeaning(ceilings, budget.bytesUsed, reply);
      hide BudgetFits, Judge, Asked;
      var (b, verdict) := Request(budget, ceilings, name, reply);
      budget := b;
      match verdict
      case Ok(json) => r := Ok(json);
      case Err(f) => r := Err(Transport(f));
    }

    lemma GivenBy(attempt: nat, batch: seq<int>, x: int, content: string)
      requires GivenIn(server, attempt, batch, x, content)
      ensures Given(server, x, content)
    {
    }

    lemma NotYetAsked(attempt: nat)
      requires InOrder(attempt)
      ensures !Asked(budget.evidence, QueryFeatures(attempt + 1))
    {
    }

    /** Dispatches one batch and checks the page against it. */
    method FetchPage(attempt: nat, batch: seq<int>) returns (r: Result<Page, QueryError>)
      requires attempt > 0 && InOrder(attempt - 1)
      modifies this`budget
      ensures r.Ok? ==>
                && old(budget).requestCount < ceilings.maxRequests
                && Verdict(ceilings, old(budget).bytesUsed, server.page(attempt, batch)).Ok?
                && server.page(attempt, batch).Received? && InOrder(attempt)
                && budget.requestCount == old(budget).requestCount + 1
                && budget.bytesUsed == old(budget).bytesUsed + BytesOf(server.page(attempt, batch))
      ensures r == Ok(Exceeded) ==> CutShort(server.page(attempt, batch))
      ensures r.Ok? && r.value.Complete? ==>
                && !CutShort(server.page(attempt, batch)) && PageFits(server.page(attempt, batch).body.value, batch)
                && (forall x :: x in r.value.features <==> x in batch) && AllGiven(server, r.value.features)
      ensures r.Err? ==>
                FetchFails(ceilings, old(budget).requestCount, old(budget).bytesUsed, server.page(attempt, batch),
                           batch, r.error)
    {
      hide BudgetFits, Given, PageFits, PageFault, Holds, Verdict, Asked;
      NotYetAsked(attempt - 1);
      var json := Dispatch(QueryFeatures(attempt), server.page(attempt, batch));
      if json.Err? {
        return Err(json.error);
      }
      var page := ValidateFeaturePage(json.value, batch);
      match page
      case Err(e) => r := Err(BadPage(e));
      case Ok(value) =>
        r := Ok(value);
        if value.Complete? {
          PageIsWhole(json.value, batch);
          forall x | x in value.features ensures Given(server, x, value.features[x]) {
            GivenBy(attempt, batch, x, value.features[x]);
          }
        }
    }

    /** The loop over the queue: one dispatch after another, halving what is too large. */
    method CollectPages(first: seq<seq<int>>, ghost o: Outset)
      returns (r: Result<map<int, string>, QueryError>, ghost pages: nat, ghost done: seq<int>)
      requires o == Outset(server, ceilings, budget.requestCount, budget.bytesUsed, o.selected, first)
      requires Collecting(o, [], first, map[], 0) && BytesThrough(server, first, 0) == 0 && InOrder(0)
      modifies this`budget
      ensures r.Ok? ==>
        Collecting(o, done, [], r.value, pages) && InOrder(pages) && budget.requestCount == o.requests + pages
      ensures r.Err? ==>
                && pages < Potential(first) && PagesServe(server, ceilings, o.used, first, pages)
                && StopsAt(server, ceilings, o.requests, o.used, first, pages, r.error)
    {
      hide *;
      var pending, collected, attempt := first, map[], 0;
      done := [];
      while pending != []
        invariant Collecting(o, done, pending, collected, attempt) && InOrder(attempt)
        invariant budget.requestCount == o.requests + attempt
        invariant budget.bytesUsed == o.used + BytesThrough(server, first, attempt)
        decreases Potential(pending)
      {
        FirstBatch(o, done, pending, collected, attempt);
        var batch, rest := pending[0], pending[1..];
        pages := attempt;
        attempt := attempt + 1;
        var page := FetchPage(attempt, batch);
        if page.Err? {
          FetchStops(server, ceilings, o.requests, o.used, first, pages, page.error);
          return Err(page.error), pages, done;
        }
        match page.value
        case Exceeded =>
          if |batch| == 1 {
            SingleStops(server, ceilings, o.requests, o.used, first, pages);
            return Err(SingleIdExceeded), pages, done;
          }
          SplitCollects(o, done, pending, collected, pages, server.page(attempt, batch));
          pending := Halves(batch) + rest;
        case Complete(features) =>
          PageCollects(o, done, pending, collected, pages, server.page(attempt, batch), features);
          if !(collected.Keys !! features.Keys) {
            return Err(DuplicateAcrossBatches), pages, done;
          }
          collected, done, pending := collected + features, done + batch, rest;
      }
      pages := attempt;
      r := Ok(collected);
    }

    /** Retrieves the selected ids batch by batch. It succeeds exactly when the server's
        pages serve all batches within the ceilings, and then there is one feature for
        each id, in order. Dispatches are at most twice the ids less the first batches.
        A failure has its cause in the page after the good ones; the two checks across
        batches never fail. */
    method CollectFeatures(selected: seq<int>, pageSize: nat)
      returns (r: Result<seq<Feature>, QueryError>, ghost pages: nat)
      requires Ascending(selected) && pageSize > 0 && InOrder(0)
      modifies this`budget
      ensures r.Ok? <==>
              AllServed(server, ceilings, old(budget).requestCount, old(budget).bytesUsed, Slices(selected, pageSize))
      ensures r.Ok? ==> Retrieved(server, selected, r.value) && BudgetFits(budget, ceilings)
      ensures r.Err? ==>
                && PagesServe(server, ceilings, old(budget).bytesUsed, Slices(selected, pageSize), pages)
                && StopsAt(server, ceilings, old(budget).requestCount, old(budget).bytesUsed,
                           Slices(selected, pageSize), pages, r.error)
      ensures r.Err? ==> !r.error.DuplicateAcrossBatches? && !r.error.Incomplete? && !r.error.BadIds?
      ensures var n, m := |selected|, BatchCount(|selected|, pageSize);
              && (r.Ok? ==> budget.requestCount - old(budget).requestCount <= 2 * n - m)
              && (r == Err(RequestCeilingMet) ==> ceilings.maxRequests - old(budget).requestCount < 2 * n - m)
    {
      BooksFit();
      var pending := Batches(selected, pageSize);
      assert Potential(pending) == 2 * |selected| - BatchCount(|selected|, pageSize);
      hide *;
      ghost var o, done := Outset(server, ceilings, budget.requestCount, budget.bytesUsed, selected, pending), [];
      NoneCollected(o);
      var collected;
      collected, pages, done := CollectPages(pending, o);
      if collected.Err? {
        StoppedShort(o, pages, collected.error);
        return Err(collected.error), pages;
      }
      AllCollected(o, done, collected.value, pages);
      BooksFitNow(pages);
      if |collected.value| != |selected| {
        return Err(Incomplete), pages;
      }
      r := Ok(Listed(selected, collected.value));
    }

    lemma BooksFitNow(attempt: nat)
      requires InOrder(attempt)
      ensures BudgetFits(budget, ceilings)
    {
    }

    ghost predicate OnlyMetadata()
      reads this
    {
      BudgetFits(budget, ceilings) && forall e :: e in budget.evidence ==> e.query == LayerMetadata
    }

    method FetchIds() returns (r: Result<seq<int>, QueryError>)
      requires OnlyMetadata()
      modifies this`budget
      ensures r.Ok? ==>
                && old(budget).requestCount < ceilings.maxRequests
                && Verdict(ceilings, old(budget).bytesUsed, server.ids).Ok?
                && Matched(server, r.value) && InOrder(0) && budget.requestCount == old(budget).requestCount + 1
                && budget.bytesUsed == old(budget).bytesUsed + BytesOf(server.ids)
      ensures r.Err? ==> IdsFail(server, ceilings, old(budget).requestCount, old(budget).bytesUsed, r.error)
    {
      hide BudgetFits, GoodIds, Ascending, IdsFault, Verdict;
      var json := Dispatch(QueryIds, server.ids);
      if json.Err? {
        return Err(json.error);
      }
      var matched := ValidateObjectIds(json.value);
      match matched
      case Err(e) => r := Err(BadIds(e));
      case Ok(ids) => r := Ok(ids);
    }

    /** The whole query. It succeeds exactly when all its answers arrive within the
        ceilings, the ids are good, and the pages serve them. Then the features are those
        of the lowest matched ids, in order, and the books account for every request.
        A failure names what was wrong with the first answer that was. */
    method Execute(maxRecords: nat, requestedPageSize: Option<nat>) returns (r: Result<Answer, QueryError>)
      requires budget == Budget(0, 0, [], 0)
      requires requestedPageSize.Some? ==> requestedPageSize.value > 0
      modifies this`budget
      ensures r.Ok? <==> Succeeds(server, ceilings, maxRecords, requestedPageSize)
      ensures r.Ok? ==> Answered(server, maxRecords, r.value)
      ensures r.Ok? ==> budget.requestCount == |budget.evidence| <= ceilings.maxRequests
      ensures r.Ok? ==> budget.bytesUsed == SumBytes(budget.evidence) <= ceilings.maxTotalBytes
      ensures r.Err? ==> FailsAs(server, ceilings, maxRecords, requestedPageSize, r.error)
    {
      hide *;
      var pageSize := FetchPageSize(requestedPageSize);
      if pageSize.Err? {
        NoMetadata(server, ceilings, maxRecords, requestedPageSize, pageSize.error);
        return Err(pageSize.error);
      }
      var matched := FetchIds();
      if matched.Err? {
        NoIds(server, ceilings, maxRecords, requestedPageSize, matched.error);
        return Err(matched.error);
      }
      var selected := Lowest(matched.value, maxRecords);
      LowestAscends(server, matched.value, maxRecords);
      var features, pages := CollectFeatures(selected, pageSize.value);
      DependsOnPages(server, ceilings, maxRecords, requestedPageSize, matched.value, pageSize.value);
      if features.Err? {
        PagesFail(server, ceilings, maxRecords, requestedPageSize, matched.value, pageSize.value, pages,
                  features.error);
        return Err(features.error);
      }
      BooksFit();
      r := Ok(Answer(features.value, matched.value, |selected| < |matched.value|));
      IsAnswer(server, maxRecords, r.value);
    }

    lemma BooksFit()
      requires BudgetFits(budget, ceilings)
      ensures budget.requestCount == |budget.evidence| <= ceilings.maxRequests
      ensures budget.bytesUsed == SumBytes(budget.evidence) <= ceilings.maxTotalBytes
    {
    }

    /** The layer's metadata, and the page size it leaves. */
    method FetchPageSize(requested: Option<nat>) returns (r: Result<nat, QueryError>)
      requires budget == Budget(0, 0, [], 0) && (requested.Some? ==> requested.value > 0)
      modifies this`budget
      ensures r.Ok? ==>
                && ceilings.maxRequests > 0 && Verdict(ceilings, 0, server.metadata).Ok? && !server.metadata.Lost?
                && r.value == PageSizeOf(Verdict(ceilings, 0, server.metadata).value, requested) && r.value > 0
                && OnlyMetadata() && budget.requestCount == 1 && budget.bytesUsed == BytesOf(server.metadata)
      ensures r.Err? ==> Refuses(ceilings, 0, 0, server.metadata, r.error)
    {
      NothingAsked(ceilings);
      hide BudgetFits, Asked, Verdict;
      var metadata := Dispatch(LayerMetadata, server.metadata);
      match metadata
      case Err(e) => r := Err(e);
      case Ok(count) =>
        var declared := if count.Some? && count.value > 0 then count.value else FALLBACK_MAX_RECORD_COUNT;
        r := Ok(Least(Least(if requested.Some? then requested.value else declared, declared), MAX_PAGE_SIZE));
    }
  }

  /** The smallest of what was asked for, what the layer declares and the fixed limit. */
  function PageSizeOf(count: Option<nat>, requested: Option<nat>): (r: nat)
    ensures r <= MAX_PAGE_SIZE && (requested.Some? ==> r <= requested.value)
    ensures count.Some? && count.value > 0 ==> r <= count.value
    ensures (requested.Some? ==> requested.value > 0) ==> r > 0
  {
    var declared := if count.Some? && count.value > 0 then count.value else FALLBACK_MAX_RECORD_COUNT;
    Least(Least(if requested.Some? then requested.value else declared, declared), MAX_PAGE_SIZE)
  }

  /** The page size is the least of three: what was asked for, what the layer declares, or
      1000 if it declares nothing usable, and 2000. */
  lemma PageSizeMeaning(count: Option<nat>, requested: Option<nat>)
    ensures var r := PageSizeOf(count, requested);
            var declared := if count.Some? && count.value > 0 then count.value else 1000;
            && r <= 2000 && r <= declared && (requested.Some? ==> r <= requested.value)
            && (r == 2000 || r == declared || requested == Some(r))
  {
  }

  // -------------------------------------------------------------- the whole outcome

  ghost predicate Refuses<T>(lim: Ceilings, requests: nat, used: nat, reply: Reply<T>, e: QueryError) {
    if requests >= lim.maxRequests then e == RequestCeilingMet
    else Verdict(lim, used, reply).Err? && e == Transport(Verdict(lim, used, reply).error)
  }

  ghost predicate IdsFail(server: Server, lim: Ceilings, requests: nat, used: nat, e: QueryError) {
    || Refuses(lim, requests, used, server.ids, e)
    || (requests < lim.maxRequests && Verdict(lim, used, server.ids).Ok?
        && !GoodIds(Verdict(lim, used, server.ids).value)
        && e.BadIds? && IdsFault(Verdict(lim, used, server.ids).value, e.error))
  }

  ghost predicate MetadataArrives(server: Server, lim: Ceilings) {
    lim.maxRequests > 0 && !server.metadata.Lost? && Verdict(lim, 0, server.metadata).Ok?
  }

  ghost predicate IdsArrive(server: Server, lim: Ceilings) {
    && MetadataArrives(server, lim) && lim.maxRequests > 1 && !server.ids.Lost?
    && Verdict(lim, BytesOf(server.metadata), server.ids).Ok?
    && GoodIds(Verdict(lim, BytesOf(server.metadata), server.ids).value)
  }

  /** The batches that a list of matched ids is retrieved in. */
  ghost function FirstBatches(server: Server, lim: Ceilings, maxRecords: nat, requested: Option<nat>,
                              matched: seq<int>): seq<seq<int>>
    requires MetadataArrives(server, lim) && (requested.Some? ==> requested.value > 0)
  {
    Slices(Lowest(matched, maxRecords), PageSizeOf(Verdict(lim, 0, server.metadata).value, requested))
  }

  /** Both answers arrive, the ids are good, and the pages serve the lowest of them. */
  ghost predicate Succeeds(server: Server, lim: Ceilings, maxRecords: nat, requested: Option<nat>)
    requires requested.Some? ==> requested.value > 0
  {
    && IdsArrive(server, lim)
    && exists matched :: Matched(server, matched)
                         && AllServed(server, lim, 2, BytesOf(server.metadata) + BytesOf(server.ids),
                                      FirstBatches(server, lim, maxRecords, requested, matched))
  }

  ghost predicate PagesStop(server: Server, lim: Ceilings, maxRecords: nat, requested: Option<nat>, matched: seq<int>,
                            k: nat, e: QueryError)
    requires IdsArrive(server, lim) && (requested.Some? ==> requested.value > 0)
  {
    var used, first := BytesOf(server.metadata) + BytesOf(server.ids),
      FirstBatches(server, lim, maxRecords, requested, matched);
    Matched(server, matched) && PagesServe(server, lim, used, first, k) && StopsAt(server, lim, 2, used, first, k, e)
  }

  /** What was wrong with the first answer that was. */
  ghost predicate FailsAs(server: Server, lim: Ceilings, maxRecords: nat, requested: Option<nat>, e: QueryError)
    requires requested.Some? ==> requested.value > 0
  {
    if !MetadataArrives(server, lim) then Refuses(lim, 0, 0, server.metadata, e)
    else if !IdsArrive(server, lim) then IdsFail(server, lim, 1, BytesOf(server.metadata), e)
    else exists matched, k :: PagesStop(server, lim, maxRecords, requested, matched, k, e)
  }

  lemma NoMetadata(server: Server, lim: Ceilings, maxRecords: nat, requested: Option<nat>, e: QueryError)
    requires Refuses(lim, 0, 0, server.metadata, e) && (requested.Some? ==> requested.value > 0)
    ensures !Succeeds(server, lim, maxRecords, requested) && FailsAs(server, lim, maxRecords, requested, e)
  {
  }

  lemma NoIds(server: Server, lim: Ceilings, maxRecords: nat, requested: Option<nat>, e: QueryError)
    requires lim.maxRequests > 0 && !server.metadata.Lost? && Verdict(lim, 0, server.metadata).Ok?
    requires IdsFail(server, lim, 1, BytesOf(server.metadata), e) && (requested.Some? ==> requested.value > 0)
    ensures !Succeeds(server, lim, maxRecords, requested) && FailsAs(server, lim, maxRecords, requested, e)
  {
    hide GoodIds, Verdict, IdsFault;
  }

  lemma MatchedUnique(server: Server, a: seq<int>, b: seq<int>)
    requires Matched(server, a) && Matched(server, b)
    ensures a == b
  {
    assert forall x :: x in a <==> x in b;
    AscendingUnique(a, b);
  }

  lemma DependsOnPages(server: Server, lim: Ceilings, maxRecords: nat, requested: Option<nat>, matched: seq<int>,
                       pageSize: nat)
    requires lim.maxRequests > 1 && !server.metadata.Lost? && Verdict(lim, 0, server.metadata).Ok?
    requires Verdict(lim, BytesOf(server.metadata), server.ids).Ok? && Matched(server, matched)
    requires (requested.Some? ==> requested.value > 0)
    requires pageSize == PageSizeOf(Verdict(lim, 0, server.metadata).value, requested)
    ensures IdsArrive(server, lim) && pageSize > 0
    ensures FirstBatches(server, lim, maxRecords, requested, matched) == Slices(Lowest(matched, maxRecords), pageSize)
    ensures Succeeds(server, lim, maxRecords, requested) <==>
            AllServed(server, lim, 2, BytesOf(server.metadata) + BytesOf(server.ids),
                      Slices(Lowest(matched, maxRecords), pageSize))
  {
    AcceptedMeaning(lim, BytesOf(server.metadata), server.ids);
    IdsAreGood(server, matched);
    hide GoodIds, Verdict, Slices, Lowest, AllServed, PageSizeOf, Arrives;
    forall other | Matched(server, other) ensures other == matched {
      MatchedUnique(server, other, matched);
    }
    hide Matched;
  }

  lemma IdsAreGood(server: Server, matched: seq<int>)
    requires Matched(server, matched)
    ensures !server.ids.Lost? && server.ids.Received? && server.ids.body.Json? && GoodIds(server.ids.body.value)
  {
  }

  lemma PagesFail(server: Server, lim: Ceilings, maxRecords: nat, requested: Option<nat>, matched: seq<int>,
                  pageSize: nat, k: nat, e: QueryError)
    requires IdsArrive(server, lim) && Matched(server, matched) && (requested.Some? ==> requested.value > 0)
    requires pageSize > 0
    requires FirstBatches(server, lim, maxRecords, requested, matched) == Slices(Lowest(matched, maxRecords), pageSize)
    requires var used, first := BytesOf(server.metadata) + BytesOf(server.ids),
      Slices(Lowest(matched, maxRecords), pageSize);
             PagesServe(server, lim, used, first, k) && StopsAt(server, lim, 2, used, first, k, e)
    ensures FailsAs(server, lim, maxRecords, requested, e)
  {
    hide Matched, PagesServe, StopsAt, Slices, Lowest, Verdict, GoodIds;
    assert PagesStop(server, lim, maxRecords, requested, matched, k, e);
  }

  lemma IsAnswer(server: Server, maxRecords: nat, a: Answer)
    requires Matched(server, a.matched) && Retrieved(server, Lowest(a.matched, maxRecords), a.features)
    requires a.truncated <==> |Lowest(a.matched, maxRecords)| < |a.matched|
    ensures Answered(server, maxRecords, a)
  {
  }

  lemma FewerBytes(a: nat, b: nat, bytes: nat)
    requires a <= b
    ensures a * bytes <= b * bytes
  {
  }

  /** A patient server answers every query that has room for it: requests for twice the
      ids and two more, and bytes for as many pages. */
  lemma PatientServerAnswers(server: Server, lim: Ceilings, maxRecords: nat, requested: Option<nat>, matched: seq<int>,
                             bytes: nat)
    requires requested.Some? ==> requested.value > 0
    requires IdsArrive(server, lim) && Matched(server, matched) && Patient(server, bytes)
    requires bytes <= lim.maxResponseBytes
    requires var pages, used := 2 * |Lowest(matched, maxRecords)|, BytesOf(server.metadata) + BytesOf(server.ids);
             2 + pages <= lim.maxRequests && used + pages * bytes < lim.maxTotalBytes
    ensures Succeeds(server, lim, maxRecords, requested)
  {
    var first := FirstBatches(server, lim, maxRecords, requested, matched);
    SlicesMeaning(Lowest(matched, maxRecords), PageSizeOf(Verdict(lim, 0, server.metadata).value, requested));
    PotentialIsNatural(first);
    FewerBytes(Potential(first), 2 * |Lowest(matched, maxRecords)|, bytes);
    hide IdsArrive, Matched, Patient, Lowest, Verdict, PageSizeOf, Slices, AllServed, Flatten;
    PatientServerServes(server, lim, 2, BytesOf(server.metadata) + BytesOf(server.ids), first, bytes);
  }

  lemma NothingAsked(ceilings: Ceilings)
    ensures BudgetFits<QueryName>(Budget(0, 0, [], 0), ceilings) && !Asked<QueryName>([], LayerMetadata)
  {
  }

  datatype Answer = Answer(features: seq<Feature>, matched: seq<int>, truncated: bool)

  function Lowest(matched: seq<int>, maxRecords: nat): seq<int> {
    matched[..Least(|matched|, maxRecords)]
  }

  lemma LowestAscends(server: Server, matched: seq<int>, maxRecords: nat)
    requires Matched(server, matched)
    ensures Ascending(Lowest(matched, maxRecords)) && |Lowest(matched, maxRecords)| == Least(|matched|, maxRecords)
  {
  }

  /** The ids the server matched, ascending. */
  ghost predicate Matched(server: Server, matched: seq<int>) {
    && Ascending(matched) && server.ids.Received? && server.ids.body.Json?
    && GoodIds(server.ids.body.value)
    && (server.ids.body.value.objectIds.Null? ==> matched == [])
    && (server.ids.body.value.objectIds.Ids? ==>
          forall x :: x in matched <==> x in IdsIn(server.ids.body.value.objectIds.ids))
  }

  ghost predicate Answered(server: Server, maxRecords: nat, a: Answer) {
    && Matched(server, a.matched) && Retrieved(server, Lowest(a.matched, maxRecords), a.features)
    && (a.truncated <==> |a.matched| > maxRecords)
  }

  ghost predicate IsListed(features: seq<Feature>, id: int) {
    exists i :: 0 <= i < |features| && features[i].id == id
  }

  /** An answer lists features in ascending order of their ids, all of them matched; a
      matched id that is not listed comes after all of them, and only if the answer holds
      as many features as it may. It says whether there was such an id. */
  lemma AnswerMeaning(server: Server, maxRecords: nat, a: Answer)
    requires Answered(server, maxRecords, a)
    ensures |a.features| <= maxRecords
    ensures forall i, j :: 0 <= i < j < |a.features| ==> a.features[i].id < a.features[j].id
    ensures forall i :: 0 <= i < |a.features| ==> a.features[i].id in a.matched
    ensures forall x {:trigger IsListed(a.features, x)} :: x in a.matched && !IsListed(a.features, x) ==>
              |a.features| == maxRecords && forall i :: 0 <= i < |a.features| ==> a.features[i].id < x
    ensures a.truncated <==> exists x :: x in a.matched && !IsListed(a.features, x)
  {
    MatchedAscends(server, a.matched);
    hide Matched, Given;
    var n := |a.features|;
    assert Lowest(a.matched, maxRecords) == a.matched[..n];
    assert forall i :: 0 <= i < n ==> a.features[i].id == a.matched[i];
    hide Lowest, Retrieved;
    forall x | x in a.matched && !IsListed(a.features, x)
      ensures n < |a.matched| && n == maxRecords && forall i :: 0 <= i < n ==> a.features[i].id < x
    {
      var j :| 0 <= j < |a.matched| && a.matched[j] == x;
      if j < n {
        assert a.features[j].id == x;
      }
    }
    if n < |a.matched| {
      assert !IsListed(a.features, a.matched[n]);
    }
  }

  // ------------------------------------------------------------------- refinement

  /** The server speaks for one table: it matches its ids, and every row it gives is
      a row of it. It may refuse any page, or call it too large, as it likes. */
  ghost predicate Honest(server: Server, table: map<int, string>) {
    && (forall matched :: Matched(server, matched) ==> forall x :: x in matched <==> x in table)
    && forall attempt, batch, x, content :: GivenIn(server, attempt, batch, x, content) ==>
      x in table && table[x] == content
  }

  /** An honest server's answer is the unpaged query: the rows of the lowest matched
      ids, whatever the page size was and however pages were split. */
  lemma PagedRefinesUnpaged(server: Server, table: map<int, string>, maxRecords: nat, a: Answer, ids: seq<int>)
    requires Honest(server, table) && Answered(server, maxRecords, a)
    requires Ascending(ids) && forall x :: x in ids <==> x in table
    ensures a.matched == ids && forall i :: 0 <= i < |ids| ==> ids[i] in table
    ensures a.features == Listed(Lowest(ids, maxRecords), table)
  {
    hide Matched;
    assert Ascending(a.matched) by { MatchedAscends(server, a.matched); }
    AscendingUnique(a.matched, ids);
    forall i | 0 <= i < |ids| ensures ids[i] in table {
      var x := ids[i];
      assert x in ids;
    }
    hide Honest, GivenIn;
    var selected := Lowest(ids, maxRecords);
    forall i | 0 <= i < |selected| ensures a.features[i] == Feature(selected[i], table[selected[i]]) {
      RowOfTable(server, table, a.features[i]);
    }
  }

  lemma MatchedAscends(server: Server, matched: seq<int>)
    requires Matched(server, matched)
    ensures Ascending(matched)
  {
  }

  lemma RowOfTable(server: Server, table: map<int, string>, f: Feature)
    requires Honest(server, table) && Given(server, f.id, f.content)
    ensures f.id in table && table[f.id] == f.content
  {
    hide Matched, GivenIn;
    var attempt, batch :| GivenIn(server, attempt, batch, f.id, f.content);
  }

  lemma {:induction false} AscendingUnique(xs: seq<int>, ys: seq<int>)
    requires Ascending(xs) && Ascending(ys) && forall x :: x in xs <==> x in ys
    ensures xs == ys
  {
    assert |xs| > 0 ==> xs[0] in xs && xs[0] in ys;
    assert |ys| > 0 ==> ys[0] in ys && ys[0] in xs;
    if xs != [] {
      var i :| 0 <= i < |ys| && ys[i] == xs[0];
      var j :| 0 <= j < |xs| && xs[j] == ys[0];
      assert xs[0] == ys[0];
      HeadAndTail(xs);
      HeadAndTail(ys);
      AscendingUnique(xs[1..], ys[1..]);
    }
  }

  lemma HeadAndTail(xs: seq<int>)
    requires Ascending(xs) && xs != []
    ensures Ascending(xs[1..]) && xs == [xs[0]] + xs[1..] && forall x :: x in xs[1..] <==> x in xs && x != xs[0]
  {
    assert xs == [xs[0]] + xs[1..];
  }
}
