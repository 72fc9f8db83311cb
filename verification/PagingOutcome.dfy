/** How a feature query must end, told from the server's answers alone: the queue of
    batches after each page, when all pages serve, and what else stops it. */
module PagingOutcome {
  import opened Wrappers
  import opened ArcGisRest
  import opened PagingModel

  datatype QueryError =
    | Transport(failure: Failure)
    | RequestCeilingMet
    | BadIds(error: PageError)
    | BadPage(error: PageError)
    | SingleIdExceeded
    | DuplicateAcrossBatches
    | Incomplete

  /** The server: its answers to the three kinds of request. Metadata is the record
      count that the layer declares, if it is usable. */
  datatype Server = Server(metadata: Reply<Option<nat>>, ids: Reply<IdsJson>, page: (nat, seq<int>) -> Reply<PageJson>)

  // -------------------------------------------------------------------- the queue

  /** The server says that the page was cut off. */
  predicate CutShort(reply: Reply<PageJson>) {
    reply.Received? && reply.body.Json? && reply.body.value.exceeded == Is(true)
  }

  function Halves(batch: seq<int>): (r: seq<seq<int>>)
    requires |batch| > 1
    ensures |r| == 2 && r[0] + r[1] == batch && r[0] != [] && r[1] != [] && |r[0]| - |r[1]| in {0, 1}
  {
    var half := (|batch| + 1) / 2;
    [batch[..half], batch[half..]]
  }

  /** What is left of the queue after the page of its first batch. */
  function Remaining(pending: seq<seq<int>>, reply: Reply<PageJson>): seq<seq<int>> {
    if pending == [] then []
    else if CutShort(reply) && |pending[0]| > 1 then Halves(pending[0]) + pending[1..]
    else pending[1..]
  }

  /** The queue after k pages; the page of attempt k is asked for its first batch. */
  function QueueAfter(server: Server, pending: seq<seq<int>>, k: nat): seq<seq<int>> {
    if k == 0 then pending
    else
      var q := QueueAfter(server, pending, k - 1);
      Remaining(q, if q == [] then Lost else server.page(k, q[0]))
  }

  function PageReply(server: Server, pending: seq<seq<int>>, k: nat): Reply<PageJson> {
    var q := QueueAfter(server, pending, k);
    if q == [] then Lost else server.page(k + 1, q[0])
  }

  /** The bytes of the first k pages. */
  function BytesThrough(server: Server, pending: seq<seq<int>>, k: nat): nat {
    if k == 0 then 0
    else
      var reply := PageReply(server, pending, k - 1);
      BytesThrough(server, pending, k - 1) + if reply.Lost? then 0 else BytesOf(reply)
  }

  // ------------------------------------------------------------------- good and bad

  /** What a usable page must say of its batch: all of it, or that it is too much. */
  ghost predicate Serves(json: PageJson, batch: seq<int>) {
    if json.exceeded == Is(true) then |batch| > 1 else PageFits(json, batch)
  }

  /** After k good pages the next one arrives within the ceilings and serves its batch. */
  ghost predicate PageServes(server: Server, lim: Ceilings, used: nat, pending: seq<seq<int>>, k: nat) {
    var q, reply, bytes := QueueAfter(server, pending, k), PageReply(server, pending, k),
      used + BytesThrough(server, pending, k);
    && q != [] && bytes < lim.maxTotalBytes
    && Arrives(reply, Least(lim.maxResponseBytes, lim.maxTotalBytes - bytes)) && Serves(reply.body.value, q[0])
  }

  ghost predicate PagesServe(server: Server, lim: Ceilings, used: nat, pending: seq<seq<int>>, k: nat) {
    forall j {:trigger PageServes(server, lim, used, pending, j)} :: 0 <= j < k ==>
      PageServes(server, lim, used, pending, j)
  }

  /** All batches are served by k pages, and there are requests for them. */
  ghost predicate ServedBy(server: Server, lim: Ceilings, requests: nat, used: nat, pending: seq<seq<int>>, k: nat) {
    QueueAfter(server, pending, k) == [] && requests + k <= lim.maxRequests && PagesServe(server, lim, used, pending, k)
  }

  ghost predicate AllServed(server: Server, lim: Ceilings, requests: nat, used: nat, pending: seq<seq<int>>) {
    exists k: nat :: ServedBy(server, lim, requests, used, pending, k)
  }

  /** Why one dispatch of a batch fails. */
  ghost predicate FetchFails(lim: Ceilings, requests: nat, used: nat, reply: Reply<PageJson>, batch: seq<int>,
                             e: QueryError) {
    var verdict := Verdict(lim, used, reply);
    match e
    case RequestCeilingMet => requests >= lim.maxRequests
    case Transport(f) => requests < lim.maxRequests && verdict == Err(f)
    case BadPage(error) =>
      && requests < lim.maxRequests && verdict.Ok? && verdict.value.exceeded != Is(true)
      && PageFault(verdict.value, batch, error) && !PageFits(verdict.value, batch)
    case _ => false
  }

  /** What stops the query after k good pages: the next dispatch fails, or its page is
      too much although it was asked for one id. */
  ghost predicate StopsAt(server: Server, lim: Ceilings, requests: nat, used: nat, pending: seq<seq<int>>, k: nat,
                          e: QueryError) {
    var q, reply, bytes := QueueAfter(server, pending, k), PageReply(server, pending, k),
      used + BytesThrough(server, pending, k);
    && q != []
    && if e.SingleIdExceeded? then requests + k < lim.maxRequests && Verdict(lim, bytes, reply).Ok? && CutShort(reply)
      && |q[0]| <= 1
       else FetchFails(lim, requests + k, bytes, reply, q[0], e)
  }

  lemma {:induction false} EmptyStays(server: Server, pending: seq<seq<int>>, k: nat, l: nat)
    requires QueueAfter(server, pending, k) == [] && k <= l
    ensures QueueAfter(server, pending, l) == []
    decreases l
  {
    if k < l {
      EmptyStays(server, pending, k, l - 1);
    }
  }

  /** What stops the query leaves no way to serve all batches. */
  lemma StoppedForGood(server: Server, lim: Ceilings, requests: nat, used: nat, pending: seq<seq<int>>, k: nat,
                       e: QueryError)
    requires StopsAt(server, lim, requests, used, pending, k, e)
    ensures !AllServed(server, lim, requests, used, pending)
  {
    AcceptedMeaning(lim, used + BytesThrough(server, pending, k), PageReply(server, pending, k));
    hide QueueAfter, PageReply, BytesThrough, Arrives, PageFits, PageFault, Verdict;
    assert requests + k >= lim.maxRequests || !PageServes(server, lim, used, pending, k);
    forall l: nat ensures !ServedBy(server, lim, requests, used, pending, l) {
      if l <= k && QueueAfter(server, pending, l) == [] {
        EmptyStays(server, pending, l, k);
      }
    }
  }

  // ---------------------------------------------------------- a patient server

  /** Every page of up to so many bytes arrives, and serves whatever batch it is for. */
  ghost predicate Patient(server: Server, bytes: nat) {
    forall attempt: nat, batch: seq<int> {:trigger server.page(attempt, batch)} :: batch != [] ==>
      Arrives(server.page(attempt, batch), bytes) && Serves(server.page(attempt, batch).body.value, batch)
  }

  /** What dispatches remain at most: one for each batch that could still be made, and
      one for each split on the way. */
  function Potential(pending: seq<seq<int>>): int {
    2 * |Flatten(pending)| - |pending|
  }

  lemma PotentialIsNatural(pending: seq<seq<int>>)
    requires NonEmpty(pending)
    ensures Potential(pending) >= |pending|
  {
    BatchesWithinIds(pending);
  }

  /** Halving the first batch keeps the ids in order. */
  lemma SplitKeeps(pending: seq<seq<int>>)
    requires pending != [] && NonEmpty(pending) && |pending[0]| > 1
    ensures var split := Halves(pending[0]) + pending[1..];
            Flatten(split) == Flatten(pending) && NonEmpty(split) && Potential(split) == Potential(pending) - 1
  {
    var h, rest := Halves(pending[0]), pending[1..];
    assert h == [h[0], h[1]];
    SplitFlattens(h[0], h[1], rest);
    hide Flatten;
    forall x | x in h + rest ensures x != [] {
      assert x == h[0] || x == h[1] || x in pending;
    }
  }

  lemma SplitFlattens(a: seq<int>, b: seq<int>, rest: seq<seq<int>>)
    ensures Flatten([a, b] + rest) == a + b + Flatten(rest)
  {
    assert ([a, b] + rest)[1..] == [b] + rest && ([b] + rest)[1..] == rest;
    Regroup(a, b, Flatten(rest));
  }

  lemma Regroup(a: seq<int>, b: seq<int>, c: seq<int>)
    ensures a + b + c == a + (b + c)
  {
  }

  lemma TakeKeeps(pending: seq<seq<int>>)
    requires pending != [] && NonEmpty(pending)
    ensures NonEmpty(pending[1..]) && pending[0] != [] && Potential(pending[1..]) < Potential(pending)
    ensures Flatten(pending) == pending[0] + Flatten(pending[1..])
  {
    assert pending[0] in pending && forall b :: b in pending[1..] ==> b in pending;
  }

  lemma RemainingShrinks(pending: seq<seq<int>>, reply: Reply<PageJson>)
    requires pending != [] && NonEmpty(pending)
    ensures NonEmpty(Remaining(pending, reply)) && Potential(Remaining(pending, reply)) < Potential(pending)
  {
    TakeKeeps(pending);
    if |pending[0]| > 1 {
      SplitKeeps(pending);
    }
    hide Flatten, NonEmpty, Potential;
  }

  /** Each page of a patient server leaves less to do, and none takes more bytes than said. */
  lemma {:induction false} PatientPages(server: Server, pending: seq<seq<int>>, bytes: nat, k: nat)
    requires Patient(server, bytes) && NonEmpty(pending)
    ensures var q := QueueAfter(server, pending, k);
            NonEmpty(q) && (q != [] ==> k + Potential(q) <= Potential(pending))
              && BytesThrough(server, pending, k) <= k * bytes
    decreases k
  {
    if k > 0 {
      PatientPages(server, pending, bytes, k - 1);
      var q := QueueAfter(server, pending, k - 1);
      hide Flatten, Potential, Serves, Patient;
      if q != [] {
        RemainingShrinks(q, server.page(k, q[0]));
        PatientReply(server, bytes, k, q);
      }
      assert k * bytes == (k - 1) * bytes + bytes;
    }
  }

  lemma PatientReply(server: Server, bytes: nat, k: nat, q: seq<seq<int>>)
    requires Patient(server, bytes) && NonEmpty(q) && q != []
    ensures Arrives(server.page(k, q[0]), bytes) && Serves(server.page(k, q[0]).body.value, q[0])
  {
    assert q[0] in q;
  }

  /** A patient server serves all batches, given requests for twice the ids less the
      first batches, and bytes for as many pages. */
  lemma PatientServerServes(server: Server, lim: Ceilings, requests: nat, used: nat, pending: seq<seq<int>>, bytes: nat)
    requires Patient(server, bytes) && NonEmpty(pending) && bytes <= lim.maxResponseBytes
    requires requests + Potential(pending) <= lim.maxRequests && used + Potential(pending) * bytes < lim.maxTotalBytes
    ensures AllServed(server, lim, requests, used, pending)
  {
    var n: nat := 0;
    PotentialIsNatural(pending);
    while QueueAfter(server, pending, n) != []
      invariant n <= Potential(pending) && PagesServe(server, lim, used, pending, n)
      decreases Potential(pending) - n
    {
      NextServes(server, lim, used, pending, bytes, n);
      n := n + 1;
      PatientPages(server, pending, bytes, n);
      PotentialIsNatural(QueueAfter(server, pending, n));
    }
    assert ServedBy(server, lim, requests, used, pending, n);
  }

  lemma NextServes(server: Server, lim: Ceilings, used: nat, pending: seq<seq<int>>, bytes: nat, k: nat)
    requires Patient(server, bytes) && NonEmpty(pending) && bytes <= lim.maxResponseBytes
    requires used + Potential(pending) * bytes < lim.maxTotalBytes && QueueAfter(server, pending, k) != []
    ensures PageServes(server, lim, used, pending, k) && k < Potential(pending)
  {
    PatientPages(server, pending, bytes, k);
    var q := QueueAfter(server, pending, k);
    PotentialIsNatural(q);
    PatientReply(server, bytes, k + 1, q);
    hide Potential, Patient, Serves, QueueAfter;
    BytesLeft(used, k, Potential(pending), bytes, lim.maxTotalBytes);
  }

  lemma BytesLeft(used: nat, k: nat, n: nat, bytes: nat, total: nat)
    requires k < n && used + n * bytes < total
    ensures used + k * bytes < total && bytes <= total - used - k * bytes
  {
    Shares(k, n - k - 1, bytes);
    assert k + (n - k - 1) + 1 == n;
  }

  lemma Shares(k: nat, d: nat, bytes: nat)
    ensures (k + d + 1) * bytes == k * bytes + d * bytes + bytes
    ensures d * bytes >= 0
  {
  }
}
