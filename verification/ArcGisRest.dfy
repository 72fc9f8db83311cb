/** Requests to an ArcGIS server: how a response is judged, and the books that every
    run keeps on its requests. */
module ArcGisRest {
  import opened Wrappers

  /** What came back over the wire. Lost stands for everything that leaves no
      response behind: a refused URL, a cancellation, a deadline, a broken
      connection. CutOff is a response the transport stopped at the byte limit. */
  datatype Reply<+T> =
    | Lost
    | CutOff(bytes: nat)
    | Received(bytes: nat, status: int, textual: bool, body: Body<T>)

  datatype Body<+T> = NotJson | ErrorEnvelope | Json(value: T)

  datatype Failure =
    | NoResponse
    | TotalBytesSpent
    | ByteLimit
    | Redirect
    | HttpError(status: int)
    | ContentType
    | InvalidJson
    | EnvelopeError

  /** The checks on a response, in order: its size comes before its status. */
  function Judge<T>(reply: Reply<T>, maxBytes: nat): Result<T, Failure> {
    match reply
    case Lost => Err(NoResponse)
    case CutOff(_) => Err(ByteLimit)
    case Received(bytes, status, textual, body) =>
      if bytes > maxBytes then Err(ByteLimit)
      else if 300 <= status < 400 then Err(Redirect)
      else if status != 200 then Err(HttpError(status))
      else if !textual then Err(ContentType)
      else match body
           case NotJson => Err(InvalidJson)
           case ErrorEnvelope => Err(EnvelopeError)
           case Json(value) => Ok(value)
  }

  /** Failures that only mark one item instead of ending the run. */
  predicate Tolerated(f: Failure) {
    f.EnvelopeError? || (f.HttpError? && 400 <= f.status < 500)
  }

  /** One record for every response received. */
  datatype Evidence<Q> = Evidence(query: Q, bytes: nat)

  datatype Budget<Q> = Budget(requestCount: nat, bytesUsed: nat, evidence: seq<Evidence<Q>>, successes: nat)

  datatype Ceilings = Ceilings(maxRequests: nat, maxResponseBytes: nat, maxTotalBytes: nat)

  function BytesOf<T>(reply: Reply<T>): nat
    requires !reply.Lost?
  {
    reply.bytes
  }

  /** A usable response: complete, within the byte limit, successful and of JSON. */
  ghost predicate Arrives<T>(reply: Reply<T>, maxBytes: nat) {
    && reply.Received? && reply.bytes <= maxBytes && reply.status == 200 && reply.textual && reply.body.Json?
  }

  function Least(a: nat, b: nat): nat {
    if a < b then a else b
  }

  /** The judgement under what the ceilings still allow, once some bytes are used. */
  function Verdict<T>(lim: Ceilings, used: nat, reply: Reply<T>): Result<T, Failure> {
    if used >= lim.maxTotalBytes then Err(TotalBytesSpent)
    else Judge(reply, Least(lim.maxResponseBytes, lim.maxTotalBytes - used))
  }

  /** Exactly the usable responses within both byte ceilings are accepted. */
  lemma AcceptedMeaning<T>(lim: Ceilings, used: nat, reply: Reply<T>)
    ensures Verdict(lim, used, reply).Ok? <==>
            used < lim.maxTotalBytes && Arrives(reply, Least(lim.maxResponseBytes, lim.maxTotalBytes - used))
    ensures Verdict(lim, used, reply).Ok? ==> reply.body == Json(Verdict(lim, used, reply).value)
  {
  }

  /** Why a request is refused, told from its response alone and the bytes used before. */
  ghost predicate RefusedFor<T>(f: Failure, lim: Ceilings, used: nat, reply: Reply<T>) {
    if used >= lim.maxTotalBytes then f == TotalBytesSpent
    else if reply.Lost? then f == NoResponse
    else if reply.CutOff? || reply.bytes > lim.maxResponseBytes || used + reply.bytes > lim.maxTotalBytes then
      f == ByteLimit
    else if reply.status == 200 then
      && (f == ContentType <==> !reply.textual)
      && (f == InvalidJson <==> reply.textual && reply.body.NotJson?)
      && (f == EnvelopeError <==> reply.textual && reply.body.ErrorEnvelope?)
      && (f.ContentType? || f.InvalidJson? || f.EnvelopeError?)
    else f == if 300 <= reply.status <= 399 then Redirect else HttpError(reply.status)
  }

  /** Every refusal has its cause, and every cause its refusal; the failures that end no run
      are a status from 400 to 499 and an error envelope. */
  lemma RefusalMeaning<T>(lim: Ceilings, used: nat, reply: Reply<T>, f: Failure)
    ensures Verdict(lim, used, reply) == Err(f) <==> RefusedFor(f, lim, used, reply)
    ensures Tolerated(f) <==> f == EnvelopeError || (f.HttpError? && 400 <= f.status <= 499)
  {
  }

  /** One request: the attempt is counted, every received response is recorded with
      its bytes, and the response is judged against what the ceilings still allow. */
  function Request<Q, T>(b: Budget<Q>, lim: Ceilings, query: Q, reply: Reply<T>): (Budget<Q>, Result<T, Failure>) {
    var counted := b.(requestCount := b.requestCount + 1);
    var verdict := Verdict(lim, b.bytesUsed, reply);
    if b.bytesUsed >= lim.maxTotalBytes || reply.Lost? then (counted, verdict)
    else
      (Budget(counted.requestCount, b.bytesUsed + BytesOf(reply), b.evidence + [Evidence(query, BytesOf(reply))],
              b.successes + if verdict.Ok? then 1 else 0), verdict)
  }

  // ------------------------------------------------------------------ accounting

  function SumBytes<Q>(evidence: seq<Evidence<Q>>): nat
    decreases |evidence|
  {
    if evidence == [] then 0 else SumBytes(evidence[..|evidence| - 1]) + evidence[|evidence| - 1].bytes
  }

  ghost predicate Asked<Q(!new)>(evidence: seq<Evidence<Q>>, q: Q) {
    exists e :: e in evidence && e.query == q
  }

  /** Every request left one record, no question was asked twice, and both
      request ceilings hold. */
  ghost predicate BudgetFits<Q>(b: Budget<Q>, lim: Ceilings) {
    && b.requestCount == |b.evidence| <= lim.maxRequests
    && b.bytesUsed == SumBytes(b.evidence) <= lim.maxTotalBytes
    && forall i, j :: 0 <= i < j < |b.evidence| ==> b.evidence[i].query != b.evidence[j].query
  }

  lemma SumOneMore<Q>(evidence: seq<Evidence<Q>>, e: Evidence<Q>)
    ensures SumBytes(evidence + [e]) == SumBytes(evidence) + e.bytes
  {
    assert (evidence + [e])[..|evidence|] == evidence;
  }

  /** A request that does not end the run fits what the ceilings still allow,
      because its size is judged before its status. */
  lemma RequestKeeps<Q(!new), T>(b: Budget<Q>, lim: Ceilings, q: Q, reply: Reply<T>)
    requires BudgetFits(b, lim) && b.requestCount < lim.maxRequests && !Asked(b.evidence, q)
    ensures var (b', r) := Request(b, lim, q, reply);
            r.Ok? || Tolerated(r.error) ==>
              && BudgetFits(b', lim)
              && !reply.Lost? && b'.evidence == b.evidence + [Evidence(q, BytesOf(reply))]
  {
    if !reply.Lost? {
      SumOneMore(b.evidence, Evidence(q, BytesOf(reply)));
    }
  }
}
