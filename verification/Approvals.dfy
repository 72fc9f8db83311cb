/** Approval records, the one-shot tokens made from them, and the persist path of the
    evidence-bundle export, as functions of everything the process remembers. */
module Approvals {
  import opened Wrappers

  type Bytes = seq<int>

  datatype Decision = Approved | Rejected | Expired

  /** A person's decision; only the clock expires a request. */
  type Verdict = d: Decision | !d.Expired? witness Approved

  /** Times are numbers of milliseconds. */
  datatype Record = Record(
    agentRunId: string, payloadHash: string, target: string, credentialIdentity: Option<string>, expiresAt: int,
    decision: Option<Decision>, decidedBy: Option<string>, respondedAt: Option<int>, consumedAt: Option<int>)

  datatype Draft = Draft(id: string, agentRunId: string, payloadHash: string, target: string,
                         credentialIdentity: string, expiresAt: int)

  /** The export's input; rest stands for all that does not name the destination. */
  datatype ExportInput = ExportInput(persist: bool, projectId: string, bundleSha256: Option<string>, rest: Bytes)

  datatype Payload = Export(input: ExportInput) | Other(content: Bytes)

  const EXPORT := "export_evidence_bundle"

  /** What the model leaves to its surroundings: the two hashes and how skills other
      than the export name their target. */
  datatype Env = Env(payloadHash: Payload -> string, sha: Bytes -> string,
                     otherTarget: (string, Payload) -> Option<string>)

  // ----------------------------------------------------------------- the target

  predicate HexDigit(c: char) {
    '0' <= c <= '9' || 'a' <= c <= 'f'
  }

  predicate IsSha256(s: string) {
    |s| == 64 && forall c :: c in s ==> HexDigit(c)
  }

  predicate IsUuid(s: string) {
    && |s| == 36
    && (forall i :: 0 <= i < 36 ==> if i == 8 || i == 13 || i == 18 || i == 23 then s[i] == '-' else HexDigit(s[i]))
    && '1' <= s[14] <= '5' && s[19] in "89ab"
  }

  /** The exact target that an approval of this payload must name. */
  function DeriveApprovalTarget(env: Env, skill: string, payload: Payload): Option<string> {
    if skill == EXPORT then
      if payload.Export? && payload.input.persist && IsUuid(payload.input.projectId)
         && payload.input.bundleSha256.Some? && IsSha256(payload.input.bundleSha256.value)
      then Some(ExportTarget(payload.input.projectId, payload.input.bundleSha256.value))
      else None
    else env.otherTarget(skill, payload)
  }

  function ExportTarget(projectId: string, bundleSha256: string): string {
    "capability:export_evidence_bundle|project:" + projectId + "|bundle:" + bundleSha256
  }

  /** The target names one project and one bundle. */
  lemma ExportTargetInjective(p: string, h: string, q: string, k: string)
    requires IsUuid(p) && IsUuid(q) && ExportTarget(p, h) == ExportTarget(q, k)
    ensures p == q && h == k
  {
    var prefix, mid := "capability:export_evidence_bundle|project:", "|bundle:";
    var s, t := prefix + p + mid + h, prefix + q + mid + k;
    var n := |prefix|;
    assert s[n..n + 36] == p && t[n..n + 36] == q;
    assert s[n + 36 + |mid|..] == h && t[n + 36 + |mid|..] == k;
  }

  // ------------------------------------------------------------------ the records

  type Records = map<string, Record>

  function Create(rs: Records, d: Draft): (Records, bool) {
    if d.id in rs then (rs, false)
    else
      (rs[d.id := Record(d.agentRunId, d.payloadHash, d.target, Some(d.credentialIdentity), d.expiresAt,
                         None, None, None, None)], true)
  }

  function DecideAtomic(rs: Records, id: string, decision: Verdict, who: string, now: int): (Records, bool) {
    if id !in rs || rs[id].decision.Some? || rs[id].expiresAt <= now then (rs, false)
    else (rs[id := rs[id].(decision := Some(decision), decidedBy := Some(who), respondedAt := Some(now))], true)
  }

  function ExpireAtomic(rs: Records, id: string, now: int): (Records, bool) {
    if id !in rs || rs[id].decision.Some? || rs[id].expiresAt > now then (rs, false)
    else (rs[id := rs[id].(decision := Some(Expired), decidedBy := Some("system"), respondedAt := Some(now))], true)
  }

  datatype Binding = Binding(agentRunId: string, payloadHash: string, target: string, credentialIdentity: string)

  predicate Consumable(rs: Records, id: string, b: Binding, now: int) {
    && id in rs && rs[id].agentRunId == b.agentRunId && rs[id].decision == Some(Approved) && rs[id].consumedAt.None?
    && rs[id].expiresAt > now && rs[id].payloadHash == b.payloadHash && rs[id].target == b.target
    && rs[id].credentialIdentity == Some(b.credentialIdentity)
  }

  function ConsumeAtomic(rs: Records, id: string, b: Binding, now: int): (Records, bool) {
    if Consumable(rs, id, b, now) then (rs[id := rs[id].(consumedAt := Some(now))], true) else (rs, false)
  }

  // ------------------------------------------------------------------- the tokens

  datatype Snapshot = Snapshot(approvalId: string, target: string, payloadHash: string,
                               credentialIdentity: string, agentRunId: string)

  datatype PreflightRecord = PreflightRecord(slug: string, inputHash: string, agentRunId: string)

  /** A call of storeBundle made by the export: the run and the identity it was made for,
      and the grant it used. */
  datatype Stored = Stored(grant: nat, input: ExportInput, agentRunId: string, credentialIdentity: string, hash: string,
                           bytes: Bytes)

  /** Everything the process remembers. Receipts and grants are objects that cannot be
      forged; their positions stand for their identities, and the two sets for the
      weak sets of claimed receipts and used grants. A preflight grant is live until it
      is presented. The last two fields record what was let through. */
  datatype World = World(
    records: Records,
    receipts: seq<Snapshot>, claimed: set<nat>, grants: seq<nat>, used: set<nat>,
    minted: seq<PreflightRecord>, live: set<nat>,
    stored: seq<Stored>, passed: seq<(nat, PreflightRecord)>)

  /** What a receipt is checked against. */
  datatype Claim = Claim(agentRunId: string, skill: string, payload: Payload, credentialIdentity: string,
                         target: Option<string>)

  predicate HexEqual(a: string, b: string) {
    IsSha256(a) && IsSha256(b) && a == b
  }

  predicate Fits(s: Snapshot, env: Env, c: Claim) {
    var target := if c.target.Some? then c.target else DeriveApprovalTarget(env, c.skill, c.payload);
    && target.Some?
    && s.agentRunId == c.agentRunId && s.credentialIdentity == c.credentialIdentity
    && HexEqual(s.payloadHash, env.payloadHash(c.payload)) && s.target == target.value
  }

  predicate VerifyReceipt(w: World, env: Env, receipt: nat, c: Claim) {
    receipt < |w.receipts| && Fits(w.receipts[receipt], env, c)
  }

  /** A receipt can be claimed once; the claim makes a grant. */
  function ClaimReceipt(w: World, env: Env, receipt: nat, c: Claim): (World, Option<nat>) {
    if !VerifyReceipt(w, env, receipt, c) || receipt in w.claimed then (w, None)
    else (w.(claimed := w.claimed + {receipt}, grants := w.grants + [receipt]), Some(|w.grants|))
  }

  /** A grant can be used once. */
  function UseGrant(w: World, env: Env, grant: nat, c: Claim): (World, bool) {
    if grant >= |w.grants| || grant in w.used || !VerifyReceipt(w, env, w.grants[grant], c) then (w, false)
    else (w.(used := w.used + {grant}), true)
  }

  /** The check in front of every further write: the grant is used and still fits. */
  predicate VerifyGrant(w: World, env: Env, grant: nat, c: Claim) {
    grant < |w.grants| && grant in w.used && VerifyReceipt(w, env, w.grants[grant], c)
  }

  datatype Request = Request(id: string, agentRunId: string, payloadHash: string, target: string,
                             credentialIdentity: string)

  /** Consumes an approved request. A failed attempt may expire it instead; a record
      without an identity is consumed but makes no receipt. */
  function ConsumeApproval(w: World, env: Env, request: Request, payload: Payload, target: string,
                           credentialIdentity: string, now: int): (World, Option<nat>) {
    var b := Binding(request.agentRunId, env.payloadHash(payload), target, credentialIdentity);
    if b.payloadHash != request.payloadHash || target != request.target
       || credentialIdentity != request.credentialIdentity
    then (w, None)
    else
      var (rs, ok) := ConsumeAtomic(w.records, request.id, b, now);
      if !ok then (w.(records := ExpireAtomic(w.records, request.id, now).0), None)
      else if credentialIdentity == "" then (w.(records := rs), None)
      else
        (w.(records := rs,
            receipts := w.receipts + [Snapshot(request.id, target, b.payloadHash, credentialIdentity,
                                               request.agentRunId)]),
         Some(|w.receipts|))
  }

  function DecideApproval(w: World, id: string, decision: Verdict, who: string, now: int): (World, bool) {
    var (rs, ok) := DecideAtomic(w.records, id, decision, who, now);
    (w.(records := if ok then rs else ExpireAtomic(w.records, id, now).0), ok)
  }

  // ---------------------------------------------------------------- the preflights

  function MintPreflight(w: World, p: PreflightRecord): (World, nat) {
    (w.(minted := w.minted + [p], live := w.live + {|w.minted|}), |w.minted|)
  }

  /** Presenting a preflight grant deletes it, whether or not it fits. */
  function PassPreflight(w: World, grant: nat, p: PreflightRecord): (World, bool) {
    var ok := grant in w.live && grant < |w.minted| && w.minted[grant] == p;
    var left := w.(live := w.live - {grant});
    (if ok then left.(passed := left.passed + [(grant, p)]) else left, ok)
  }

  // -------------------------------------------------------------------- the export

  /** The persist path: the archive must have the hash that the input names, and the
      grant, given or claimed here, must be unused and fit the whole input. */
  function ExecuteExport(w: World, env: Env, input: ExportInput, agentRunId: string, grant: Option<nat>, receipt: nat,
                         credentialIdentity: string, archive: Bytes): (World, bool) {
    var c := Claim(agentRunId, EXPORT, Export(input), credentialIdentity, None);
    if !input.persist || input.bundleSha256 != Some(env.sha(archive)) then (w, false)
    else
      var (w1, g) := if grant.Some? then (w, grant) else ClaimReceipt(w, env, receipt, c);
      if g.None? then (w1, false)
      else
        var (w2, ok) := UseGrant(w1, env, g.value, c);
        if !ok || !VerifyGrant(w2, env, g.value, c) then (w2, false)
        else
          (w2.(stored := w2.stored + [Stored(g.value, input, agentRunId, credentialIdentity, env.sha(archive),
                                             archive)]), true)
  }

  datatype Outcome = Previewed | Refused | Persisted

  /** One run of the export skill, step after step. */
  function ExportRun(w: World, env: Env, input: ExportInput, agentRunId: string, request: Option<Request>,
                     credentialIdentity: string, archive: Bytes, now: int): (World, Outcome) {
    if !input.persist then (w, Previewed)
    else if input.bundleSha256 != Some(env.sha(archive)) then (w, Refused)
    else
      var proof := PreflightRecord(EXPORT, env.payloadHash(Export(input)), agentRunId);
      var (w1, preflight) := MintPreflight(w, proof);
      var target := DeriveApprovalTarget(env, EXPORT, Export(input));
      if request.None? || request.value.agentRunId != agentRunId || target.None? then (w1, Refused)
      else
        var (w2, receipt) := ConsumeApproval(w1, env, request.value, Export(input), target.value, credentialIdentity,
                                             now);
        if receipt.None? then (w2, Refused) else Dispatch(w2, env, input, agentRunId, preflight, proof, receipt.value,
                                                          credentialIdentity, archive, target)
  }

  /** The registry's part of the run: proof, claim, execution. */
  function Dispatch(w: World, env: Env, input: ExportInput, agentRunId: string, preflight: nat, proof: PreflightRecord,
                    receipt: nat, credentialIdentity: string, archive: Bytes, target: Option<string>)
    : (World, Outcome)
  {
    var (w1, proven) := PassPreflight(w, preflight, proof);
    if !proven then (w1, Refused)
    else
      var (w2, grant) := ClaimReceipt(w1, env, receipt, Claim(agentRunId, EXPORT, Export(input), credentialIdentity,
                                                              target));
      if grant.None? then (w2, Refused)
      else
        var (w3, ok) := ExecuteExport(w2, env, input, agentRunId, grant, receipt, credentialIdentity, archive);
        (w3, if ok then Persisted else Refused)
  }

  // -------------------------------------------------------------------- schedules

  datatype Event =
    | Creates(draft: Draft)
    | Decides(id: string, decision: Verdict, who: string, now: int)
    | Expires(id: string, now: int)
    | Consumes(request: Request, payload: Payload, target: string, credentialIdentity: string, now: int)
    | Claims(receipt: nat, claim: Claim)
    | Uses(grant: nat, claim: Claim)
    | Mints(preflight: PreflightRecord)
    | Passes(grant: nat, preflight: PreflightRecord)
    | Executes(input: ExportInput, agentRunId: string, given: Option<nat>, receipt: nat, credentialIdentity: string,
               archive: Bytes)

  function Next(w: World, env: Env, e: Event): World {
    match e
    case Creates(d) => w.(records := Create(w.records, d).0)
    case Decides(id, decision, who, now) => DecideApproval(w, id, decision, who, now).0
    case Expires(id, now) => w.(records := ExpireAtomic(w.records, id, now).0)
    case Consumes(request, payload, target, identity, now) =>
      ConsumeApproval(w, env, request, payload, target, identity, now).0
    case Claims(receipt, c) => ClaimReceipt(w, env, receipt, c).0
    case Uses(grant, c) => UseGrant(w, env, grant, c).0
    case Mints(p) => MintPreflight(w, p).0
    case Passes(grant, p) => PassPreflight(w, grant, p).0
    case Executes(input, run, given, receipt, identity, archive) =>
      ExecuteExport(w, env, input, run, given, receipt, identity, archive).0
  }

  /** Any interleaving of the steps of any number of runs, with any arguments. */
  function Run(w: World, env: Env, events: seq<Event>): World
    decreases |events|
  {
    if events == [] then w else Next(Run(w, env, events[..|events| - 1]), env, events[|events| - 1])
  }

  function Fresh(): World {
    World(map[], [], {}, [], {}, [], {}, [], [])
  }
}
