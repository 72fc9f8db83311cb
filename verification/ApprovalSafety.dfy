/** What holds of approvals in every schedule: a decision is final, consumption is
    exact and happens once, and one approval lets at most one persist through. */
module ApprovalSafety {
  import opened Wrappers
  import opened Approvals

  // ------------------------------------------------------------- records evolve

  /** A record keeps what it was made for; its decision and its consumption are final. */
  predicate Evolved(r: Record, r': Record) {
    && r'.agentRunId == r.agentRunId && r'.payloadHash == r.payloadHash && r'.target == r.target
    && r'.credentialIdentity == r.credentialIdentity && r'.expiresAt == r.expiresAt
    && (r.decision.Some? ==>
          r'.decision == r.decision && r'.decidedBy == r.decidedBy && r'.respondedAt == r.respondedAt)
    && (r.consumedAt.Some? ==> r'.consumedAt == r.consumedAt)
  }

  ghost predicate RecordsEvolved(rs: Records, rs': Records) {
    forall id :: id in rs ==> id in rs' && Evolved(rs[id], rs'[id])
  }

  /** What only grows: receipts, claims, grants, uses and the log of stored bundles. */
  ghost predicate Grown(w: World, w': World) {
    && RecordsEvolved(w.records, w'.records)
    && w.receipts <= w'.receipts && w.claimed <= w'.claimed && w.grants <= w'.grants && w.used <= w'.used
    && w.stored <= w'.stored && w.passed <= w'.passed && w.minted <= w'.minted
  }

  lemma RecordsGrow(rs: Records, id: string, d: Draft, decision: Verdict, who: string, b: Binding, now: int)
    ensures RecordsEvolved(rs, rs) && RecordsEvolved(rs, Create(rs, d).0)
    ensures RecordsEvolved(rs, DecideAtomic(rs, id, decision, who, now).0)
    ensures RecordsEvolved(rs, ExpireAtomic(rs, id, now).0)
    ensures RecordsEvolved(rs, ConsumeAtomic(rs, id, b, now).0)
  {
  }

  lemma DecidesGrow(w: World, id: string, decision: Verdict, who: string, now: int)
    ensures Grown(w, DecideApproval(w, id, decision, who, now).0)
  {
    var b: Binding, d: Draft := Binding("", "", "", ""), Draft("", "", "", "", "", 0);
    RecordsGrow(w.records, id, d, decision, who, b, now);
    hide RecordsEvolved, DecideAtomic, ExpireAtomic;
  }

  lemma ConsumesGrow(w: World, env: Env, request: Request, payload: Payload, target: string, identity: string, now: int)
    ensures Grown(w, ConsumeApproval(w, env, request, payload, target, identity, now).0)
  {
    var b := Binding(request.agentRunId, env.payloadHash(payload), target, identity);
    RecordsGrow(w.records, request.id, Draft("", "", "", "", "", 0), Approved, "", b, now);
    hide RecordsEvolved, ConsumeAtomic, ExpireAtomic;
  }

  lemma RecordsStay(w: World, w': World)
    requires w'.records == w.records
    ensures RecordsEvolved(w.records, w'.records)
  {
  }

  lemma ExecutesGrow(w: World, env: Env, input: ExportInput, run: string, given: Option<nat>, receipt: nat,
                     identity: string, archive: Bytes)
    ensures Grown(w, ExecuteExport(w, env, input, run, given, receipt, identity, archive).0)
  {
    RecordsStay(w, ExecuteExport(w, env, input, run, given, receipt, identity, archive).0);
    hide VerifyReceipt, RecordsEvolved;
  }

  lemma NextGrows(w: World, env: Env, e: Event)
    ensures Grown(w, Next(w, env, e))
  {
    hide VerifyReceipt, RecordsEvolved, DecideApproval, ConsumeApproval, ExecuteExport, Create, ExpireAtomic;
    RecordsStay(w, w);
    match e
    case Creates(d) => RecordsGrow(w.records, "", d, Approved, "", Binding("", "", "", ""), 0);
    case Decides(id, decision, who, now) => DecidesGrow(w, id, decision, who, now);
    case Expires(id, now) =>
      RecordsGrow(w.records, id, Draft("", "", "", "", "", 0), Approved, "", Binding("", "", "", ""), now);
    case Consumes(request, payload, target, identity, now) =>
      ConsumesGrow(w, env, request, payload, target, identity, now);
    case Executes(input, run, given, receipt, identity, archive) =>
      ExecutesGrow(w, env, input, run, given, receipt, identity, archive);
    case _ =>
  }

  lemma GrownThen(a: World, b: World, c: World)
    requires Grown(a, b) && Grown(b, c)
    ensures Grown(a, c)
  {
    forall id | id in a.records ensures id in c.records && Evolved(a.records[id], c.records[id]) {
      assert id in b.records && Evolved(a.records[id], b.records[id]);
    }
  }

  lemma {:induction false} RunGrows(w: World, env: Env, events: seq<Event>, more: seq<Event>)
    ensures Grown(Run(w, env, events), Run(w, env, events + more))
    decreases |more|
  {
    hide Next, Grown;
    if more == [] {
      assert events + more == events;
      GrownSelf(Run(w, env, events));
    } else {
      var n := |more| - 1;
      LastOfSum(events, more);
      RunGrows(w, env, events, more[..n]);
      NextGrows(Run(w, env, events + more[..n]), env, more[n]);
      GrownThen(Run(w, env, events), Run(w, env, events + more[..n]), Run(w, env, events + more));
    }
  }

  lemma GrownSelf(w: World)
    ensures Grown(w, w)
  {
  }

  lemma LastOfSum(events: seq<Event>, more: seq<Event>)
    requires more != []
    ensures var n, m := |more| - 1, |events + more| - 1;
            (events + more)[..m] == events + more[..n] && (events + more)[m] == more[n]
  {
  }

  // ------------------------------------------------------------------ invariants

  /** A receipt speaks for a consumed, approved record. */
  ghost predicate Backed(rs: Records, s: Snapshot) {
    && s.approvalId in rs
    && var r := rs[s.approvalId];
    && r.decision == Some(Approved) && r.consumedAt.Some? && r.agentRunId == s.agentRunId
    && r.payloadHash == s.payloadHash
    && r.target == s.target && r.credentialIdentity == Some(s.credentialIdentity)
  }

  ghost predicate ReceiptsFit(w: World) {
    && (forall k :: 0 <= k < |w.receipts| ==> Backed(w.records, w.receipts[k]))
    && forall i, j :: 0 <= i < j < |w.receipts| ==> w.receipts[i].approvalId != w.receipts[j].approvalId
  }

  ghost predicate GrantsFit(w: World) {
    && (forall g :: 0 <= g < |w.grants| ==> w.grants[g] < |w.receipts| && w.grants[g] in w.claimed)
    && (forall g, h :: 0 <= g < h < |w.grants| ==> w.grants[g] != w.grants[h])
    && (forall g :: g in w.used ==> g < |w.grants|)
    && forall r :: r in w.claimed ==> r < |w.receipts|
  }

  /** A stored bundle went through under a used grant whose receipt names the whole
      input and the very target; its bytes have the hash that the target names. */
  ghost predicate StoreFits(w: World, env: Env, s: Stored) {
    && s.grant in w.used && s.grant < |w.grants| && w.grants[s.grant] < |w.receipts|
    && var r := w.receipts[w.grants[s.grant]];
    && s.hash == env.sha(s.bytes) && s.input.bundleSha256 == Some(s.hash)
    && r.payloadHash == env.payloadHash(Export(s.input)) && r.target == ExportTarget(s.input.projectId, s.hash)
    && IsUuid(s.input.projectId) && r.agentRunId == s.agentRunId && r.credentialIdentity == s.credentialIdentity
  }

  ghost predicate StoresFit(w: World, env: Env) {
    && (forall k {:trigger StoreFits(w, env, w.stored[k])} :: 0 <= k < |w.stored| ==> StoreFits(w, env, w.stored[k]))
    && forall i, j :: 0 <= i < j < |w.stored| ==> w.stored[i].grant != w.stored[j].grant
  }

  ghost predicate PreflightsFit(w: World) {
    && (forall g :: g in w.live ==> g < |w.minted|)
    && (forall k :: 0 <= k < |w.passed| ==>
          w.passed[k].0 < |w.minted| && w.passed[k].0 !in w.live && w.minted[w.passed[k].0] == w.passed[k].1)
    && forall i, j :: 0 <= i < j < |w.passed| ==> w.passed[i].0 != w.passed[j].0
  }

  ghost predicate Valid(w: World, env: Env) {
    ReceiptsFit(w) && GrantsFit(w) && StoresFit(w, env) && PreflightsFit(w)
  }

  lemma BackedStays(rs: Records, rs': Records, s: Snapshot)
    requires Backed(rs, s) && RecordsEvolved(rs, rs')
    ensures Backed(rs', s)
  {
    assert Evolved(rs[s.approvalId], rs'[s.approvalId]);
  }

  /** A step on the records alone. */
  lemma RecordsKeep(w: World, rs: Records, env: Env)
    requires Valid(w, env) && RecordsEvolved(w.records, rs)
    ensures Valid(w.(records := rs), env)
  {
    var w' := w.(records := rs);
    hide Backed, RecordsEvolved;
    forall k | 0 <= k < |w.receipts| ensures Backed(rs, w.receipts[k]) {
      BackedStays(w.records, rs, w.receipts[k]);
    }
    forall k | 0 <= k < |w.stored| ensures StoreFits(w', env, w.stored[k]) {
      assert StoreFits(w, env, w.stored[k]);
    }
  }

  /** Stored bundles keep their account while tokens are only added. */
  lemma StoresStay(w: World, w': World, env: Env)
    requires StoresFit(w, env) && w'.stored == w.stored && w.used <= w'.used && w.grants <= w'.grants
    requires w.receipts <= w'.receipts
    ensures StoresFit(w', env)
  {
    forall k | 0 <= k < |w'.stored| ensures StoreFits(w', env, w'.stored[k]) {
      assert StoreFits(w, env, w.stored[k]);
    }
  }

  lemma ConsumeKeeps(w: World, env: Env, request: Request, payload: Payload, target: string, identity: string, now: int)
    requires Valid(w, env)
    ensures Valid(ConsumeApproval(w, env, request, payload, target, identity, now).0, env)
  {
    ConsumesGrow(w, env, request, payload, target, identity, now);
    var (w', made) := ConsumeApproval(w, env, request, payload, target, identity, now);
    RecordsKeep(w, w'.records, env);
    if made.Some? {
      ConsumedNew(w, request, payload, target, identity, now, env);
      hide ReceiptsFit, GrantsFit, StoresFit, PreflightsFit;
      ReceiptKeeps(w.(records := w'.records), env, w'.receipts[|w.receipts|]);
      assert w' == w.(records := w'.records).(receipts := w.receipts + [w'.receipts[|w.receipts|]]);
    } else {
      assert w' == w.(records := w'.records);
    }
  }

  /** A request that is consumed now had no receipt, and has one that speaks for it. */
  lemma ConsumedNew(w: World, request: Request, payload: Payload, target: string, identity: string, now: int, env: Env)
    requires ReceiptsFit(w) && ConsumeApproval(w, env, request, payload, target, identity, now).1.Some?
    ensures var w' := ConsumeApproval(w, env, request, payload, target, identity, now).0;
            && |w'.receipts| == |w.receipts| + 1 && w'.receipts[..|w.receipts|] == w.receipts
            && w' == w.(records := w'.records, receipts := w.receipts + [w'.receipts[|w.receipts|]])
            && Backed(w'.records, w'.receipts[|w.receipts|])
            && forall k :: 0 <= k < |w.receipts| ==> w.receipts[k].approvalId != w'.receipts[|w.receipts|].approvalId
  {
    forall k | 0 <= k < |w.receipts| ensures w.receipts[k].approvalId != request.id {
      assert Backed(w.records, w.receipts[k]);
    }
  }

  lemma ReceiptKeeps(w: World, env: Env, s: Snapshot)
    requires Valid(w, env) && Backed(w.records, s)
    requires forall k :: 0 <= k < |w.receipts| ==> w.receipts[k].approvalId != s.approvalId
    ensures Valid(w.(receipts := w.receipts + [s]), env)
  {
    var w' := w.(receipts := w.receipts + [s]);
    StoresStay(w, w', env);
    hide Backed, StoresFit;
    forall k | 0 <= k < |w'.receipts| ensures Backed(w'.records, w'.receipts[k]) {
      assert k < |w.receipts| ==> w'.receipts[k] == w.receipts[k];
    }
  }

  lemma ClaimKeeps(w: World, env: Env, receipt: nat, c: Claim)
    requires Valid(w, env)
    ensures Valid(ClaimReceipt(w, env, receipt, c).0, env)
  {
    hide Backed, HexEqual, StoresFit;
    var (w', g) := ClaimReceipt(w, env, receipt, c);
    if g.Some? {
      StoresStay(w, w', env);
    }
  }

  lemma UseKeeps(w: World, env: Env, grant: nat, c: Claim)
    requires Valid(w, env)
    ensures Valid(UseGrant(w, env, grant, c).0, env)
  {
    hide Backed, VerifyReceipt, StoresFit;
    var (w', ok) := UseGrant(w, env, grant, c);
    if ok {
      StoresStay(w, w', env);
    }
  }

  lemma PassKeeps(w: World, env: Env, grant: nat, p: PreflightRecord)
    requires Valid(w, env)
    ensures Valid(PassPreflight(w, grant, p).0, env)
  {
    hide Backed, StoresFit;
    StoresStay(w, PassPreflight(w, grant, p).0, env);
  }

  lemma MintKeeps(w: World, env: Env, p: PreflightRecord)
    requires Valid(w, env)
    ensures Valid(MintPreflight(w, p).0, env)
  {
    hide Backed, StoresFit;
    StoresStay(w, MintPreflight(w, p).0, env);
  }

  /** No stored bundle went through under a grant that was not used yet. */
  lemma UnusedStoredNothing(w: World, env: Env, grant: nat)
    requires StoresFit(w, env) && grant !in w.used
    ensures forall k :: 0 <= k < |w.stored| ==> w.stored[k].grant != grant
  {
    forall k | 0 <= k < |w.stored| ensures w.stored[k].grant != grant {
      assert StoreFits(w, env, w.stored[k]);
    }
  }

  /** What the checks in front of the store establish. */
  lemma StoreIsCovered(w: World, env: Env, input: ExportInput, grant: nat, c: Claim, archive: Bytes)
    requires VerifyGrant(w, env, grant, c) && c.payload == Export(input) && c.skill == EXPORT && c.target.None?
    requires input.bundleSha256 == Some(env.sha(archive))
    ensures StoreFits(w, env, Stored(grant, input, c.agentRunId, c.credentialIdentity, env.sha(archive), archive))
  {
  }

  lemma StoreKeeps(w: World, w': World, env: Env, s: Stored)
    requires StoresFit(w, env) && StoreFits(w', env, s) && w'.stored == w.stored + [s]
    requires w.used <= w'.used && w.grants <= w'.grants && w.receipts <= w'.receipts
    requires forall k :: 0 <= k < |w.stored| ==> w.stored[k].grant != s.grant
    ensures StoresFit(w', env)
  {
    forall k | 0 <= k < |w'.stored| ensures StoreFits(w', env, w'.stored[k]) {
      if k < |w.stored| { assert StoreFits(w, env, w.stored[k]); }
    }
  }

  lemma ExecuteKeeps(w: World, env: Env, input: ExportInput, run: string, given: Option<nat>, receipt: nat,
                     identity: string, archive: Bytes)
    requires Valid(w, env)
    ensures Valid(ExecuteExport(w, env, input, run, given, receipt, identity, archive).0, env)
  {
    hide ReceiptsFit, PreflightsFit, StoreFits, StoresFit, VerifyReceipt, GrantsFit;
    var c := Claim(run, EXPORT, Export(input), identity, None);
    var (w1, g) := if given.Some? then (w, given) else ClaimReceipt(w, env, receipt, c);
    ClaimKeeps(w, env, receipt, c);
    if g.Some? {
      var (w2, ok) := UseGrant(w1, env, g.value, c);
      UseKeeps(w1, env, g.value, c);
      if ok && VerifyGrant(w2, env, g.value, c) && input.bundleSha256 == Some(env.sha(archive)) {
        UnusedStoredNothing(w1, env, g.value);
        StoreEffect(w2, env, input, g.value, c, archive);
      }
    }
  }

  /** The store call under a grant just used, for an input that fits it. */
  lemma StoreEffect(w: World, env: Env, input: ExportInput, grant: nat, c: Claim, archive: Bytes)
    requires Valid(w, env) && VerifyGrant(w, env, grant, c) && c.payload == Export(input) && c.skill == EXPORT
    requires c.target.None?
    requires input.bundleSha256 == Some(env.sha(archive))
    requires forall k :: 0 <= k < |w.stored| ==> w.stored[k].grant != grant
    ensures var s := Stored(grant, input, c.agentRunId, c.credentialIdentity, env.sha(archive), archive);
            Valid(w.(stored := w.stored + [s]), env)
  {
    var s := Stored(grant, input, c.agentRunId, c.credentialIdentity, env.sha(archive), archive);
    var w' := w.(stored := w.stored + [s]);
    StoreIsCovered(w, env, input, grant, c, archive);
    hide VerifyGrant, ReceiptsFit, GrantsFit, PreflightsFit, StoreFits, StoresFit;
    StoreSame(w, w', env, s);
    StoreKeeps(w, w', env, s);
    OtherPartsSame(w, w', env);
  }

  lemma StoreSame(w: World, w': World, env: Env, s: Stored)
    requires StoreFits(w, env, s) && w'.used == w.used && w'.grants == w.grants && w'.receipts == w.receipts
    ensures StoreFits(w', env, s)
  {
  }

  lemma OtherPartsSame(w: World, w': World, env: Env)
    requires Valid(w, env) && w' == w.(stored := w'.stored)
    ensures ReceiptsFit(w') && GrantsFit(w') && PreflightsFit(w')
  {
    hide Backed, StoresFit;
  }

  lemma NextKeeps(w: World, env: Env, e: Event)
    requires Valid(w, env)
    ensures Valid(Next(w, env, e), env)
  {
    hide Valid, ConsumeApproval, ClaimReceipt, UseGrant, MintPreflight, PassPreflight, ExecuteExport, RecordsEvolved;
    hide Evolved;
    NextGrows(w, env, e);
    match e
    case Creates(d) => RecordsKeep(w, Create(w.records, d).0, env);
    case Decides(id, decision, who, now) => RecordsKeep(w, Next(w, env, e).records, env);
    case Expires(id, now) => RecordsKeep(w, ExpireAtomic(w.records, id, now).0, env);
    case Consumes(request, payload, target, identity, now) =>
      ConsumeKeeps(w, env, request, payload, target, identity, now);
    case Claims(receipt, c) => ClaimKeeps(w, env, receipt, c);
    case Uses(grant, c) => UseKeeps(w, env, grant, c);
    case Mints(p) => MintKeeps(w, env, p);
    case Passes(grant, p) => PassKeeps(w, env, grant, p);
    case Executes(input, run, given, receipt, identity, archive) =>
      ExecuteKeeps(w, env, input, run, given, receipt, identity, archive);
  }

  lemma {:induction false} RunKeeps(env: Env, events: seq<Event>)
    ensures Valid(Run(Fresh(), env, events), env)
    decreases |events|
  {
    hide Next;
    if events != [] {
      RunKeeps(env, events[..|events| - 1]);
      NextKeeps(Run(Fresh(), env, events[..|events| - 1]), env, events[|events| - 1]);
      hide Valid;
    }
  }

  // -------------------------------------------------------------------- theorems

  /** Once made, a decision never changes, and neither does a consumption, nor what
      the request was made for. */
  lemma DecisionIsFinal(env: Env, events: seq<Event>, more: seq<Event>, id: string)
    requires id in Run(Fresh(), env, events).records
    ensures id in Run(Fresh(), env, events + more).records
    ensures Evolved(Run(Fresh(), env, events).records[id], Run(Fresh(), env, events + more).records[id])
  {
    RunGrows(Fresh(), env, events, more);
    hide Run, Evolved;
  }

  /** A request is decided by a person while it is unexpired, or by the clock after. */
  lemma DecidedInTime(w: World, env: Env, e: Event, id: string)
    requires id in w.records && w.records[id].decision.None? && Next(w, env, e).records[id].decision.Some?
    ensures var r, r' := w.records[id], Next(w, env, e).records[id];
            if r'.decision == Some(Expired) then
              && (e.Decides? || e.Expires? || e.Consumes?) && r.expiresAt <= e.now
              && r'.decidedBy == Some("system") && r'.respondedAt == Some(e.now)
            else
              e.Decides? && e.id == id && r'.decision == Some(e.decision) && r'.decidedBy == Some(e.who)
              && r'.respondedAt == Some(e.now) && e.now < r.expiresAt
  {
    hide VerifyReceipt, HexEqual;
  }

  /** A step about this request: a decision, a look at the clock, or a consumption that names
      the request's own payload, target and identity. */
  ghost predicate Attempts(e: Event, env: Env, id: string) {
    match e
    case Decides(x, _, _, _) => x == id
    case Expires(x, _) => x == id
    case Consumes(request, payload, target, identity, _) =>
      && request.id == id && request.payloadHash == env.payloadHash(payload) && request.target == target
      && request.credentialIdentity == identity
    case _ => false
  }

  /** Whatever is attempted with a request that nobody decided in time, it expires. */
  lemma LateAttemptExpires(w: World, env: Env, e: Event, id: string)
    requires id in w.records && w.records[id].decision.None? && Attempts(e, env, id) && w.records[id].expiresAt <= e.now
    ensures var r, r' := w.records[id], Next(w, env, e).records[id];
            r' == Record(r.agentRunId, r.payloadHash, r.target, r.credentialIdentity, r.expiresAt, Some(Expired),
                         Some("system"), Some(e.now), r.consumedAt)
  {
    hide VerifyReceipt, HexEqual;
  }

  /** A request is consumed only by the call that names it, when it is approved, not
      yet consumed, unexpired, and bound to that run, payload, target and identity. */
  lemma ConsumedExactly(w: World, env: Env, e: Event, id: string)
    requires id in w.records && w.records[id].consumedAt.None? && Next(w, env, e).records[id].consumedAt.Some?
    ensures e.Consumes? && e.request.id == id && Next(w, env, e).records[id].consumedAt == Some(e.now)
    ensures var r := w.records[id];
            && r.decision == Some(Approved) && e.now < r.expiresAt
            && r.agentRunId == e.request.agentRunId && r.payloadHash == env.payloadHash(e.payload)
            && r.target == e.target && r.credentialIdentity == Some(e.credentialIdentity)
  {
    hide VerifyReceipt, HexEqual;
  }

  /** The approval under which a bundle was stored. */
  ghost function ApprovalOf(w: World, s: Stored): string
    requires s.grant < |w.grants| && w.grants[s.grant] < |w.receipts|
  {
    w.receipts[w.grants[s.grant]].approvalId
  }

  /** An execution that went through: its record was approved and consumed, for exactly
      the stored input, run and identity, and the bytes have the hash that the approved
      target names. */
  ghost predicate Covered(w: World, env: Env, s: Stored) {
    && s.grant < |w.grants| && w.grants[s.grant] < |w.receipts| && ApprovalOf(w, s) in w.records
    && var r := w.records[ApprovalOf(w, s)];
    && r.decision == Some(Approved) && r.consumedAt.Some? && r.payloadHash == env.payloadHash(Export(s.input))
    && r.target == ExportTarget(s.input.projectId, env.sha(s.bytes)) && s.hash == env.sha(s.bytes)
    && r.agentRunId == s.agentRunId && r.credentialIdentity == Some(s.credentialIdentity)
  }

  lemma StoredOnce(w: World, env: Env, i: nat)
    requires Valid(w, env) && i < |w.stored|
    ensures Covered(w, env, w.stored[i])
    ensures forall j :: 0 <= j < |w.stored| && j != i ==>
              Covered(w, env, w.stored[j]) && ApprovalOf(w, w.stored[j]) != ApprovalOf(w, w.stored[i])
  {
    hide PreflightsFit;
    StoredCovered(w, env, i);
    forall j | 0 <= j < |w.stored| && j != i
      ensures Covered(w, env, w.stored[j]) && ApprovalOf(w, w.stored[j]) != ApprovalOf(w, w.stored[i])
    {
      StoredCovered(w, env, j);
      hide Covered, Backed, StoreFits;
      assert w.stored[j].grant != w.stored[i].grant;
    }
  }

  lemma StoredCovered(w: World, env: Env, i: nat)
    requires Valid(w, env) && i < |w.stored|
    ensures Covered(w, env, w.stored[i])
  {
    hide PreflightsFit, ExportTarget;
    assert StoreFits(w, env, w.stored[i]);
    assert Backed(w.records, w.receipts[w.grants[w.stored[i].grant]]);
  }

  /** Over every schedule, each approval lets at most one persist execution through,
      and only for what was approved. */
  lemma OneExecutionPerApproval(env: Env, events: seq<Event>, i: nat)
    requires i < |Run(Fresh(), env, events).stored|
    ensures var w := Run(Fresh(), env, events);
            && Covered(w, env, w.stored[i])
            && forall j :: 0 <= j < |w.stored| && j != i ==>
                 Covered(w, env, w.stored[j]) && ApprovalOf(w, w.stored[j]) != ApprovalOf(w, w.stored[i])
  {
    RunKeeps(env, events);
    hide Run, Valid, Covered;
    StoredOnce(Run(Fresh(), env, events), env, i);
  }

  /** The bytes stored under an approval go to the project, and have the hash, that
      its target spells, however the target is read. */
  lemma StoredAsApproved(env: Env, events: seq<Event>, i: nat, projectId: string, hash: string)
    requires IsUuid(projectId) && i < |Run(Fresh(), env, events).stored|
    requires var w := Run(Fresh(), env, events);
             var s := w.stored[i];
             && s.grant < |w.grants| && w.grants[s.grant] < |w.receipts| && ApprovalOf(w, s) in w.records
             && w.records[ApprovalOf(w, s)].target == ExportTarget(projectId, hash)
    ensures var s := Run(Fresh(), env, events).stored[i];
            s.input.projectId == projectId && env.sha(s.bytes) == hash
  {
    OneExecutionPerApproval(env, events, i);
    RunKeeps(env, events);
    var s := Run(Fresh(), env, events).stored[i];
    hide Run, ExportTarget;
    assert StoreFits(Run(Fresh(), env, events), env, s);
    ExportTargetInjective(projectId, hash, s.input.projectId, env.sha(s.bytes));
  }

  /** The check in front of a write fails before the grant is used, and passes from its use
      on, for the run, identity and input that it was used for. */
  lemma SinkOpensWithUse(w: World, env: Env, grant: nat, c: Claim)
    ensures grant !in w.used ==> !VerifyGrant(w, env, grant, c)
    ensures var (w', ok) := UseGrant(w, env, grant, c);
            && (ok ==> grant !in w.used && VerifyGrant(w', env, grant, c) && !UseGrant(w', env, grant, c).1)
            && (VerifyGrant(w', env, grant, c) ==> ok || grant in w.used)
  {
    hide Fits;
  }

  /** The authorization that every later write checks again never lapses. */
  lemma SinkStaysAuthorized(env: Env, events: seq<Event>, more: seq<Event>, grant: nat, c: Claim)
    requires VerifyGrant(Run(Fresh(), env, events), env, grant, c)
    ensures VerifyGrant(Run(Fresh(), env, events + more), env, grant, c)
  {
    RunGrows(Fresh(), env, events, more);
    RunKeeps(env, events);
    hide Run, ReceiptsFit, StoresFit, PreflightsFit, HexEqual, DeriveApprovalTarget;
  }

  /** A preflight grant lets one execution through at most, of the skill, input and run
      it was made for. */
  lemma PreflightOnce(env: Env, events: seq<Event>, i: nat)
    requires i < |Run(Fresh(), env, events).passed|
    ensures var w := Run(Fresh(), env, events);
            && w.passed[i].0 < |w.minted| && w.minted[w.passed[i].0] == w.passed[i].1
            && forall j :: 0 <= j < |w.passed| && j != i ==> w.passed[j].0 != w.passed[i].0
  {
    RunKeeps(env, events);
    var w := Run(Fresh(), env, events);
    hide Run, ReceiptsFit, StoresFit, GrantsFit;
  }

  // ------------------------------------------------------------------- a whole run

  lemma Snoc(w: World, env: Env, events: seq<Event>, e: Event)
    ensures Run(w, env, events + [e]) == Next(Run(w, env, events), env, e)
  {
    assert (events + [e])[..|events|] == events;
  }

  /** A run of the export is a schedule of the steps above, so all that holds of
      schedules holds of any number of interleaved runs. */
  lemma ExportRunIsSchedule(w: World, env: Env, input: ExportInput, agentRunId: string, request: Option<Request>,
                            identity: string, archive: Bytes, now: int) returns (events: seq<Event>)
    ensures Run(w, env, events) == ExportRun(w, env, input, agentRunId, request, identity, archive, now).0
  {
    hide ConsumeApproval, ClaimReceipt, ExecuteExport, MintPreflight, PassPreflight, DeriveApprovalTarget;
    events := [];
    if !input.persist || input.bundleSha256 != Some(env.sha(archive)) {
      return;
    }
    var proof := PreflightRecord(EXPORT, env.payloadHash(Export(input)), agentRunId);
    var (w1, preflight) := MintPreflight(w, proof);
    events := [Mints(proof)];
    Snoc(w, env, [], Mints(proof));
    assert [] + [Mints(proof)] == events;
    var target := DeriveApprovalTarget(env, EXPORT, Export(input));
    if request.None? || request.value.agentRunId != agentRunId || target.None? {
      return;
    }
    var consumes := Consumes(request.value, Export(input), target.value, identity, now);
    Snoc(w, env, events, consumes);
    events := events + [consumes];
    var (w2, receipt) := ConsumeApproval(w1, env, request.value, Export(input), target.value, identity, now);
    if receipt.Some? {
      events := DispatchIsSchedule(w, events, env, input, agentRunId, preflight, proof, receipt.value, identity,
                                   archive, target);
    }
  }

  lemma DispatchIsSchedule(w: World, before: seq<Event>, env: Env, input: ExportInput, agentRunId: string,
                           preflight: nat, proof: PreflightRecord, receipt: nat, identity: string, archive: Bytes,
                           target: Option<string>)
    returns (events: seq<Event>)
    ensures Run(w, env, events)
         == Dispatch(Run(w, env, before), env, input, agentRunId, preflight, proof, receipt, identity, archive,
                     target).0
  {
    hide ClaimReceipt, ExecuteExport, PassPreflight, Run;
    Snoc(w, env, before, Passes(preflight, proof));
    events := before + [Passes(preflight, proof)];
    var (w1, proven) := PassPreflight(Run(w, env, before), preflight, proof);
    if proven {
      var c := Claim(agentRunId, EXPORT, Export(input), identity, target);
      Snoc(w, env, events, Claims(receipt, c));
      events := events + [Claims(receipt, c)];
      var (w2, grant) := ClaimReceipt(w1, env, receipt, c);
      if grant.Some? {
        Snoc(w, env, events, Executes(input, agentRunId, grant, receipt, identity, archive));
        events := events + [Executes(input, agentRunId, grant, receipt, identity, archive)];
      }
    }
  }

  /** What a persist run needs: the previewed hash, and an approved, unconsumed,
      unexpired request for exactly this run, input, target and identity. */
  ghost predicate Acceptable(rs: Records, env: Env, input: ExportInput, agentRunId: string, request: Option<Request>,
                             identity: string, archive: Bytes, now: int) {
    var target, hash := DeriveApprovalTarget(env, EXPORT, Export(input)), env.payloadHash(Export(input));
    && input.persist && input.bundleSha256 == Some(env.sha(archive)) && target.Some?
    && IsSha256(hash) && identity != "" && request.Some?
    && request.value == Request(request.value.id, agentRunId, hash, target.value, identity)
    && Consumable(rs, request.value.id, Binding(agentRunId, hash, target.value, identity), now)
  }

  /** 64 hexadecimal digits in lower case. */
  ghost predicate SpellsSha256(s: string) {
    |s| == 64 && forall i :: 0 <= i < 64 ==> s[i] in "0123456789abcdef"
  }

  /** Five groups of hexadecimal digits, of version 1 to 5 and the usual variant. */
  ghost predicate SpellsUuid(s: string) {
    && |s| == 36 && s[8] == '-' && s[13] == '-' && s[18] == '-' && s[23] == '-'
    && (forall i :: 0 <= i < 36 && i != 8 && i != 13 && i != 18 && i != 23 ==> s[i] in "0123456789abcdef")
    && s[14] in "12345" && s[19] in "89ab"
  }

  lemma HexDigits(c: char)
    ensures HexDigit(c) <==> c in "0123456789abcdef"
  {
    var digits := "0123456789abcdef";
    if '0' <= c <= '9' {
      assert digits[c as int - '0' as int] == c;
    } else if 'a' <= c <= 'f' {
      assert digits[c as int - 'a' as int + 10] == c;
    }
  }

  lemma ShapesSpelled(s: string)
    ensures IsSha256(s) <==> SpellsSha256(s)
    ensures IsUuid(s) <==> SpellsUuid(s)
  {
    forall i | 0 <= i < |s| ensures HexDigit(s[i]) <==> s[i] in "0123456789abcdef" {
      HexDigits(s[i]);
    }
    hide HexDigit;
    assert |s| == 36 ==> ('1' <= s[14] <= '5' <==> s[14] in "12345");
  }

  /** What a persist run needs, spelled out. */
  lemma AcceptableMeaning(rs: Records, env: Env, input: ExportInput, agentRunId: string, request: Option<Request>,
                          identity: string, archive: Bytes, now: int)
    ensures var hash := env.payloadHash(Export(input));
            var target := "capability:export_evidence_bundle|project:" + input.projectId + "|bundle:"
                          + env.sha(archive);
            Acceptable(rs, env, input, agentRunId, request, identity, archive, now) <==>
              && input.persist && input.bundleSha256 == Some(env.sha(archive)) && SpellsUuid(input.projectId)
              && SpellsSha256(env.sha(archive)) && SpellsSha256(hash) && identity != "" && request.Some?
              && request.value.agentRunId == agentRunId && request.value.payloadHash == hash
              && request.value.target == target && request.value.credentialIdentity == identity
              && request.value.id in rs
              && var r := rs[request.value.id];
              && r.decision == Some(Approved) && r.consumedAt == None && now < r.expiresAt
              && r.agentRunId == agentRunId && r.payloadHash == hash && r.target == target
              && r.credentialIdentity == Some(identity)
  {
    ShapesSpelled(input.projectId);
    ShapesSpelled(env.sha(archive));
    ShapesSpelled(env.payloadHash(Export(input)));
    hide IsUuid, IsSha256, SpellsUuid, SpellsSha256;
  }

  /** An undisturbed run persists exactly when its request is acceptable; then it
      stores its own bytes once, and otherwise nothing. */
  lemma ExportRunPersists(w: World, env: Env, input: ExportInput, agentRunId: string, request: Option<Request>,
                          identity: string, archive: Bytes, now: int)
    requires Valid(w, env)
    ensures var (w', outcome) := ExportRun(w, env, input, agentRunId, request, identity, archive, now);
            && (outcome.Previewed? <==> !input.persist)
            && (outcome.Persisted? <==> Acceptable(w.records, env, input, agentRunId, request, identity, archive, now))
            && w'.stored == w.stored + (if outcome.Persisted?
                                        then [Stored(|w.grants|, input, agentRunId, identity, env.sha(archive),
                                                     archive)] else [])
  {
    hide ReceiptsFit, StoresFit, PreflightsFit, IsUuid, ExportTarget, IsSha256;
    if input.persist && input.bundleSha256 == Some(env.sha(archive)) {
      var target := DeriveApprovalTarget(env, EXPORT, Export(input));
      var proof := PreflightRecord(EXPORT, env.payloadHash(Export(input)), agentRunId);
      var w1 := MintPreflight(w, proof).0;
      if request.Some? && request.value.agentRunId == agentRunId && target.Some? {
        var (w2, receipt) := ConsumeApproval(w1, env, request.value, Export(input), target.value, identity, now);
        if receipt.Some? {
          DispatchPersists(w2, env, input, agentRunId, |w.minted|, proof, receipt.value, identity, archive, target);
          hide DeriveApprovalTarget, Dispatch;
        }
      }
    }
  }

  lemma DispatchPersists(w: World, env: Env, input: ExportInput, agentRunId: string, preflight: nat,
                         proof: PreflightRecord, receipt: nat, identity: string, archive: Bytes, target: Option<string>)
    requires preflight in w.live && preflight < |w.minted| && w.minted[preflight] == proof
    requires receipt < |w.receipts| && receipt !in w.claimed && |w.grants| !in w.used
    requires target.Some? && target == DeriveApprovalTarget(env, EXPORT, Export(input))
    requires w.receipts[receipt] == Snapshot(w.receipts[receipt].approvalId, target.value,
                                             env.payloadHash(Export(input)), identity, agentRunId)
    requires input.persist && input.bundleSha256 == Some(env.sha(archive))
    ensures var (w', outcome) := Dispatch(w, env, input, agentRunId, preflight, proof, receipt, identity, archive,
                                          target);
            && (outcome.Persisted? <==> IsSha256(env.payloadHash(Export(input))))
            && w'.stored == w.stored + (if outcome.Persisted?
                                        then [Stored(|w.grants|, input, agentRunId, identity, env.sha(archive),
                                                     archive)] else [])
  {
    hide DeriveApprovalTarget, IsSha256;
  }
}
