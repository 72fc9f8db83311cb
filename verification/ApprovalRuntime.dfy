/** The objects behind the approval protocol: the in-memory store with its records, the
    process's tables of unforgeable tokens, and one run of the export through them. */
module ApprovalRuntime {
  import opened Wrappers
  import opened Approvals
  import opened ApprovalSafety

  ghost predicate NoRepeats<T>(xs: seq<T>) {
    forall i, j :: 0 <= i < j < |xs| ==> xs[i] != xs[j]
  }

  // ------------------------------------------------------------------- the store

  class ApprovalRecord {
    const made: Record
    var decision: Option<Decision>
    var decidedBy: Option<string>
    var respondedAt: Option<int>
    var consumedAt: Option<int>

    constructor (d: Draft)
      ensures View() == Record(d.agentRunId, d.payloadHash, d.target, Some(d.credentialIdentity), d.expiresAt, None,
                               None, None, None)
    {
      made := Record(d.agentRunId, d.payloadHash, d.target, Some(d.credentialIdentity), d.expiresAt, None, None, None,
                     None);
      decision, decidedBy, respondedAt, consumedAt := None, None, None, None;
    }

    function View(): Record
      reads this
    {
      made.(decision := decision, decidedBy := decidedBy, respondedAt := respondedAt, consumedAt := consumedAt)
    }
  }

  /** The store whose single-turn updates are atomic. It hands out copies only. */
  class InMemoryApprovalStore {
    var records: map<string, ApprovalRecord>

    ghost predicate Valid()
      reads this
    {
      forall a, b :: a in records && b in records && a != b ==> records[a] != records[b]
    }

    ghost function View(): Records
      reads this, records.Values
    {
      map id | id in records :: records[id].View()
    }

    constructor ()
      ensures Valid() && View() == map[]
    {
      records := map[];
    }

    /** An identifier is taken once. */
    method Create(d: Draft) returns (ok: bool)
      requires Valid()
      modifies this
      ensures Valid() && RecordsEvolved(old(View()), View()) && View() == Approvals.Create(old(View()), d).0
      ensures ok <==> d.id !in old(records)
      ensures ok ==> d.id in records && fresh(records[d.id]) && records == old(records)[d.id := records[d.id]]
      ensures !ok ==> records == old(records)
    {
      ghost var before := View();
      RecordsGrow(before, d.id, d, Approved, "", Binding("", "", "", ""), 0);
      hide RecordsEvolved;
      if d.id in records {
        return false;
      }
      var record := new ApprovalRecord(d);
      hide ApprovalRecord.View;
      forall k | k in records ensures records[k].View() == before[k] && records[k] != record {
      }
      records := records[d.id := record];
      assert View() == before[d.id := record.View()];
      ok := true;
    }

    /** Decides a request that nobody has decided, in time; whatever is decided stays. */
    method DecideAtomic(id: string, decision: Verdict, who: string, now: int) returns (copy: Option<Record>)
      requires Valid()
      modifies records.Values
      ensures Valid() && records == old(records) && RecordsEvolved(old(View()), View())
      ensures copy.Some? <==> id in records && old(View())[id].decision.None? && now < old(View())[id].expiresAt
      ensures copy.Some? ==>
        copy.value == View()[id] && copy.value.decision == Some(decision) && copy.value.decidedBy == Some(who)
      ensures View() == if copy.None? then old(View())
                        else old(View())[id := old(View())[id].(decision := Some(decision), decidedBy := Some(who),
                                                                respondedAt := Some(now))]
      ensures (View(), copy.Some?) == Approvals.DecideAtomic(old(View()), id, decision, who, now)
    {
      if id !in records {
        return None;
      }
      var record := records[id];
      if record.decision.Some? || record.made.expiresAt <= now {
        return None;
      }
      record.decision, record.decidedBy, record.respondedAt := Some(decision), Some(who), Some(now);
      copy := Some(record.View());
    }

    method ExpireAtomic(id: string, now: int) returns (copy: Option<Record>)
      requires Valid()
      modifies records.Values
      ensures Valid() && records == old(records) && RecordsEvolved(old(View()), View())
      ensures copy.Some? <==> id in records && old(View())[id].decision.None? && old(View())[id].expiresAt <= now
      ensures id in records && old(View())[id].expiresAt <= now ==> View()[id].decision.Some?
      ensures View() == Approvals.ExpireAtomic(old(View()), id, now).0
    {
      if id !in records {
        return None;
      }
      var record := records[id];
      if record.decision.Some? || record.made.expiresAt > now {
        return None;
      }
      record.decision, record.decidedBy, record.respondedAt := Some(Expired), Some("system"), Some(now);
      copy := Some(record.View());
    }

    /** Consumes an approved request that fits, and nothing can consume it again. */
    method ConsumeAtomic(id: string, b: Binding, now: int) returns (copy: Option<Record>)
      requires Valid()
      modifies records.Values
      ensures Valid() && records == old(records) && RecordsEvolved(old(View()), View())
      ensures copy.Some? <==> Consumable(old(View()), id, b, now)
      ensures copy.Some? ==> copy.value == View()[id] && forall c, later :: !Consumable(View(), id, c, later)
      ensures View() == if copy.Some? then old(View())[id := old(View())[id].(consumedAt := Some(now))] else old(View())
    {
      if id !in records {
        return None;
      }
      var record := records[id];
      if record.made.agentRunId != b.agentRunId || record.decision != Some(Approved) || record.consumedAt.Some?
         || record.made.expiresAt <= now || record.made.payloadHash != b.payloadHash || record.made.target != b.target
         || record.made.credentialIdentity != Some(b.credentialIdentity)
      {
        return None;
      }
      record.consumedAt := Some(now);
      copy := Some(record.View());
    }
  }

  // ------------------------------------------------------------------ the process

  class Receipt {
    const snapshot: Snapshot

    constructor (snapshot: Snapshot)
      ensures this.snapshot == snapshot
    {
      this.snapshot := snapshot;
    }
  }

  class ExecutionGrant {
    constructor () {}
  }

  class PreflightGrant {
    constructor () {}
  }

  lemma PositionsExist(w: World, env: Env)
    requires ApprovalSafety.Valid(w, env)
    ensures (forall i :: i in w.claimed ==> i < |w.receipts|) && (forall k :: k in w.used ==> k < |w.grants|)
    ensures forall p :: p in w.live ==> p < |w.minted|
  {
    hide ReceiptsFit, StoresFit;
  }

  lemma GrantsDiffer(w: World, env: Env)
    requires ApprovalSafety.Valid(w, env)
    ensures forall k, l :: 0 <= k < l < |w.grants| ==> w.grants[k] != w.grants[l]
  {
    hide ReceiptsFit, StoresFit, PreflightsFit;
  }

  lemma ClaimEffect(w: World, env: Env, i: nat, c: Claim)
    requires ApprovalSafety.Valid(w, env) && VerifyReceipt(w, env, i, c) && i !in w.claimed
    ensures Approvals.ClaimReceipt(w, env, i, c) == (w.(claimed := w.claimed + {i}, grants := w.grants + [i]),
                                                     Some(|w.grants|))
    ensures ApprovalSafety.Valid(w.(claimed := w.claimed + {i}, grants := w.grants + [i]), env)
  {
    ClaimKeeps(w, env, i, c);
    hide ApprovalSafety.Valid;
  }

  lemma UseEffect(w: World, env: Env, k: nat, c: Claim)
    requires ApprovalSafety.Valid(w, env) && k < |w.grants| && k !in w.used && VerifyReceipt(w, env, w.grants[k], c)
    ensures Approvals.UseGrant(w, env, k, c) == (w.(used := w.used + {k}), true)
    ensures ApprovalSafety.Valid(w.(used := w.used + {k}), env)
  {
    UseKeeps(w, env, k, c);
    hide ApprovalSafety.Valid;
  }

  ghost predicate NothingStoredUnder(log: seq<ExecutionGrant>, stored: seq<Stored>, grant: ExecutionGrant) {
    forall k :: 0 <= k < |stored| && stored[k].grant < |log| ==> log[stored[k].grant] != grant
  }

  lemma UnusedGrant(log: seq<ExecutionGrant>, w: World, env: Env, k: nat)
    requires ApprovalSafety.Valid(w, env) && k < |log| && k !in w.used
    requires forall i :: 0 <= i < |log| && i != k ==> log[i] != log[k]
    ensures NothingStoredUnder(log, w.stored, log[k])
  {
    UnusedStoredNothing(w, env, k);
  }

  /** What the consumption of a request does to the world. */
  lemma ConsumeEffect(w: World, env: Env, request: Request, payload: Payload, target: string, identity: string,
                      now: int)
    requires ApprovalSafety.Valid(w, env)
    requires request.payloadHash == env.payloadHash(payload) && request.target == target
    requires request.credentialIdentity == identity
    ensures var b := Binding(request.agentRunId, request.payloadHash, target, identity);
            var (w', position) := Approvals.ConsumeApproval(w, env, request, payload, target, identity, now);
            && ApprovalSafety.Valid(w', env)
            && w'.records == (if Consumable(w.records, request.id, b, now)
                              then Approvals.ConsumeAtomic(w.records, request.id, b, now).0
                              else Approvals.ExpireAtomic(w.records, request.id, now).0)
            && w' == w.(records := w'.records, receipts := w'.receipts)
            && w'.receipts == w.receipts + if Consumable(w.records, request.id, b, now) && identity != ""
                                           then [Snapshot(request.id, target, request.payloadHash, identity,
                                                          request.agentRunId)] else []
  {
    ConsumeKeeps(w, env, request, payload, target, identity, now);
    hide ApprovalSafety.Valid;
  }

  // ------------------------------------------------- tokens and their positions

  /** The receipts handed out, in order, are those of the protocol. */
  ghost predicate ReceiptsShow(log: seq<Receipt>, consumed: set<Receipt>, claimed: set<Receipt>,
                               receipts: seq<Snapshot>, positions: set<nat>) {
    && NoRepeats(log) && |log| == |receipts| && consumed == (set r | r in log) && claimed <= consumed
    && forall i :: 0 <= i < |log| ==> log[i].snapshot == receipts[i] && (log[i] in claimed <==> i in positions)
  }

  /** So are the grants, each made for the receipt that it leads to. */
  ghost predicate GrantsShow(log: seq<ExecutionGrant>, table: map<ExecutionGrant, Receipt>, used: set<ExecutionGrant>,
                             receiptLog: seq<Receipt>, grants: seq<nat>, positions: set<nat>) {
    && NoRepeats(log) && |log| == |grants| && table.Keys == (set g | g in log) && used <= table.Keys
    && forall k :: 0 <= k < |log| ==>
         grants[k] < |receiptLog| && table[log[k]] == receiptLog[grants[k]] && (log[k] in used <==> k in positions)
  }

  /** A preflight grant is in the table while it is live. */
  ghost predicate PreflightsShow(log: seq<PreflightGrant>, table: map<PreflightGrant, PreflightRecord>,
                                 minted: seq<PreflightRecord>, live: set<nat>) {
    && NoRepeats(log) && |log| == |minted| && table.Keys <= (set p | p in log)
    && forall k :: 0 <= k < |log| ==>
         (log[k] in table <==> k in live) && (k in live ==> table[log[k]] == minted[k])
  }

  lemma PositionOf<T>(log: seq<T>, x: T) returns (i: nat)
    requires x in log
    ensures i < |log| && log[i] == x
  {
    i :| 0 <= i < |log| && log[i] == x;
  }

  lemma ReceiptMade(log: seq<Receipt>, consumed: set<Receipt>, claimed: set<Receipt>, receipts: seq<Snapshot>,
                    positions: set<nat>, r: Receipt)
    requires ReceiptsShow(log, consumed, claimed, receipts, positions) && r !in log
    requires forall i :: i in positions ==> i < |receipts|
    ensures ReceiptsShow(log + [r], consumed + {r}, claimed, receipts + [r.snapshot], positions)
  {
  }

  lemma ReceiptShown(log: seq<Receipt>, consumed: set<Receipt>, claimed: set<Receipt>, receipts: seq<Snapshot>,
                     positions: set<nat>, i: nat)
    requires ReceiptsShow(log, consumed, claimed, receipts, positions) && i < |log|
    ensures i < |receipts| && log[i].snapshot == receipts[i]
  {
  }

  lemma ReceiptClaimed(log: seq<Receipt>, consumed: set<Receipt>, claimed: set<Receipt>, receipts: seq<Snapshot>,
                       positions: set<nat>, i: nat)
    requires ReceiptsShow(log, consumed, claimed, receipts, positions) && i < |log|
    ensures ReceiptsShow(log, consumed, claimed + {log[i]}, receipts, positions + {i})
  {
  }

  lemma GrantMade(log: seq<ExecutionGrant>, table: map<ExecutionGrant, Receipt>, used: set<ExecutionGrant>,
                  receiptLog: seq<Receipt>, grants: seq<nat>, positions: set<nat>, g: ExecutionGrant, i: nat)
    requires GrantsShow(log, table, used, receiptLog, grants, positions) && g !in log && i < |receiptLog|
    requires forall k :: k in positions ==> k < |grants|
    ensures GrantsShow(log + [g], table[g := receiptLog[i]], used, receiptLog, grants + [i], positions)
  {
  }

  lemma GrantUsed(log: seq<ExecutionGrant>, table: map<ExecutionGrant, Receipt>, used: set<ExecutionGrant>,
                  receiptLog: seq<Receipt>, grants: seq<nat>, positions: set<nat>, k: nat)
    requires GrantsShow(log, table, used, receiptLog, grants, positions) && k < |log|
    ensures GrantsShow(log, table, used + {log[k]}, receiptLog, grants, positions + {k})
  {
  }

  lemma ReceiptLogGrows(log: seq<ExecutionGrant>, table: map<ExecutionGrant, Receipt>, used: set<ExecutionGrant>,
                        receiptLog: seq<Receipt>, grants: seq<nat>, positions: set<nat>, r: Receipt)
    requires GrantsShow(log, table, used, receiptLog, grants, positions)
    ensures GrantsShow(log, table, used, receiptLog + [r], grants, positions)
  {
  }

  lemma PreflightMade(log: seq<PreflightGrant>, table: map<PreflightGrant, PreflightRecord>,
                      minted: seq<PreflightRecord>, live: set<nat>, p: PreflightGrant, record: PreflightRecord)
    requires PreflightsShow(log, table, minted, live) && p !in log && forall k :: k in live ==> k < |minted|
    ensures PreflightsShow(log + [p], table[p := record], minted + [record], live + {|minted|})
  {
  }

  lemma PreflightGone(log: seq<PreflightGrant>, table: map<PreflightGrant, PreflightRecord>,
                      minted: seq<PreflightRecord>, live: set<nat>, k: nat)
    requires PreflightsShow(log, table, minted, live) && k < |log|
    ensures PreflightsShow(log, table - {log[k]}, minted, live - {k})
  {
  }

  /** What the table says of a receipt, the position says too. */
  lemma ReceiptAt(log: seq<Receipt>, consumed: set<Receipt>, claimed: set<Receipt>, receipts: seq<Snapshot>,
                  positions: set<nat>, r: Receipt) returns (i: nat)
    requires ReceiptsShow(log, consumed, claimed, receipts, positions) && r in consumed
    ensures i < |log| && i < |receipts| && log[i] == r && receipts[i] == r.snapshot
    ensures (r in claimed <==> i in positions)
  {
    i := PositionOf(log, r);
  }

  lemma GrantAt(log: seq<ExecutionGrant>, table: map<ExecutionGrant, Receipt>, used: set<ExecutionGrant>,
                receiptLog: seq<Receipt>, grants: seq<nat>, positions: set<nat>, g: ExecutionGrant) returns (k: nat)
    requires GrantsShow(log, table, used, receiptLog, grants, positions) && g in table
    ensures k < |log| && k < |grants| && log[k] == g && grants[k] < |receiptLog| && receiptLog[grants[k]] == table[g]
    ensures (g in used <==> k in positions) && forall l :: 0 <= l < |log| && l != k ==> log[l] != g
  {
    k := PositionOf(log, g);
  }

  lemma GrantsLogged(log: seq<ExecutionGrant>, table: map<ExecutionGrant, Receipt>, used: set<ExecutionGrant>,
                     receiptLog: seq<Receipt>, grants: seq<nat>, positions: set<nat>)
    requires GrantsShow(log, table, used, receiptLog, grants, positions)
    ensures |log| == |grants|
  {
  }

  /** The receipt of an acceptable request fits the run it was consumed for, provided
      that the payload hash is one. */
  lemma ReceiptFitsRun(env: Env, input: ExportInput, agentRunId: string, id: string, target: string, identity: string)
    requires DeriveApprovalTarget(env, EXPORT, Export(input)) == Some(target)
    ensures Fits(Snapshot(id, target, env.payloadHash(Export(input)), identity, agentRunId), env,
                 Claim(agentRunId, EXPORT, Export(input), identity, None))
       <==> IsSha256(env.payloadHash(Export(input)))
  {
    hide DeriveApprovalTarget, IsSha256;
  }

  /** A claim fits with the target that the input derives, or with none given, alike. */
  lemma TargetFits(s: Snapshot, env: Env, agentRunId: string, input: ExportInput, identity: string)
    ensures var target := DeriveApprovalTarget(env, EXPORT, Export(input));
            && (target.None? ==> !Fits(s, env, Claim(agentRunId, EXPORT, Export(input), identity, None)))
            && (Fits(s, env, Claim(agentRunId, EXPORT, Export(input), identity, target))
                <==> Fits(s, env, Claim(agentRunId, EXPORT, Export(input), identity, None)))
  {
    hide DeriveApprovalTarget, HexEqual;
  }

  lemma PreflightAt(log: seq<PreflightGrant>, table: map<PreflightGrant, PreflightRecord>, minted: seq<PreflightRecord>,
                    live: set<nat>, p: PreflightGrant) returns (k: nat)
    requires PreflightsShow(log, table, minted, live) && p in table
    ensures k < |log| && k < |minted| && log[k] == p && k in live && minted[k] == table[p]
  {
    k := PositionOf(log, p);
  }

  /** One more bundle went through, under an approval that let nothing through before. */
  ghost predicate StoredUnder(before: seq<Stored>, w: World, input: ExportInput, agentRunId: string,
                              credentialIdentity: string, hash: string, bytes: Bytes, approvalId: string) {
    && |w.stored| == |before| + 1 && w.stored[..|before|] == before
    && (forall j :: 0 <= j < |w.stored| ==>
          w.stored[j].grant < |w.grants| && w.grants[w.stored[j].grant] < |w.receipts|)
    && var s := w.stored[|before|];
    && s == Stored(s.grant, input, agentRunId, credentialIdentity, hash, bytes) && ApprovalOf(w, s) == approvalId
    && forall j :: 0 <= j < |before| ==> ApprovalOf(w, w.stored[j]) != approvalId
  }

  /** The call of storeBundle under a grant, for a claim. */
  function CallUnder(env: Env, position: nat, input: ExportInput, c: Claim, archive: Bytes): Stored {
    Stored(position, input, c.agentRunId, c.credentialIdentity, env.sha(archive), archive)
  }

  lemma StoreShown(receiptLog: seq<Receipt>, consumed: set<Receipt>, claimed: set<Receipt>,
                   grantLog: seq<ExecutionGrant>, table: map<ExecutionGrant, Receipt>, used: set<ExecutionGrant>,
                   w: World, env: Env, input: ExportInput, position: nat, c: Claim, archive: Bytes)
    requires ReceiptsShow(receiptLog, consumed, claimed, w.receipts, w.claimed)
    requires GrantsShow(grantLog, table, used, receiptLog, w.grants, w.used)
    requires ApprovalSafety.Valid(w, env) && position < |grantLog| && position in w.used
    requires NothingStoredUnder(grantLog, w.stored, grantLog[position])
    requires Fits(table[grantLog[position]].snapshot, env, c)
    requires c.payload == Export(input) && c.skill == EXPORT && c.target.None?
    requires input.bundleSha256 == Some(env.sha(archive))
    ensures var w' := w.(stored := w.stored + [CallUnder(env, position, input, c, archive)]);
            && ApprovalSafety.Valid(w', env)
            && StoredUnder(w.stored, w', input, c.agentRunId, c.credentialIdentity, env.sha(archive), archive,
                           table[grantLog[position]].snapshot.approvalId)
  {
    var w' := w.(stored := w.stored + [CallUnder(env, position, input, c, archive)]);
    StoredElsewhere(w, env, position, grantLog);
    StoreEffect(w, env, input, position, c, archive);
    hide ApprovalSafety.Valid, Fits;
    StoredOnce(w', env, |w.stored|);
    hide Covered;
  }

  lemma StoredElsewhere(w: World, env: Env, position: nat, log: seq<ExecutionGrant>)
    requires ApprovalSafety.Valid(w, env) && position < |log| && |log| == |w.grants|
    requires NothingStoredUnder(log, w.stored, log[position])
    ensures forall k :: 0 <= k < |w.stored| ==> w.stored[k].grant != position
  {
    hide ReceiptsFit, PreflightsFit;
  }

  /** A grant of the newest receipt claim is the only one for its receipt. */
  lemma OnlyGrant(log: seq<ExecutionGrant>, table: map<ExecutionGrant, Receipt>, used: set<ExecutionGrant>,
                  receiptLog: seq<Receipt>, grants: seq<nat>, positions: set<nat>, g: ExecutionGrant,
                  consumed: set<Receipt>, claimed: set<Receipt>, receipts: seq<Snapshot>, claimedPositions: set<nat>)
    requires GrantsShow(log, table, used, receiptLog, grants, positions) && g in table
    requires ReceiptsShow(receiptLog, consumed, claimed, receipts, claimedPositions)
    requires forall k, l :: 0 <= k < l < |grants| ==> grants[k] != grants[l]
    ensures forall h :: h in table && table[h] == table[g] ==> h == g
  {
    var k := PositionOf(log, g);
    forall h | h in table && table[h] == table[g] ensures h == g {
      var l := PositionOf(log, h);
      assert grants[k] == grants[l];
    }
  }

  lemma OneMoreValue(records: map<string, ApprovalRecord>, id: string, r: ApprovalRecord)
    ensures records[id := r].Values <= records.Values + {r}
  {
  }

  /** What deciding, or else expiring, makes of the records. */
  lemma DecisionOutcome(rs: Records, id: string, decision: Verdict, who: string, now: int)
    ensures var (decided, ok) := Approvals.DecideAtomic(rs, id, decision, who, now);
            var later := if ok then decided else Approvals.ExpireAtomic(rs, id, now).0;
            && RecordsEvolved(rs, later)
            && (ok <==> id in rs && rs[id].decision.None? && now < rs[id].expiresAt)
            && (ok ==> id in later && later[id].decision == Some(decision) && later[id].decidedBy == Some(who))
            && (!ok && id in later ==> later[id].decision.Some?)
  {
  }

  /** The characters that trimming a text takes away. */
  const WHITESPACE :=
    "\t\n\U{000B}\U{000C}\r \U{00A0}\U{1680}\U{2000}\U{2001}\U{2002}\U{2003}\U{2004}\U{2005}\U{2006}\U{2007}"
    + "\U{2008}\U{2009}\U{200A}\U{2028}\U{2029}\U{202F}\U{205F}\U{3000}\U{FEFF}"

  predicate Blank(s: string) {
    forall c :: c in s ==> c in WHITESPACE
  }

  /** Blank is what holds no character but white space, line ends and the byte order mark. */
  lemma BlankMeaning(s: string)
    ensures Blank(s) <==> forall i :: 0 <= i < |s| ==> IsBlank(s[i] as int)
  {
    forall i | 0 <= i < |s| ensures s[i] in WHITESPACE <==> IsBlank(s[i] as int) {
      WhiteSpaceMeaning(s[i]);
    }
    hide IsBlank;
  }

  predicate IsBlank(c: int) {
    || 0x09 <= c <= 0x0D || c == 0x20 || c == 0xA0 || c == 0x1680 || 0x2000 <= c <= 0x200A || c == 0x2028
    || c == 0x2029 || c == 0x202F || c == 0x205F || c == 0x3000 || c == 0xFEFF
  }

  lemma WhiteSpaceMeaning(c: char)
    ensures c in WHITESPACE <==> IsBlank(c as int)
  {
  }

  /** The tables that tell genuine tokens from others. The logs remember every token
      ever made, and the world is what the protocol says of them by position. */
  class Process {
    const env: Env
    const store: InMemoryApprovalStore
    var consumedReceipts: set<Receipt>
    var claimedReceipts: set<Receipt>
    var executionGrants: map<ExecutionGrant, Receipt>
    var usedGrants: set<ExecutionGrant>
    var preflightGrants: map<PreflightGrant, PreflightRecord>
    ghost var receiptLog: seq<Receipt>
    ghost var grantLog: seq<ExecutionGrant>
    ghost var preflightLog: seq<PreflightGrant>
    ghost var world: World

    ghost predicate TokensShow()
      reads this
    {
      && ReceiptsShow(receiptLog, consumedReceipts, claimedReceipts, world.receipts, world.claimed)
      && GrantsShow(grantLog, executionGrants, usedGrants, receiptLog, world.grants, world.used)
      && PreflightsShow(preflightLog, preflightGrants, world.minted, world.live)
    }

    ghost predicate Valid()
      reads this, store, store.records.Values
    {
      && store.Valid() && store.View() == world.records
      && TokensShow()
      && ApprovalSafety.Valid(world, env)
    }

    constructor (env: Env, store: InMemoryApprovalStore)
      requires store.Valid()
      ensures this.env == env && this.store == store && Valid() && world == Fresh().(records := store.View())
    {
      this.env, this.store := env, store;
      consumedReceipts, claimedReceipts, executionGrants, usedGrants, preflightGrants := {}, {}, map[], {}, map[];
      receiptLog, grantLog, preflightLog, world := [], [], [], Fresh().(records := store.View());
    }

    /** A person is asked to approve exactly this payload, target and identity. The id is
        drawn at random; a blank target or identity, and an id that is taken, are refused. */
    method CreateApprovalRequest(id: string, agentRunId: string, payload: Payload, timeoutMinutes: int, target: string,
                                 credentialIdentity: string, now: int) returns (request: Option<Request>)
      requires Valid()
      modifies store, this`world
      ensures Valid()
      ensures request.Some? <==> !Blank(target) && !Blank(credentialIdentity) && id !in old(store.View())
      ensures request.None? ==> world == old(world) && store.View() == old(store.View())
      ensures request.Some? ==>
              && request.value == Request(id, agentRunId, env.payloadHash(payload), target, credentialIdentity)
              && world == Next(old(world), env, Creates(Draft(id, agentRunId, env.payloadHash(payload), target,
                                                              credentialIdentity,
                                                              now + timeoutMinutes * 60_000)))
              && store.View() == old(store.View())[id := Record(agentRunId, env.payloadHash(payload), target,
                                                                Some(credentialIdentity),
                                                                now + timeoutMinutes * 60_000, None, None, None, None)]
      ensures forall r :: r in store.records.Values ==> r in old(store.records.Values) || fresh(r)
    {
      hide ReceiptsShow, GrantsShow, PreflightsShow, ApprovalSafety.Valid, RecordsEvolved;
      if Blank(target) || Blank(credentialIdentity) {
        return None;
      }
      var d := Draft(id, agentRunId, env.payloadHash(payload), target, credentialIdentity,
                     now + timeoutMinutes * 60_000);
      var ok := store.Create(d);
      if !ok {
        return None;
      }
      OneMoreValue(old(store.records), id, store.records[id]);
      RecordsKeep(world, store.View(), env);
      world := world.(records := store.View());
      request := Some(Request(id, agentRunId, d.payloadHash, target, credentialIdentity));
    }

    /** Records a decision in time; what comes too late expires the request instead. */
    method DecideApproval(id: string, decision: Verdict, who: string, now: int) returns (ok: bool)
      requires Valid()
      modifies store.records.Values, this`world
      ensures Valid() && store.records == old(store.records)
      ensures world == Next(old(world), env, Decides(id, decision, who, now))
      ensures ok <==>
        id in old(store.View()) && old(store.View())[id].decision.None? && now < old(store.View())[id].expiresAt
      ensures ok ==> store.View()[id].decision == Some(decision) && store.View()[id].decidedBy == Some(who)
      ensures !ok && id in store.View() ==> store.View()[id].decision.Some?
    {
      DecisionOutcome(world.records, id, decision, who, now);
      hide ReceiptsShow, GrantsShow, PreflightsShow, ApprovalSafety.Valid, RecordsEvolved;
      hide Approvals.DecideAtomic, Approvals.ExpireAtomic, InMemoryApprovalStore.View, InMemoryApprovalStore.Valid;
      var copy := store.DecideAtomic(id, decision, who, now);
      ok := copy.Some?;
      if !ok {
        var _ := store.ExpireAtomic(id, now);
      }
      RecordsKeep(world, store.View(), env);
      world := world.(records := store.View());
    }

    /** A new receipt that no table holds yet; an unidentified record has none. */
    method ImmutableReceipt(snapshot: Snapshot) returns (receipt: Receipt?)
      requires TokensShow() && forall i :: i in world.claimed ==> i < |world.receipts|
      modifies this`consumedReceipts, this`receiptLog, this`world
      ensures TokensShow()
      ensures receipt != null <==> snapshot.credentialIdentity != ""
      ensures receipt != null ==>
              fresh(receipt) && receipt.snapshot == snapshot && consumedReceipts == old(consumedReceipts) + {receipt}
      ensures receipt == null ==> consumedReceipts == old(consumedReceipts)
      ensures world == old(world).(receipts := old(world.receipts) + if receipt != null then [snapshot] else [])
    {
      hide ReceiptsShow, GrantsShow, PreflightsShow, NoRepeats;
      if snapshot.credentialIdentity == "" {
        return null;
      }
      receipt := new Receipt(snapshot);
      ReceiptMade(receiptLog, consumedReceipts, claimedReceipts, world.receipts, world.claimed, receipt);
      ReceiptLogGrows(grantLog, executionGrants, usedGrants, receiptLog, world.grants, world.used, receipt);
      consumedReceipts := consumedReceipts + {receipt};
      receiptLog := receiptLog + [receipt];
      world := world.(receipts := world.receipts + [snapshot]);
    }

    /** Consumption in the store; a request that cannot be consumed may be due to expire. */
    method ConsumeOrExpire(id: string, b: Binding, now: int) returns (ok: bool)
      requires store.Valid() && store.View() == world.records && TokensShow()
      modifies this`world, store.records.Values
      ensures store.Valid() && store.records == old(store.records) && store.View() == world.records && TokensShow()
      ensures ok <==> Consumable(old(world.records), id, b, now)
      ensures ok ==> forall c, later :: !Consumable(world.records, id, c, later)
      ensures world == old(world).(records := if ok then Approvals.ConsumeAtomic(old(world.records), id, b, now).0
                                              else Approvals.ExpireAtomic(old(world.records), id, now).0)
    {
      hide ReceiptsShow, GrantsShow, PreflightsShow, RecordsEvolved, Consumable;
      hide InMemoryApprovalStore.View, InMemoryApprovalStore.Valid;
      var copy := store.ConsumeAtomic(id, b, now);
      ok := copy.Some?;
      if !ok {
        var _ := store.ExpireAtomic(id, now);
      }
      world := world.(records := store.View());
    }

    /** Consumes an approved request and makes its receipt: a receipt that was never
        there before, for a request that cannot be consumed again. */
    method ConsumeApproval(request: Request, payload: Payload, target: string, credentialIdentity: string, now: int)
      returns (receipt: Receipt?)
      requires Valid()
      modifies this`consumedReceipts, this`receiptLog, this`world, store.records.Values
      ensures Valid() && store.records == old(store.records)
      ensures world == old(world).(records := store.View(), receipts := world.receipts)
      ensures receipt != null <==>
              && credentialIdentity != ""
              && request == Request(request.id, request.agentRunId, env.payloadHash(payload), target,
                                    credentialIdentity)
              && Consumable(old(store.View()), request.id, Binding(request.agentRunId, request.payloadHash, target,
                                                                   credentialIdentity), now)
      ensures receipt != null ==>
              && fresh(receipt) && consumedReceipts == old(consumedReceipts) + {receipt}
              && receipt.snapshot == Snapshot(request.id, target, request.payloadHash, credentialIdentity,
                                              request.agentRunId)
              && forall c, later :: !Consumable(store.View(), request.id, c, later)
      ensures receipt == null ==> consumedReceipts == old(consumedReceipts)
    {
      hide TokensShow, ApprovalSafety.Valid, Consumable;
      var b := Binding(request.agentRunId, env.payloadHash(payload), target, credentialIdentity);
      if b.payloadHash != request.payloadHash || b.target != request.target
         || b.credentialIdentity != request.credentialIdentity
      {
        return null;
      }
      ConsumeEffect(world, env, request, payload, target, credentialIdentity, now);
      PositionsExist(world, env);
      hide Approvals.ConsumeApproval;
      var ok := ConsumeOrExpire(request.id, b, now);
      if !ok {
        return null;
      }
      receipt := ImmutableReceipt(Snapshot(request.id, target, b.payloadHash, credentialIdentity, request.agentRunId));
    }

    /** A genuine receipt that fits makes one grant, ever. */
    method ClaimReceipt(receipt: Receipt?, c: Claim) returns (grant: ExecutionGrant?)
      requires Valid()
      modifies this`claimedReceipts, this`executionGrants, this`grantLog, this`world
      ensures Valid()
      ensures grant != null <==>
              receipt != null && receipt in consumedReceipts && receipt !in old(claimedReceipts)
                && Fits(receipt.snapshot, env, c)
      ensures world == old(world).(claimed := world.claimed, grants := world.grants)
      ensures grant == null ==>
        world == old(world) && claimedReceipts == old(claimedReceipts) && executionGrants == old(executionGrants)
      ensures grant != null ==>
              && fresh(grant) && claimedReceipts == old(claimedReceipts) + {receipt} && grant !in usedGrants
              && executionGrants == old(executionGrants)[grant := receipt]
              && forall g :: g in executionGrants && executionGrants[g] == receipt ==> g == grant
    {
      hide ReceiptsShow, GrantsShow, PreflightsShow, ApprovalSafety.Valid, NoRepeats, Fits, Approvals.ClaimReceipt;
      hide InMemoryApprovalStore.View, InMemoryApprovalStore.Valid;
      if receipt == null || receipt !in consumedReceipts || !Fits(receipt.snapshot, env, c)
         || receipt in claimedReceipts {
        return null;
      }
      ghost var i := ReceiptAt(receiptLog, consumedReceipts, claimedReceipts, world.receipts, world.claimed, receipt);
      PositionsExist(world, env);
      ClaimEffect(world, env, i, c);
      ReceiptClaimed(receiptLog, consumedReceipts, claimedReceipts, world.receipts, world.claimed, i);
      claimedReceipts := claimedReceipts + {receipt};
      grant := new ExecutionGrant();
      GrantMade(grantLog, executionGrants, usedGrants, receiptLog, world.grants, world.used, grant, i);
      executionGrants := executionGrants[grant := receipt];
      grantLog := grantLog + [grant];
      world := world.(claimed := world.claimed + {i}, grants := world.grants + [i]);
      GrantsDiffer(world, env);
      OnlyGrant(grantLog, executionGrants, usedGrants, receiptLog, world.grants, world.used, grant,
                consumedReceipts, claimedReceipts, world.receipts, world.claimed);
    }

    /** A genuine grant that fits is used once; nothing was stored under it before. */
    method UseGrant(grant: ExecutionGrant?, c: Claim) returns (ok: bool, ghost position: nat)
      requires Valid()
      modifies this`usedGrants, this`world
      ensures Valid()
      ensures ok <==> && grant != null && grant in executionGrants && grant !in old(usedGrants)
                      && Fits(executionGrants[grant].snapshot, env, c)
      ensures usedGrants == if ok then old(usedGrants) + {grant} else old(usedGrants)
      ensures ok ==> position < |world.grants| && position in world.used && grantLog[position] == grant
      ensures world.(used := {}) == old(world).(used := {})
      ensures ok ==> NothingStoredUnder(grantLog, world.stored, grant)
    {
      hide ReceiptsShow, GrantsShow, PreflightsShow, ApprovalSafety.Valid, NoRepeats, Fits, Approvals.UseGrant;
      hide NothingStoredUnder;
      if grant == null || grant !in executionGrants || grant in usedGrants
         || !Fits(executionGrants[grant].snapshot, env, c) {
        return false, 0;
      }
      ghost var k := GrantAt(grantLog, executionGrants, usedGrants, receiptLog, world.grants, world.used, grant);
      ReceiptShown(receiptLog, consumedReceipts, claimedReceipts, world.receipts, world.claimed, world.grants[k]);
      UnusedGrant(grantLog, world, env, k);
      UseEffect(world, env, k, c);
      GrantUsed(grantLog, executionGrants, usedGrants, receiptLog, world.grants, world.used, k);
      usedGrants := usedGrants + {grant};
      world := world.(used := world.used + {k});
      ok, position := true, k;
    }

    /** The one-use proof of a preflight, for exactly this record. */
    method MintPreflight(p: PreflightRecord) returns (grant: PreflightGrant)
      requires Valid()
      modifies this`preflightGrants, this`preflightLog, this`world
      ensures Valid() && fresh(grant) && preflightGrants == old(preflightGrants)[grant := p]
      ensures world == old(world).(minted := world.minted, live := world.live)
    {
      PositionsExist(world, env);
      MintKeeps(world, env, p);
      hide ReceiptsShow, GrantsShow, PreflightsShow, ApprovalSafety.Valid, NoRepeats;
      grant := new PreflightGrant();
      PreflightMade(preflightLog, preflightGrants, world.minted, world.live, grant, p);
      preflightGrants := preflightGrants[grant := p];
      preflightLog := preflightLog + [grant];
      world := Approvals.MintPreflight(world, p).0;
    }

    /** Presenting a preflight grant takes it out of the table, whether or not it fits,
        so that it never passes again. */
    method PassPreflight(grant: PreflightGrant?, p: PreflightRecord) returns (ok: bool)
      requires Valid()
      modifies this`preflightGrants, this`world
      ensures Valid()
      ensures ok <==> grant != null && grant in old(preflightGrants) && old(preflightGrants)[grant] == p
      ensures preflightGrants == if grant == null then old(preflightGrants) else old(preflightGrants) - {grant}
      ensures world == old(world).(live := world.live, passed := world.passed)
    {
      hide ReceiptsShow, GrantsShow, PreflightsShow, ApprovalSafety.Valid, NoRepeats;
      ok := grant != null && grant in preflightGrants && preflightGrants[grant] == p;
      if grant != null && grant in preflightGrants {
        ghost var k := PreflightAt(preflightLog, preflightGrants, world.minted, world.live, grant);
        PassKeeps(world, env, k, p);
        PreflightGone(preflightLog, preflightGrants, world.minted, world.live, k);
        preflightGrants := preflightGrants - {grant};
        world := Approvals.PassPreflight(world, k, p).0;
      }
    }

    /** Is a grant genuine, used, and of a receipt that fits? Asked before every write. */
    predicate AuthorizesSink(grant: ExecutionGrant, c: Claim)
      reads this
    {
      grant in executionGrants && grant in usedGrants && Fits(executionGrants[grant].snapshot, env, c)
    }

    /** Uses the grant, asks again before the write, and calls storeBundle. */
    method StoreUnder(grant: ExecutionGrant, input: ExportInput, c: Claim, archive: Bytes) returns (ok: bool)
      requires Valid() && input.bundleSha256 == Some(env.sha(archive))
      requires c.payload == Export(input) && c.skill == EXPORT && c.target.None?
      modifies this`usedGrants, this`world
      ensures Valid() && world.records == old(world.records)
      ensures ok <==>
        grant in executionGrants && grant !in old(usedGrants) && Fits(executionGrants[grant].snapshot, env, c)
      ensures usedGrants == if ok then old(usedGrants) + {grant} else old(usedGrants)
      ensures !ok ==> world.stored == old(world.stored)
      ensures ok ==>
        StoredUnder(old(world.stored), world, input, c.agentRunId, c.credentialIdentity, env.sha(archive), archive,
                    executionGrants[grant].snapshot.approvalId)
    {
      hide Fits, ApprovalSafety.Valid, ReceiptsShow, GrantsShow, PreflightsShow, NoRepeats, NothingStoredUnder;
      hide StoredUnder;
      ghost var position;
      ok, position := UseGrant(grant, c);
      if !ok {
        return;
      }
      if !AuthorizesSink(grant, c) {
        return false;
      }
      GrantsLogged(grantLog, executionGrants, usedGrants, receiptLog, world.grants, world.used);
      StoreShown(receiptLog, consumedReceipts, claimedReceipts, grantLog, executionGrants, usedGrants, world, env,
                 input, position, c, archive);
      world := world.(stored := world.stored + [CallUnder(env, position, input, c, archive)]);
    }

    /** The persist path of the export, up to its call of storeBundle. The grant that was
        given, or one claimed here, lets exactly the named archive through. */
    method ExecuteExport(input: ExportInput, agentRunId: string, given: ExecutionGrant?, receipt: Receipt?,
                         credentialIdentity: string, archive: Bytes) returns (ok: bool)
      requires Valid()
      modifies this`claimedReceipts, this`executionGrants, this`grantLog, this`usedGrants, this`world
      ensures Valid() && world.records == old(world.records)
      ensures var c := Claim(agentRunId, EXPORT, Export(input), credentialIdentity, None);
              ok <==>
                && input.persist && input.bundleSha256 == Some(env.sha(archive))
                && if given != null then given in old(executionGrants) && given !in old(usedGrants)
                                         && Fits(old(executionGrants)[given].snapshot, env, c)
                   else receipt != null && receipt in consumedReceipts && receipt !in old(claimedReceipts)
                        && Fits(receipt.snapshot, env, c)
      ensures !ok ==> world.stored == old(world.stored)
      ensures ok ==>
              && (given != null ==> given in old(executionGrants)) && (given == null ==> receipt != null)
              && var through := if given != null then old(executionGrants)[given] else receipt;
              StoredUnder(old(world.stored), world, input, agentRunId, credentialIdentity, env.sha(archive), archive,
                          through.snapshot.approvalId)
    {
      hide Fits, ApprovalSafety.Valid, ReceiptsShow, GrantsShow, PreflightsShow, StoredUnder;
      var c := Claim(agentRunId, EXPORT, Export(input), credentialIdentity, None);
      if !input.persist || input.bundleSha256 != Some(env.sha(archive)) {
        return false;
      }
      var grant := given;
      if grant == null {
        grant := ClaimReceipt(receipt, c);
        if grant == null {
          return false;
        }
      }
      ok := StoreUnder(grant, input, c, archive);
    }

    /** The registry's part of a run: the proof first, then the claim, then the execution.
        Without a proof the preflight is run here. Only what persists needs an approval;
        forged, foreign and spent tokens persist nothing. */
    method Dispatch(input: ExportInput, agentRunId: string, preflight: PreflightGrant?, receipt: Receipt?,
                    credentialIdentity: string, archive: Bytes) returns (persisted: bool)
      requires Valid()
      modifies this`claimedReceipts, this`executionGrants, this`grantLog, this`usedGrants, this`preflightGrants,
        this`world
      ensures Valid() && world.records == old(world.records)
      ensures persisted <==>
              && (preflight == null
                  || (preflight in old(preflightGrants)
                      && old(preflightGrants)[preflight]
                         == PreflightRecord(EXPORT, env.payloadHash(Export(input)), agentRunId)))
              && input.persist && input.bundleSha256 == Some(env.sha(archive))
              && receipt != null && receipt in consumedReceipts && receipt !in old(claimedReceipts)
              && Fits(receipt.snapshot, env, Claim(agentRunId, EXPORT, Export(input), credentialIdentity, None))
      ensures !persisted ==> world.stored == old(world.stored)
      ensures persisted ==>
              receipt != null && StoredUnder(old(world.stored), world, input, agentRunId, credentialIdentity,
                                             env.sha(archive), archive, receipt.snapshot.approvalId)
      ensures preflight != null ==> preflight !in preflightGrants
    {
      hide Fits, ApprovalSafety.Valid, TokensShow, StoredUnder, DeriveApprovalTarget;
      if preflight != null {
        var proven := PassPreflight(preflight, PreflightRecord(EXPORT, env.payloadHash(Export(input)), agentRunId));
        if !proven {
          return false;
        }
      } else if input.persist && input.bundleSha256 != Some(env.sha(archive)) {
        return false;
      }
      if !input.persist {
        return false;
      }
      var target := DeriveApprovalTarget(env, EXPORT, Export(input));
      if receipt != null {
        TargetFits(receipt.snapshot, env, agentRunId, input, credentialIdentity);
      }
      if target.None? {
        return false;
      }
      var grant := ClaimReceipt(receipt, Claim(agentRunId, EXPORT, Export(input), credentialIdentity, target));
      if grant == null {
        return false;
      }
      persisted := ExecuteExport(input, agentRunId, grant, receipt, credentialIdentity, archive);
    }

    /** One run of the export skill: preflight, consumption of the approval, and the
        registry's dispatch, in that order. It persists exactly when its request is
        acceptable, and then stores its own archive, once, under that approval. */
    method RunExport(input: ExportInput, agentRunId: string, request: Option<Request>,
                     credentialIdentity: string, archive: Bytes, now: int) returns (outcome: Outcome)
      requires Valid()
      modifies this, store.records.Values
      ensures Valid() && (outcome.Previewed? <==> !input.persist)
      ensures outcome.Persisted? <==>
              Acceptable(old(store.View()), env, input, agentRunId, request, credentialIdentity, archive, now)
      ensures !outcome.Persisted? ==> world.stored == old(world.stored)
      ensures outcome.Persisted? ==>
              && request.Some?
              && StoredUnder(old(world.stored), world, input, agentRunId, credentialIdentity, env.sha(archive),
                             archive, request.value.id)
              && forall c, later :: !Consumable(store.View(), request.value.id, c, later)
    {
      hide ApprovalSafety.Valid, TokensShow, StoredUnder, DeriveApprovalTarget, Consumable, Fits, HexEqual, IsSha256;
      hide InMemoryApprovalStore.View, InMemoryApprovalStore.Valid;
      if !input.persist {
        return Previewed;
      }
      // The export's own preflight, and its one-use proof.
      if input.bundleSha256 != Some(env.sha(archive)) {
        return Refused;
      }
      var proof := PreflightRecord(EXPORT, env.payloadHash(Export(input)), agentRunId);
      var preflight := MintPreflight(proof);
      // The approval of exactly this input, consumed once.
      if request.None? || request.value.agentRunId != agentRunId {
        return Refused;
      }
      var target := DeriveApprovalTarget(env, EXPORT, Export(input));
      if target.None? {
        return Refused;
      }
      var receipt := ConsumeApproval(request.value, Export(input), target.value, credentialIdentity, now);
      if receipt == null {
        return Refused;
      }
      ReceiptFitsRun(env, input, agentRunId, request.value.id, target.value, credentialIdentity);
      var persisted := Dispatch(input, agentRunId, preflight, receipt, credentialIdentity, archive);
      outcome := if persisted then Persisted else Refused;
    }

    /** From the request to the stored bundle: an export whose preview has the named hash
        is requested under a fresh id, approved in time by a person, and run in time. It
        persists, and its approval is then spent. */
    method RequestApproveExport(id: string, input: ExportInput, agentRunId: string, timeoutMinutes: int, who: string,
                                credentialIdentity: string, archive: Bytes, asked: int, decided: int, run: int)
      returns (outcome: Outcome)
      requires Valid() && id !in store.View() && !Blank(credentialIdentity)
      requires input.persist && IsUuid(input.projectId) && input.bundleSha256 == Some(env.sha(archive))
      requires IsSha256(env.sha(archive)) && IsSha256(env.payloadHash(Export(input)))
      requires decided < asked + timeoutMinutes * 60_000 && run < asked + timeoutMinutes * 60_000
      modifies this, store, store.records.Values
      ensures Valid() && outcome.Persisted?
      ensures StoredUnder(old(world.stored), world, input, agentRunId, credentialIdentity, env.sha(archive), archive,
                          id)
      ensures forall c, later :: !Consumable(store.View(), id, c, later)
    {
      var target := ExportTarget(input.projectId, env.sha(archive));
      TargetIsDerived(env, input, archive);
      ghost var d := Draft(id, agentRunId, env.payloadHash(Export(input)), target, credentialIdentity,
                           asked + timeoutMinutes * 60_000);
      ApprovedIsConsumable(world.records, d, who, decided, run);
      hide *;
      var request := CreateApprovalRequest(id, agentRunId, Export(input), timeoutMinutes, target, credentialIdentity,
                                           asked);
      ViewIsWorld();
      CreatesRecords(old(world), env, d);
      var ok := DecideApproval(id, Approved, who, decided);
      ViewIsWorld();
      DecidesRecords(Next(old(world), env, Creates(d)), env, id, who, decided);
      IsAcceptable(store.View(), env, input, agentRunId, id, target, credentialIdentity, archive, run);
      outcome := RunExport(input, agentRunId, request, credentialIdentity, archive, run);
    }

    lemma ViewIsWorld()
      requires Valid()
      ensures store.View() == world.records
    {
    }
  }

  lemma TargetIsDerived(env: Env, input: ExportInput, archive: Bytes)
    requires input.persist && IsUuid(input.projectId) && input.bundleSha256 == Some(env.sha(archive))
    requires IsSha256(env.sha(archive))
    ensures DeriveApprovalTarget(env, EXPORT, Export(input)) == Some(ExportTarget(input.projectId, env.sha(archive)))
    ensures !Blank(ExportTarget(input.projectId, env.sha(archive)))
  {
    var target := ExportTarget(input.projectId, env.sha(archive));
    var prefix := "capability:export_evidence_bundle|project:";
    assert target[0] == prefix[0] == 'c' && target[0] in target;
  }

  lemma CreatesRecords(w: World, env: Env, d: Draft)
    ensures Next(w, env, Creates(d)) == w.(records := Approvals.Create(w.records, d).0)
  {
  }

  lemma DecidesRecords(w: World, env: Env, id: string, who: string, now: int)
    ensures var (rs, ok) := Approvals.DecideAtomic(w.records, id, Approved, who, now);
            && (ok ==> Next(w, env, Decides(id, Approved, who, now)) == w.(records := rs))
            && Next(w, env, Decides(id, Approved, who, now)).stored == w.stored
  {
  }

  /** A new request, approved in time, can be consumed in time by what it was made for. */
  lemma ApprovedIsConsumable(rs: Records, d: Draft, who: string, decided: int, run: int)
    requires d.id !in rs && decided < d.expiresAt && run < d.expiresAt
    ensures var (approved, ok) := Approvals.DecideAtomic(Approvals.Create(rs, d).0, d.id, Approved, who, decided);
            ok && Consumable(approved, d.id, Binding(d.agentRunId, d.payloadHash, d.target, d.credentialIdentity), run)
  {
  }

  lemma IsAcceptable(rs: Records, env: Env, input: ExportInput, agentRunId: string, id: string, target: string,
                     identity: string, archive: Bytes, now: int)
    requires input.persist && input.bundleSha256 == Some(env.sha(archive)) && !Blank(identity)
    requires DeriveApprovalTarget(env, EXPORT, Export(input)) == Some(target)
    requires IsSha256(env.payloadHash(Export(input)))
    requires Consumable(rs, id, Binding(agentRunId, env.payloadHash(Export(input)), target, identity), now)
    ensures Acceptable(rs, env, input, agentRunId, Some(Request(id, agentRunId, env.payloadHash(Export(input)), target,
                                                                identity)),
                       identity, archive, now)
  {
    hide DeriveApprovalTarget, IsSha256, Consumable;
  }
}
