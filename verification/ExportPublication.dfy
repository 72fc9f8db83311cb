/** The approval protocol and the artifact store together: storage is called for what
    an export execution let through, at any time after it and among any other steps. */
module ExportPublication {
  import opened Wrappers
  import A = Approvals
  import ApprovalSafety
  import S = ArtifactStore
  import ArtifactSafety

  datatype State = State(world: A.World, store: S.State)

  /** Starts is the storeBundle call of one execution; the other storage steps are
      those of calls that have started. */
  datatype Event = Protocol(act: A.Event) | Starts(k: nat) | Storage(step: S.Event)

  function CallOf(stored: A.Stored): S.Event {
    S.Call(stored.input.projectId, stored.hash, stored.bytes)
  }

  predicate Enabled(s: State, env: A.Env, e: Event) {
    match e
    case Protocol(_) => true
    case Starts(k) => k < |s.world.stored| && S.Enabled(s.store, CallOf(s.world.stored[k]), env.sha)
    case Storage(step) => !step.Call? && S.Enabled(s.store, step, env.sha)
  }

  function Next(s: State, env: A.Env, e: Event): State
    requires Enabled(s, env, e)
  {
    match e
    case Protocol(act) => s.(world := A.Next(s.world, env, act))
    case Starts(k) => s.(store := S.Next(s.store, CallOf(s.world.stored[k]), env.sha))
    case Storage(step) => s.(store := S.Next(s.store, step, env.sha))
  }

  /** A schedule; steps that cannot happen are skipped. */
  function Run(store: S.State, env: A.Env, events: seq<Event>): State
    decreases |events|
  {
    if events == [] then State(A.Fresh(), store)
    else
      var s := Run(store, env, events[..|events| - 1]);
      if Enabled(s, env, events[|events| - 1]) then Next(s, env, events[|events| - 1]) else s
  }

  // ------------------------------------------------------- each part runs by itself

  lemma {:induction false} WorldRuns(store: S.State, env: A.Env, events: seq<Event>) returns (steps: seq<A.Event>)
    ensures Run(store, env, events).world == A.Run(A.Fresh(), env, steps)
    decreases |events|
  {
    steps := [];
    if events != [] {
      var last := events[|events| - 1];
      steps := WorldRuns(store, env, events[..|events| - 1]);
      hide A.Next, S.Next, S.Enabled;
      if last.Protocol? {
        assert (steps + [last.act])[..|steps|] == steps;
        steps := steps + [last.act];
      }
    }
  }

  lemma {:induction false} StoreRuns(store: S.State, env: A.Env, events: seq<Event>) returns (steps: seq<S.Event>)
    ensures Run(store, env, events).store == S.Run(store, steps, env.sha)
    decreases |events|
  {
    steps := [];
    if events != [] {
      var before, last := Run(store, env, events[..|events| - 1]), events[|events| - 1];
      steps := StoreRuns(store, env, events[..|events| - 1]);
      hide A.Next, S.Next, S.Enabled;
      if Enabled(before, env, last) && !last.Protocol? {
        var step := if last.Starts? then CallOf(before.world.stored[last.k]) else last.step;
        assert (steps + [step])[..|steps|] == steps;
        steps := steps + [step];
      }
    }
  }

  // ------------------------------------------------------------- calls are exports

  /** The call was made for this stored entry. */
  predicate MadeFor(job: S.Job, stored: A.Stored) {
    job.project == stored.input.projectId && job.hash == stored.hash && job.bytes == stored.bytes
  }

  ghost predicate CallsAreExports(s: State) {
    forall i :: 0 <= i < |s.store.jobs| ==> IsExport(s.world.stored, s.store.jobs[i])
  }

  ghost predicate IsExport(stored: seq<A.Stored>, job: S.Job) {
    exists k :: 0 <= k < |stored| && MadeFor(job, stored[k])
  }

  lemma StaysExport(stored: seq<A.Stored>, stored': seq<A.Stored>, job: S.Job, job': S.Job)
    requires IsExport(stored, job) && stored <= stored'
    requires job'.project == job.project && job'.hash == job.hash && job'.bytes == job.bytes
    ensures IsExport(stored', job')
  {
    var k :| 0 <= k < |stored| && MadeFor(job, stored[k]);
    assert MadeFor(job', stored'[k]);
  }

  lemma NextKeepsExports(s: State, env: A.Env, e: Event)
    requires CallsAreExports(s) && Enabled(s, env, e)
    ensures CallsAreExports(Next(s, env, e))
  {
    var t := Next(s, env, e);
    hide IsExport, A.Next;
    if e.Protocol? {
      ApprovalSafety.NextGrows(s.world, env, e.act);
      forall i | 0 <= i < |t.store.jobs| ensures IsExport(t.world.stored, t.store.jobs[i]) {
        StaysExport(s.world.stored, t.world.stored, s.store.jobs[i], t.store.jobs[i]);
      }
    } else {
      var step := if e.Starts? then CallOf(s.world.stored[e.k]) else e.step;
      forall i | 0 <= i < |t.store.jobs| ensures IsExport(t.world.stored, t.store.jobs[i]) {
        if i < |s.store.jobs| {
          ArtifactSafety.NextKeepsCalls(s.store, step, env.sha, i);
          StaysExport(s.world.stored, t.world.stored, s.store.jobs[i], t.store.jobs[i]);
        } else {
          NewCallIsExport(s, env, e);
        }
      }
    }
  }

  lemma NewCallIsExport(s: State, env: A.Env, e: Event)
    requires Enabled(s, env, e) && !e.Protocol? && |Next(s, env, e).store.jobs| > |s.store.jobs|
    ensures |Next(s, env, e).store.jobs| == |s.store.jobs| + 1
    ensures IsExport(s.world.stored, Next(s, env, e).store.jobs[|s.store.jobs|])
  {
    if e.Starts? {
      assert MadeFor(Next(s, env, e).store.jobs[|s.store.jobs|], s.world.stored[e.k]);
    }
  }

  lemma {:induction false} RunKeepsExports(store: S.State, env: A.Env, events: seq<Event>)
    requires store.jobs == []
    ensures CallsAreExports(Run(store, env, events))
    decreases |events|
  {
    hide Next, Enabled, CallsAreExports;
    if events == [] {
      assert CallsAreExports(State(A.Fresh(), store)) by { NoCalls(store); }
    } else {
      var before := Run(store, env, events[..|events| - 1]);
      RunKeepsExports(store, env, events[..|events| - 1]);
      if Enabled(before, env, events[|events| - 1]) {
        NextKeepsExports(before, env, events[|events| - 1]);
      }
    }
  }

  lemma NoCalls(store: S.State)
    requires store.jobs == []
    ensures CallsAreExports(State(A.Fresh(), store))
  {
  }

  // -------------------------------------------------------------------- the theorem

  /** Every bundle published during a run lies where a person said: its project and
      hash are those that an approved and consumed request spells in its target, its
      bytes have that hash, and no other execution went through on that request. */
  lemma PublishedUnderApproval(store: S.State, env: A.Env, events: seq<Event>, project: string, hash: string)
    returns (k: nat)
    requires ArtifactSafety.Start(store) && S.BundleAt(store.disk, project, hash).None?
    requires S.BundleAt(Run(store, env, events).store.disk, project, hash).Some?
    ensures var t := Run(store, env, events);
            var w, d, ino := t.world, t.store.disk, S.BundleAt(t.store.disk, project, hash).value;
            && k < |w.stored| && ino in d.inodes && d.inodes[ino] == w.stored[k].bytes && env.sha(d.inodes[ino]) == hash
            && ApprovalSafety.Covered(w, env, w.stored[k])
            && var id := ApprovalSafety.ApprovalOf(w, w.stored[k]);
            && w.records[id].decision == Some(A.Approved) && w.records[id].consumedAt.Some?
            && w.records[id].target == A.ExportTarget(project, hash)
            && forall j :: 0 <= j < |w.stored| && j != k ==>
                 ApprovalSafety.Covered(w, env, w.stored[j]) && ApprovalSafety.ApprovalOf(w, w.stored[j]) != id
  {
    var t := Run(store, env, events);
    var protocol := WorldRuns(store, env, events);
    var storage := StoreRuns(store, env, events);
    RunKeepsExports(store, env, events);
    hide Run;
    var i := ArtifactSafety.PublishedByACall(store, storage, env.sha, project, hash);
    assert IsExport(t.world.stored, t.store.jobs[i]);
    k :| 0 <= k < |t.world.stored| && MadeFor(t.store.jobs[i], t.world.stored[k]);
    hide A.Run, S.Run, S.BundleAt, A.ExportTarget;
    ApprovalSafety.OneExecutionPerApproval(env, protocol, k);
  }
}
