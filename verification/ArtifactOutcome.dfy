/** Why a storeBundle call ends as it does: every failure has its cause in the schedule,
    and a call that nothing disturbs answers what the disk it met calls for. */
module ArtifactOutcome {
  import opened Wrappers
  import opened ArtifactTree
  import opened ArtifactStore
  import opened ArtifactSafety
  import M = Mutex

  // -------------------------------------------------------------- the cause of a failure

  /** The target of a call is there with other bytes than the call's. */
  ghost predicate OtherBytesThere(d: Disk, job: Job) {
    var target := BundleAt(d, job.project, job.hash);
    target.Some? && (target.value in d.inodes ==> d.inodes[target.value] != job.bytes)
  }

  /** The project's tree has a shape that no call leaves behind, or no room for the bytes:
      255 directories, 100 bundles and 64 MiB are the limits. */
  ghost predicate NoRoom(d: Disk, job: Job) {
    var tree := TreeOf(d, job.project);
    || |tree| > 255 || (exists dir :: dir in tree && dir.temps != map[])
    || Bundles(tree) >= 100 || Sizes(tree, d.inodes) + |job.bytes| > 67_108_864
  }

  ghost predicate NameTaken(d: Disk, job: Job, temp: string) {
    DirAt(d, job.project, job.hash).Some? && temp in DirAt(d, job.project, job.hash).value.temps
  }

  /** The step at which a call fails: a failure from outside, or a look at the disk that
      finds what the call cannot put up with. */
  ghost predicate Causes(s: State, e: Event, i: nat) {
    && i < |s.jobs|
    && match e
       case Fail(j) => j == i
       case LookUp(j) => j == i && s.jobs[i].phase.Looking? && OtherBytesThere(s.disk, s.jobs[i])
       case Scan(j) => j == i && s.jobs[i].phase.Scanning? && NoRoom(s.disk, s.jobs[i])
       case OpenTemp(j, temp) => j == i && s.jobs[i].phase.Opening? && NameTaken(s.disk, s.jobs[i], temp)
       case _ => false
  }

  predicate Doomed(phase: Phase) {
    (phase.Cleaning? || phase.Closed?) && phase.outcome.Failed?
  }

  lemma FoundMeaning(d: Disk, job: Job, sha: Bytes -> string)
    requires sha(job.bytes) == job.hash && DiskFits(d)
    ensures Doomed(Found(d, job, sha)) <==> OtherBytesThere(d, job)
    ensures Found(d, job, sha) == Closed(Existing) <==> HoldsOwn(job, d)
    ensures Found(d, job, sha).Scanning? <==> BundleAt(d, job.project, job.hash).None?
    ensures BundleAt(d, job.project, job.hash).Some? ==> BundleAt(d, job.project, job.hash).value in d.inodes
  {
    if BundleAt(d, job.project, job.hash).Some? {
      BundleShared(d, job.project, job.hash);
      SharedExists(d, BundleAt(d, job.project, job.hash).value);
    }
    hide DirAt, Lookup;
  }

  lemma RoomMeaning(d: Disk, job: Job)
    ensures Doomed(Room(d, job)) <==> NoRoom(d, job)
    ensures Room(d, job).Opening? <==> !NoRoom(d, job)
  {
    hide Bundles, Sizes;
  }

  /** The steps that can end in a failure. */
  predicate MayFail(e: Event) {
    e.Fail? || e.LookUp? || e.Scan? || e.OpenTemp? || e.Link? || e.Verify?
  }

  lemma OtherStepsSpare(s: State, e: Event, sha: Bytes -> string, i: nat)
    requires Enabled(s, e, sha) && i < |s.jobs| && (!MayFail(e) || e.i != i)
    ensures i < |Next(s, e, sha).jobs| && (Doomed(Next(s, e, sha).jobs[i].phase) ==> Doomed(s.jobs[i].phase))
  {
    hide NewDirectory, NewTemp, Written, Linked, Unlinked, BundleAt, DirAt, Overwrite, Found, Room, Exact;
  }

  lemma LookDooms(s: State, i: nat, sha: Bytes -> string)
    requires Valid(s, sha) && Enabled(s, LookUp(i), sha)
    ensures Doomed(Next(s, LookUp(i), sha).jobs[i].phase) <==> Causes(s, LookUp(i), i)
  {
    FitsAt(s, i, sha);
    assert sha(s.jobs[i].bytes) == s.jobs[i].hash && DiskFits(s.disk);
    FoundMeaning(s.disk, s.jobs[i], sha);
    hide Found, BundleAt, Valid, OtherBytesThere, JobFits;
  }

  lemma ScanDooms(s: State, i: nat, sha: Bytes -> string)
    requires Enabled(s, Scan(i), sha)
    ensures Doomed(Next(s, Scan(i), sha).jobs[i].phase) <==> Causes(s, Scan(i), i)
  {
    RoomMeaning(s.disk, s.jobs[i]);
    hide Room, NoRoom;
  }

  lemma OpenDooms(s: State, i: nat, temp: string, sha: Bytes -> string)
    requires Enabled(s, OpenTemp(i, temp), sha)
    ensures Doomed(Next(s, OpenTemp(i, temp), sha).jobs[i].phase) <==> Causes(s, OpenTemp(i, temp), i)
  {
    hide DirAt, NewTemp;
  }

  lemma VerifySpares(s: State, i: nat, sha: Bytes -> string)
    requires Valid(s, sha) && Enabled(s, Verify(i), sha)
    ensures !Doomed(Next(s, Verify(i), sha).jobs[i].phase)
  {
    VerifyHolds(s, i, sha);
    hide Valid, BundleAt, Exact;
  }

  lemma LinkSpares(s: State, i: nat, sha: Bytes -> string)
    requires Valid(s, sha) && Enabled(s, Link(i), sha)
    ensures !Doomed(Next(s, Link(i), sha).jobs[i].phase)
  {
    LinkMeetsNoTarget(s, i, sha);
    hide Valid, BundleAt, Linked;
  }

  /** A step dooms a call only by one of the causes. */
  lemma NextDooms(s: State, e: Event, sha: Bytes -> string, i: nat)
    requires Valid(s, sha) && Enabled(s, e, sha) && i < |s.jobs|
    requires i < |Next(s, e, sha).jobs| && !Doomed(s.jobs[i].phase) && Doomed(Next(s, e, sha).jobs[i].phase)
    ensures Causes(s, e, i)
  {
    hide Valid, Enabled, Next, OtherBytesThere, NoRoom, NameTaken;
    if !MayFail(e) || e.i != i {
      OtherStepsSpare(s, e, sha, i);
    } else {
      match e
      case LookUp(_) => LookDooms(s, i, sha);
      case Scan(_) => ScanDooms(s, i, sha);
      case OpenTemp(_, temp) => OpenDooms(s, i, temp, sha);
      case Verify(_) => VerifySpares(s, i, sha);
      case Link(_) => LinkSpares(s, i, sha);
      case Fail(_) =>
    }
  }

  /** The read-back of a published call finds its own bytes. */
  lemma VerifyHolds(s: State, i: nat, sha: Bytes -> string)
    requires Valid(s, sha) && i < |s.jobs| && s.jobs[i].phase.Verifying?
    ensures var target := BundleAt(s.disk, s.jobs[i].project, s.jobs[i].hash);
            target.Some? && Exact(s.disk, target.value, s.jobs[i], sha)
  {
    FitsAt(s, i, sha);
    hide BundleAt, Valid;
  }

  /** In every schedule, a call that has failed has its cause there: a step that failed, or
      one that found other bytes at the target, no room, or a name that was taken. */
  lemma {:induction false} FailureHasCause(s: State, events: seq<Event>, sha: Bytes -> string, i: nat) returns (k: nat)
    requires Start(s) && i < |Run(s, events, sha).jobs| && Doomed(Run(s, events, sha).jobs[i].phase)
    ensures k < |events| && Enabled(Run(s, events[..k], sha), events[k], sha)
    ensures Causes(Run(s, events[..k], sha), events[k], i)
    decreases |events|
  {
    var n := |events| - 1;
    var before, t := events[..n], Run(s, events[..n], sha);
    RunKeeps(s, before, sha);
    if i < |t.jobs| && Doomed(t.jobs[i].phase) {
      k := FailureHasCause(s, before, sha, i);
      assert before[..k] == events[..k];
    } else {
      k := n;
      NewCallWaits(t, events[n], sha, i);
      hide Valid, Causes, Next, Enabled, Start;
      NextDooms(t, events[n], sha, i);
    }
  }

  lemma NewCallWaits(s: State, e: Event, sha: Bytes -> string, i: nat)
    requires Enabled(s, e, sha) && i < |Next(s, e, sha).jobs| && Doomed(Next(s, e, sha).jobs[i].phase)
    ensures i < |s.jobs|
  {
    hide Found, Room, BundleAt, Exact, NewDirectory, NewTemp, Written, Unlinked, Linked;
  }

  // ------------------------------------------------------------------ what a look decides

  predicate Looked(phase: Phase) {
    !phase.Queued? && !phase.Preparing? && !phase.Looking?
  }

  predicate SaysExisting(phase: Phase) {
    (phase.Cleaning? || phase.Closed?) && phase.outcome.Existing?
  }

  /** The look of a call at its target, in the state in which it was taken. */
  ghost predicate LooksAt(s: State, e: Event, i: nat) {
    i < |s.jobs| && s.jobs[i].phase.Looking? && e == LookUp(i)
  }

  /** What the look found is what the call answers, as far as it succeeds. */
  ghost predicate Follows(found: Disk, job: Job) {
    && (SaysExisting(job.phase) ==> HoldsOwn(job, found))
    && (!SaysExisting(job.phase) && !Doomed(job.phase) ==> BundleAt(found, job.project, job.hash).None?)
  }

  lemma LookFollows(s: State, e: Event, sha: Bytes -> string, i: nat)
    requires Valid(s, sha) && Enabled(s, e, sha) && LooksAt(s, e, i)
    ensures Follows(s.disk, Next(s, e, sha).jobs[i])
  {
    FitsAt(s, i, sha);
    FoundMeaning(s.disk, s.jobs[i], sha);
    hide BundleAt, DiskFits, Paired, JobsFit, JobsApart, OtherBytesThere;
  }

  lemma NextFollows(s: State, e: Event, sha: Bytes -> string, i: nat, found: Disk)
    requires Valid(s, sha) && Enabled(s, e, sha) && i < |s.jobs| && Looked(s.jobs[i].phase)
    requires Follows(found, s.jobs[i])
    ensures Follows(found, Next(s, e, sha).jobs[i]) && Looked(Next(s, e, sha).jobs[i].phase)
  {
    hide Found, Room, BundleAt, DiskFits, Paired, JobsFit, JobsApart, NewDirectory, NewTemp, Written, Unlinked, Linked;
    hide Exact;
    match e
    case Scan(j) => ScanDecides(s.disk, s.jobs[j]);
    case Link(j) => LinkMeetsNoTarget(s, j, sha);
    case _ =>
  }

  lemma ScanDecides(d: Disk, job: Job)
    ensures Room(d, job).Opening? || Room(d, job) == Closed(Failed)
  {
  }

  lemma StillToLook(s: State, e: Event, sha: Bytes -> string, i: nat)
    requires Enabled(s, e, sha) && i < |Next(s, e, sha).jobs| && Looked(Next(s, e, sha).jobs[i].phase)
    requires i < |s.jobs| ==> !Looked(s.jobs[i].phase)
    requires !Doomed(Next(s, e, sha).jobs[i].phase)
    ensures LooksAt(s, e, i)
  {
    hide Found, Room, BundleAt, NewDirectory, NewTemp, Written, Unlinked, Linked, Exact;
  }

  /** A call that succeeds answers existing exactly when its bytes were published when it
      looked, and otherwise nothing was. */
  lemma {:induction false} LookDecides(s: State, events: seq<Event>, sha: Bytes -> string, i: nat) returns (k: nat)
    requires Start(s) && i < |Run(s, events, sha).jobs|
    requires Looked(Run(s, events, sha).jobs[i].phase) && !Doomed(Run(s, events, sha).jobs[i].phase)
    ensures k < |events| && LooksAt(Run(s, events[..k], sha), events[k], i)
    ensures Follows(Run(s, events[..k], sha).disk, Run(s, events, sha).jobs[i])
    decreases |events|
  {
    var n := |events| - 1;
    var before, t := events[..n], Run(s, events[..n], sha);
    RunKeeps(s, before, sha);
    if i < |t.jobs| && Looked(t.jobs[i].phase) {
      if Enabled(t, events[n], sha) { StaysDoomed(t, events[n], sha, i); }
      hide Valid, Next, Enabled, Start, Follows, LooksAt;
      k := LookDecides(s, before, sha, i);
      assert before[..k] == events[..k];
      if Enabled(t, events[n], sha) {
        NextFollows(t, events[n], sha, i, Run(s, events[..k], sha).disk);
      }
    } else {
      k := n;
      hide Valid, Next, Enabled, Start, Follows, LooksAt;
      StillToLook(t, events[n], sha, i);
      LookFollows(t, events[n], sha, i);
    }
  }

  lemma StaysDoomed(s: State, e: Event, sha: Bytes -> string, i: nat)
    requires Enabled(s, e, sha) && i < |s.jobs|
    ensures Doomed(s.jobs[i].phase) ==> Doomed(Next(s, e, sha).jobs[i].phase)
  {
    hide Found, Room, BundleAt, NewDirectory, NewTemp, Written, Unlinked, Linked, Exact;
  }

  /** A call that nothing disturbs ends well: it answers existing where its bytes were
      published when it looked, and created where nothing was; either way they are at its
      target at the end. */
  lemma UndisturbedCall(s: State, events: seq<Event>, sha: Bytes -> string, i: nat) returns (look: nat)
    requires Start(s) && i < |Run(s, events, sha).jobs| && Run(s, events, sha).jobs[i].phase.Closed?
    requires forall k :: 0 <= k < |events| && Enabled(Run(s, events[..k], sha), events[k], sha) ==>
               !Causes(Run(s, events[..k], sha), events[k], i)
    ensures var job := Run(s, events, sha).jobs[i];
            && look < |events| && LooksAt(Run(s, events[..look], sha), events[look], i)
            && (job.phase.outcome == Existing <==> HoldsOwn(job, Run(s, events[..look], sha).disk))
            && (job.phase.outcome == Created <==>
                  BundleAt(Run(s, events[..look], sha).disk, job.project, job.hash).None?)
            && HoldsOwn(job, Run(s, events, sha).disk)
  {
    var job := Run(s, events, sha).jobs[i];
    if Doomed(job.phase) {
      var k := FailureHasCause(s, events, sha, i);
      assert false;
    }
    look := LookDecides(s, events, sha, i);
    RunKeeps(s, events, sha);
    FitsAt(Run(s, events, sha), i, sha);
    hide Run, BundleAt, Valid, Start;
  }

  // ------------------------------------------------------------- a call on its own

  /** A call with its bytes, somewhere on its way. */
  predicate Is(s: State, i: nat, project: string, hash: string, bytes: Bytes) {
    i < |s.jobs| && s.jobs[i].project == project && s.jobs[i].hash == hash && s.jobs[i].bytes == bytes
  }

  /** One more step of a schedule. */
  lemma Step(s: State, events: seq<Event>, e: Event, sha: Bytes -> string, t: State)
    requires Valid(t, sha) && t == Run(s, events, sha) && Enabled(t, e, sha)
    ensures Valid(Next(t, e, sha), sha) && Next(t, e, sha) == Run(s, events + [e], sha)
    ensures forall i :: 0 <= i < |t.jobs| ==>
              && i < |Next(t, e, sha).jobs| && SameTarget(Next(t, e, sha).jobs[i], t.jobs[i])
              && Next(t, e, sha).jobs[i].bytes == t.jobs[i].bytes
  {
    assert (events + [e])[..|events|] == events;
    NextKeeps(t, e, sha);
    hide Valid, Next, Enabled;
    forall i | 0 <= i < |t.jobs|
      ensures i < |Next(t, e, sha).jobs| && SameTarget(Next(t, e, sha).jobs[i], t.jobs[i])
      ensures Next(t, e, sha).jobs[i].bytes == t.jobs[i].bytes
    {
      NextKeepsCalls(t, e, sha, i);
    }
  }

  lemma CallStep(t: State, project: string, hash: string, bytes: Bytes, sha: Bytes -> string)
    requires Valid(t, sha) && project !in t.mutex.locks && |bytes| <= MAX_ARCHIVE_BYTES && sha(bytes) == hash
    ensures Enabled(t, Call(project, hash, bytes), sha)
    ensures var u := Next(t, Call(project, hash, bytes), sha);
            Is(u, |t.jobs|, project, hash, bytes) && u.disk == t.disk && Enabled(u, Enter(|t.jobs|), sha)
  {
    assert |t.mutex.calls| == |t.jobs|;
    hide Valid;
  }

  lemma EnterStep(t: State, i: nat, sha: Bytes -> string)
    requires Enabled(t, Enter(i), sha)
    ensures var u := Next(t, Enter(i), sha);
            i < |u.jobs| && u.jobs[i].phase.Preparing? && u.disk == t.disk && Enabled(u, MakeDirectory(i), sha)
  {
  }

  lemma DirectoryStep(t: State, i: nat, sha: Bytes -> string)
    requires i < |t.jobs| && t.jobs[i].phase.Preparing?
    ensures var u := Next(t, MakeDirectory(i), sha);
            && i < |u.jobs| && u.jobs[i].phase.Looking?
            && u.disk == NewDirectory(t.disk, t.jobs[i].project, t.jobs[i].hash)
  {
    hide NewDirectory;
  }

  lemma LookStep(t: State, i: nat, sha: Bytes -> string)
    requires i < |t.jobs| && t.jobs[i].phase.Looking?
    ensures Enabled(t, LookUp(i), sha)
    ensures var u := Next(t, LookUp(i), sha);
            i < |u.jobs| && u.jobs[i].phase == Found(t.disk, u.jobs[i], sha) && u.disk == t.disk
  {
    hide BundleAt;
  }

  lemma ScanStep(t: State, i: nat, sha: Bytes -> string)
    requires i < |t.jobs| && t.jobs[i].phase.Scanning?
    ensures Enabled(t, Scan(i), sha)
    ensures var u := Next(t, Scan(i), sha);
            && i < |u.jobs| && u.disk == t.disk
            && u.jobs[i].phase == if NoRoom(t.disk, u.jobs[i]) then Closed(Failed) else Opening
  {
    RoomMeaning(t.disk, t.jobs[i]);
    ScanDecides(t.disk, t.jobs[i]);
    hide Bundles, Sizes;
  }

  /** Where the scan passed, no temporary name is taken. */
  lemma OpenStep(t: State, i: nat, temp: string, sha: Bytes -> string)
    requires Valid(t, sha) && i < |t.jobs| && t.jobs[i].phase.Opening? && !NoRoom(t.disk, t.jobs[i])
    ensures Enabled(t, OpenTemp(i, temp), sha)
    ensures var u := Next(t, OpenTemp(i, temp), sha);
            i < |u.jobs| && u.jobs[i].phase == Writing(t.disk.nextIno, temp, 0)
  {
    FitsAt(t, i, sha);
    var job := t.jobs[i];
    LookupIn(TreeOf(t.disk, job.project), job.hash);
    assert temp !in DirAt(t.disk, job.project, job.hash).value.temps;
    hide Valid, NewTemp, NoRoom, JobFits, Lookup;
  }

  lemma WriteStep(t: State, i: nat, sha: Bytes -> string)
    requires Valid(t, sha) && i < |t.jobs| && t.jobs[i].phase.Writing? && t.jobs[i].phase.offset == 0
    requires t.jobs[i].bytes != []
    ensures Enabled(t, Write(i, |t.jobs[i].bytes|), sha)
    ensures var u := Next(t, Write(i, |t.jobs[i].bytes|), sha);
            i < |u.jobs| && u.jobs[i].phase == t.jobs[i].phase.(offset := |t.jobs[i].bytes|)
  {
    FitsAt(t, i, sha);
    hide Valid, Written, HasRoom, Honest, Private;
  }

  lemma SyncStep(t: State, i: nat, sha: Bytes -> string)
    requires Valid(t, sha) && i < |t.jobs| && t.jobs[i].phase.Writing?
    requires t.jobs[i].phase.offset == |t.jobs[i].bytes|
    ensures Enabled(t, Sync(i), sha)
    ensures var u := Next(t, Sync(i), sha);
            i < |u.jobs| && u.jobs[i].phase == Linking(t.jobs[i].phase.ino, t.jobs[i].phase.temp)
  {
    hide Valid;
  }

  lemma LinkStep(t: State, i: nat, sha: Bytes -> string)
    requires Valid(t, sha) && i < |t.jobs| && t.jobs[i].phase.Linking?
    ensures Enabled(t, Link(i), sha)
    ensures var u := Next(t, Link(i), sha);
            i < |u.jobs| && u.jobs[i].phase == Verifying(t.jobs[i].phase.ino, t.jobs[i].phase.temp)
  {
    FitsAt(t, i, sha);
    LinkMeetsNoTarget(t, i, sha);
    hide Valid, Linked, BundleAt, HasRoom, Honest, OwnFile;
  }

  lemma VerifyStep(t: State, i: nat, sha: Bytes -> string)
    requires Valid(t, sha) && i < |t.jobs| && t.jobs[i].phase.Verifying?
    ensures Enabled(t, Verify(i), sha)
    ensures var u := Next(t, Verify(i), sha);
            i < |u.jobs| && u.jobs[i].phase == Cleaning(t.jobs[i].phase.ino, t.jobs[i].phase.temp, Created)
  {
    VerifyHolds(t, i, sha);
    hide Valid, BundleAt, Exact;
  }

  lemma UnlinkStep(t: State, i: nat, sha: Bytes -> string)
    requires Valid(t, sha) && i < |t.jobs| && t.jobs[i].phase.Cleaning?
    ensures Enabled(t, Unlink(i, true), sha)
    ensures var u := Next(t, Unlink(i, true), sha);
            i < |u.jobs| && u.jobs[i].phase == Closed(t.jobs[i].phase.outcome)
  {
    FitsAt(t, i, sha);
    hide Valid, Unlinked, HasRoom, Honest, OwnFile;
  }

  /** From the open temporary file to the answer. */
  lemma PublishesAlone(s: State, before: seq<Event>, t: State, i: nat, sha: Bytes -> string)
    returns (events: seq<Event>)
    requires Valid(t, sha) && t == Run(s, before, sha) && i < |t.jobs|
    requires t.jobs[i].phase.Writing? && t.jobs[i].phase.offset == 0
    ensures var u := Run(s, events, sha);
            && Valid(u, sha) && i < |u.jobs| && u.jobs[i].phase == Closed(Created)
            && Is(u, i, t.jobs[i].project, t.jobs[i].hash, t.jobs[i].bytes)
    ensures OwnSteps(before, i) ==> OwnSteps(events, i)
  {
    hide Valid, Next, Enabled, Run;
    events := before;
    var u := t;
    if t.jobs[i].bytes != [] {
      WriteStep(u, i, sha);
      Step(s, events, Write(i, |t.jobs[i].bytes|), sha, u);
      events, u := events + [Write(i, |t.jobs[i].bytes|)], Next(u, Write(i, |t.jobs[i].bytes|), sha);
    }
    SyncStep(u, i, sha);
    Step(s, events, Sync(i), sha, u);
    events, u := events + [Sync(i)], Next(u, Sync(i), sha);
    LinkStep(u, i, sha);
    Step(s, events, Link(i), sha, u);
    events, u := events + [Link(i)], Next(u, Link(i), sha);
    VerifyStep(u, i, sha);
    Step(s, events, Verify(i), sha, u);
    events, u := events + [Verify(i)], Next(u, Verify(i), sha);
    UnlinkStep(u, i, sha);
    Step(s, events, Unlink(i, true), sha, u);
    events, u := events + [Unlink(i, true)], Next(u, Unlink(i, true), sha);
  }

  /** The call itself and steps of its own, none of them a failure. */
  ghost predicate OwnSteps(events: seq<Event>, i: nat) {
    forall e :: e in events ==> !e.Fail? && (e.Call? || e.i == i)
  }

  /** What the answer must be for a disk that nobody else touches: existing where the
      target holds these bytes, created where there is none and room for it, else failed. */
  ghost predicate Answers(found: Disk, job: Job, outcome: Outcome) {
    match outcome
    case Existing => HoldsOwn(job, found)
    case Created => BundleAt(found, job.project, job.hash).None? && !NoRoom(found, job)
    case Failed => OtherBytesThere(found, job)
                   || (BundleAt(found, job.project, job.hash).None? && NoRoom(found, job))
  }

  /** From the quota check to the answer. */
  lemma ScansAlone(s: State, before: seq<Event>, t: State, i: nat, temp: string, sha: Bytes -> string)
    returns (events: seq<Event>)
    requires Valid(t, sha) && t == Run(s, before, sha) && i < |t.jobs| && t.jobs[i].phase.Scanning?
    ensures var u := Run(s, events, sha);
            && Valid(u, sha) && Is(u, i, t.jobs[i].project, t.jobs[i].hash, t.jobs[i].bytes)
            && u.jobs[i].phase == Closed(if NoRoom(t.disk, t.jobs[i]) then Failed else Created)
    ensures OwnSteps(before, i) ==> OwnSteps(events, i)
  {
    hide Valid, Next, Enabled, Run, NoRoom;
    ScanStep(t, i, sha);
    Step(s, before, Scan(i), sha, t);
    var u := Next(t, Scan(i), sha);
    events := before + [Scan(i)];
    SameRoom(t.disk, t.jobs[i], u.jobs[i]);
    if !NoRoom(t.disk, t.jobs[i]) {
      OpenStep(u, i, temp, sha);
      Step(s, events, OpenTemp(i, temp), sha, u);
      events := PublishesAlone(s, events + [OpenTemp(i, temp)], Next(u, OpenTemp(i, temp), sha), i, sha);
    }
  }

  /** From the look at the target to the answer. */
  lemma FinishesAlone(s: State, before: seq<Event>, t: State, i: nat, temp: string, sha: Bytes -> string)
    returns (events: seq<Event>)
    requires Valid(t, sha) && t == Run(s, before, sha) && i < |t.jobs| && OwnSteps(before, i)
    requires t.jobs[i].phase == Found(t.disk, t.jobs[i], sha)
    ensures var u := Run(s, events, sha);
            && Valid(u, sha) && Is(u, i, t.jobs[i].project, t.jobs[i].hash, t.jobs[i].bytes) && u.jobs[i].phase.Closed?
            && Answers(t.disk, t.jobs[i], u.jobs[i].phase.outcome) && OwnSteps(events, i)
  {
    FitsAt(t, i, sha);
    assert sha(t.jobs[i].bytes) == t.jobs[i].hash && DiskFits(t.disk);
    FoundMeaning(t.disk, t.jobs[i], sha);
    FoundCases(t.disk, t.jobs[i], sha);
    hide Valid, Run, NoRoom, HoldsOwn, OtherBytesThere, Found, BundleAt, JobFits, DiskFits, OwnSteps;
    events := before;
    if t.jobs[i].phase.Scanning? {
      events := ScansAlone(s, before, t, i, temp, sha);
    }
  }

  lemma FoundCases(d: Disk, job: Job, sha: Bytes -> string)
    ensures Found(d, job, sha) in {Scanning, Closed(Existing), Closed(Failed)}
  {
  }

  lemma SameRoom(d: Disk, a: Job, b: Job)
    requires a.project == b.project && a.bytes == b.bytes
    ensures NoRoom(d, a) <==> NoRoom(d, b)
  {
  }

  /** From the call to its directory. */
  lemma EntersAlone(t: State, project: string, hash: string, bytes: Bytes, sha: Bytes -> string)
    returns (events: seq<Event>, u: State)
    requires Valid(t, sha) && project !in t.mutex.locks && |bytes| <= MAX_ARCHIVE_BYTES && sha(bytes) == hash
    ensures Valid(u, sha) && u == Run(t, events, sha) && Is(u, |t.jobs|, project, hash, bytes)
    ensures OwnSteps(events, |t.jobs|) && u.disk == t.disk
    ensures u.jobs[|t.jobs|].phase.Preparing? && Enabled(u, MakeDirectory(|t.jobs|), sha)
  {
    var i := |t.jobs|;
    CallStep(t, project, hash, bytes, sha);
    NoSteps(t, sha);
    hide Valid, Next, Enabled, Run;
    Step(t, [], Call(project, hash, bytes), sha, t);
    u := Next(t, Call(project, hash, bytes), sha);
    events := [] + [Call(project, hash, bytes)];
    EnterStep(u, i, sha);
    Step(t, events, Enter(i), sha, u);
    events, u := events + [Enter(i)], Next(u, Enter(i), sha);
  }

  lemma OneMoreOwn(events: seq<Event>, e: Event, i: nat)
    requires OwnSteps(events, i) && !e.Fail? && (e.Call? || e.i == i)
    ensures OwnSteps(events + [e], i)
  {
  }

  /** And on to the look at the target. */
  lemma LooksAlone(t: State, project: string, hash: string, bytes: Bytes, sha: Bytes -> string)
    returns (events: seq<Event>, u: State)
    requires Valid(t, sha) && project !in t.mutex.locks && |bytes| <= MAX_ARCHIVE_BYTES && sha(bytes) == hash
    ensures Valid(u, sha) && u == Run(t, events, sha) && Is(u, |t.jobs|, project, hash, bytes)
    ensures OwnSteps(events, |t.jobs|)
    ensures u.disk == NewDirectory(t.disk, project, hash)
    ensures u.jobs[|t.jobs|].phase == Found(u.disk, u.jobs[|t.jobs|], sha)
  {
    var i := |t.jobs|;
    events, u := EntersAlone(t, project, hash, bytes, sha);
    hide Valid, Next, Enabled, Run, Found, NewDirectory, OwnSteps;
    DirectoryStep(u, i, sha);
    Step(t, events, MakeDirectory(i), sha, u);
    OneMoreOwn(events, MakeDirectory(i), i);
    events, u := events + [MakeDirectory(i)], Next(u, MakeDirectory(i), sha);
    LookStep(u, i, sha);
    Step(t, events, LookUp(i), sha, u);
    OneMoreOwn(events, LookUp(i), i);
    events, u := events + [LookUp(i)], Next(u, LookUp(i), sha);
  }

  /** A call made when nobody of its project is left can run to its end by its own steps;
      it then has the answer that the disk calls for. */
  lemma StoreAlone(s: State, before: seq<Event>, t: State, project: string, hash: string, bytes: Bytes, temp: string,
                   sha: Bytes -> string)
    returns (more: seq<Event>)
    requires Start(s) && t == Run(s, before, sha) && project !in t.mutex.locks
    requires |bytes| <= 5_242_880 && sha(bytes) == hash
    ensures var i, u := |t.jobs|, Run(t, more, sha);
            && OwnSteps(more, i) && Is(u, i, project, hash, bytes) && u.jobs[i].phase.Closed?
            && Answers(NewDirectory(t.disk, project, hash), u.jobs[i], u.jobs[i].phase.outcome)
            && (!u.jobs[i].phase.outcome.Failed? ==> HoldsOwn(u.jobs[i], u.disk))
  {
    RunKeeps(s, before, sha);
    var u;
    more, u := LooksAlone(t, project, hash, bytes, sha);
    hide Valid, Next, Enabled, Run, Answers, Found, NewDirectory, HoldsOwn, OwnSteps;
    more := FinishesAlone(t, more, u, |t.jobs|, temp, sha);
    SameAnswers(u.disk, u.jobs[|t.jobs|], Run(t, more, sha).jobs[|t.jobs|]);
    ClosedHolds(Run(t, more, sha), |t.jobs|, sha);
  }

  lemma SameAnswers(found: Disk, a: Job, b: Job)
    requires SameTarget(a, b) && a.bytes == b.bytes
    ensures forall outcome :: Answers(found, a, outcome) <==> Answers(found, b, outcome)
  {
    hide BundleAt;
  }

  lemma ClosedHolds(t: State, i: nat, sha: Bytes -> string)
    requires Valid(t, sha) && i < |t.jobs| && t.jobs[i].phase.Closed?
    ensures !t.jobs[i].phase.outcome.Failed? ==> HoldsOwn(t.jobs[i], t.disk)
  {
    FitsAt(t, i, sha);
    hide HoldsOwn;
  }

  lemma NoSteps(t: State, sha: Bytes -> string)
    ensures Run(t, [], sha) == t
  {
  }
}
