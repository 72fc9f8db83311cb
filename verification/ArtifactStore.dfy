/** Concurrent storeBundle calls of one process, as steps between their awaits. Any
    step may be the last one before a failure or a cancellation. */
module ArtifactStore {
  import opened Wrappers
  import opened ArtifactTree
  import M = Mutex

  datatype Outcome = Created | Existing | Failed

  /** Where a call stands. From Writing on it owns a temporary file. */
  datatype Phase =
    | Queued
    | Preparing
    | Looking
    | Scanning
    | Opening
    | Writing(ino: nat, temp: string, offset: nat)
    | Linking(ino: nat, temp: string)
    | Verifying(ino: nat, temp: string)
    | Cleaning(ino: nat, temp: string, outcome: Outcome)
    | Closed(outcome: Outcome)

  /** A call; committed records that its link was the one that published. */
  datatype Job = Job(project: string, hash: string, bytes: Bytes, phase: Phase, committed: bool)

  datatype Disk = Disk(trees: map<string, Tree>, inodes: Inodes, nextIno: nat)

  datatype State = State(mutex: M.State<string>, jobs: seq<Job>, disk: Disk)

  datatype Event =
    | Call(project: string, hash: string, bytes: Bytes)
    | Enter(i: nat)
    | MakeDirectory(i: nat)
    | LookUp(i: nat)
    | Scan(i: nat)
    | OpenTemp(i: nat, temp: string)
    | Write(i: nat, count: nat)
    | Sync(i: nat)
    | Link(i: nat)
    | Verify(i: nat)
    | Fail(i: nat)
    | Unlink(i: nat, removed: bool)
    | Exit(i: nat)
    | Settle(i: nat)

  function TreeOf(d: Disk, project: string): Tree {
    if project in d.trees then d.trees[project] else []
  }

  function DirAt(d: Disk, project: string, hash: string): Option<HashDir> {
    Lookup(TreeOf(d, project), hash)
  }

  /** The published file of a hash, if there is one. */
  function BundleAt(d: Disk, project: string, hash: string): Option<nat> {
    BundleIn(DirAt(d, project, hash))
  }

  function PutDir(d: Disk, project: string, dir: HashDir): Disk {
    d.(trees := d.trees[project := Put(TreeOf(d, project), dir)])
  }

  /** Writing at an offset replaces what is there and may extend the file. */
  function Overwrite(content: Bytes, offset: nat, chunk: Bytes): Bytes
    requires offset <= |content|
  {
    content[..offset] + chunk + if offset + |chunk| <= |content| then content[offset + |chunk|..] else []
  }

  // ----------------------------------------------------------------- disk effects

  function NewDirectory(d: Disk, project: string, hash: string): Disk {
    if DirAt(d, project, hash).Some? then d else PutDir(d, project, HashDir(hash, None, map[]))
  }

  function NewTemp(d: Disk, project: string, hash: string, temp: string): Disk
    requires DirAt(d, project, hash).Some?
  {
    var dir := DirAt(d, project, hash).value;
    Disk(d.trees[project := Put(TreeOf(d, project), dir.(temps := dir.temps[temp := d.nextIno]))],
         d.inodes[d.nextIno := []], d.nextIno + 1)
  }

  function Written(d: Disk, ino: nat, offset: nat, chunk: Bytes): Disk
    requires ino in d.inodes && offset <= |d.inodes[ino]|
  {
    d.(inodes := d.inodes[ino := Overwrite(d.inodes[ino], offset, chunk)])
  }

  /** The hard link that publishes: the bundle is the inode of the temporary file. */
  function Linked(d: Disk, project: string, hash: string, ino: nat): Disk
    requires DirAt(d, project, hash).Some?
  {
    PutDir(d, project, DirAt(d, project, hash).value.(bundle := Some(ino)))
  }

  function Unlinked(d: Disk, project: string, hash: string, temp: string): Disk
    requires DirAt(d, project, hash).Some?
  {
    var dir := DirAt(d, project, hash).value;
    PutDir(d, project, dir.(temps := dir.temps - {temp}))
  }

  /** What reading the target back and comparing it with the request answers. */
  predicate Exact(d: Disk, ino: nat, job: Job, sha: Bytes -> string) {
    ino in d.inodes && d.inodes[ino] == job.bytes && sha(d.inodes[ino]) == job.hash
  }

  // ----------------------------------------------------------------------- steps

  function At(s: State, i: nat): Phase {
    if i < |s.jobs| then s.jobs[i].phase else Queued
  }

  predicate HasDir(s: State, i: nat)
    requires i < |s.jobs|
  {
    DirAt(s.disk, s.jobs[i].project, s.jobs[i].hash).Some?
  }

  predicate Enabled(s: State, e: Event, sha: Bytes -> string) {
    match e
    case Call(_, hash, bytes) => |bytes| <= MAX_ARCHIVE_BYTES && sha(bytes) == hash
    case Enter(i) => At(s, i).Queued? && M.Enabled(s.mutex, M.Enter(i)) && i < |s.jobs|
    case MakeDirectory(i) => At(s, i).Preparing?
    case LookUp(i) => At(s, i).Looking?
    case Scan(i) => At(s, i).Scanning?
    case OpenTemp(i, _) => At(s, i).Opening? && HasDir(s, i)
    case Write(i, count) =>
      && At(s, i).Writing? && 0 < count <= |s.jobs[i].bytes| - At(s, i).offset
      && At(s, i).ino in s.disk.inodes && At(s, i).offset <= |s.disk.inodes[At(s, i).ino]|
    case Sync(i) => At(s, i).Writing? && At(s, i).offset == |s.jobs[i].bytes|
    case Link(i) => At(s, i).Linking? && HasDir(s, i)
    case Verify(i) => At(s, i).Verifying?
    case Fail(i) => !At(s, i).Queued? && !At(s, i).Cleaning? && !At(s, i).Closed?
    case Unlink(i, _) => At(s, i).Cleaning? && HasDir(s, i)
    case Exit(i) => At(s, i).Closed? && M.Enabled(s.mutex, M.Exit(i))
    case Settle(i) => M.Enabled(s.mutex, M.Settle(i))
  }

  function Move(s: State, i: nat, phase: Phase): State
    requires i < |s.jobs|
  {
    s.(jobs := s.jobs[i := s.jobs[i].(phase := phase)])
  }

  function Change(s: State, i: nat, phase: Phase, d: Disk): State
    requires i < |s.jobs|
  {
    Move(s, i, phase).(disk := d)
  }

  function Next(s: State, e: Event, sha: Bytes -> string): State
    requires Enabled(s, e, sha)
  {
    match e
    case Call(project, hash, bytes) =>
      State(M.Next(s.mutex, M.Arrive(project)), s.jobs + [Job(project, hash, bytes, Queued, false)], s.disk)
    case Enter(i) => Move(s, i, Preparing).(mutex := M.Next(s.mutex, M.Enter(i)))
    case MakeDirectory(i) => Change(s, i, Looking, NewDirectory(s.disk, s.jobs[i].project, s.jobs[i].hash))
    case LookUp(i) => Move(s, i, Found(s.disk, s.jobs[i], sha))
    case Scan(i) => Move(s, i, Room(s.disk, s.jobs[i]))
    case OpenTemp(i, temp) =>
      var job := s.jobs[i];
      if temp in DirAt(s.disk, job.project, job.hash).value.temps then Move(s, i, Closed(Failed))
      else Change(s, i, Writing(s.disk.nextIno, temp, 0), NewTemp(s.disk, job.project, job.hash, temp))
    case Write(i, count) =>
      var job, at := s.jobs[i], s.jobs[i].phase;
      Change(s, i, at.(offset := at.offset + count),
             Written(s.disk, at.ino, at.offset, job.bytes[at.offset..at.offset + count]))
    case Sync(i) => Move(s, i, Linking(At(s, i).ino, At(s, i).temp))
    case Link(i) => Publish(s, i, sha)
    case Verify(i) =>
      var job, at := s.jobs[i], s.jobs[i].phase;
      var target := BundleAt(s.disk, job.project, job.hash);
      var held := target.Some? && Exact(s.disk, target.value, job, sha);
      Move(s, i, Cleaning(at.ino, at.temp, if held then Created else Failed))
    case Fail(i) =>
      var at := s.jobs[i].phase;
      Move(s, i, if at.Writing? || at.Linking? || at.Verifying?
                 then Cleaning(at.ino, at.temp, Failed) else Closed(Failed))
    case Unlink(i, removed) =>
      var job, at := s.jobs[i], s.jobs[i].phase;
      Change(s, i, Closed(at.outcome), if removed then Unlinked(s.disk, job.project, job.hash, at.temp) else s.disk)
    case Exit(i) => s.(mutex := M.Next(s.mutex, M.Exit(i)))
    case Settle(i) => s.(mutex := M.Next(s.mutex, M.Settle(i)))
  }

  /** The look at the target before anything is written. */
  function Found(d: Disk, job: Job, sha: Bytes -> string): Phase {
    var target := BundleAt(d, job.project, job.hash);
    if target.None? then Scanning
    else if Exact(d, target.value, job, sha) then Closed(Existing)
    else Closed(Failed)
  }

  /** The quota check. */
  function Room(d: Disk, job: Job): Phase {
    var tree := TreeOf(d, job.project);
    if Scannable(tree) && WithinQuota(tree, d.inodes)
       && Bundles(tree) < MAX_BUNDLE_FILES && Sizes(tree, d.inodes) + |job.bytes| <= MAX_PROJECT_BYTES
    then Opening else Closed(Failed)
  }

  /** The create-only link: an existing target is compared, never replaced. */
  function Publish(s: State, i: nat, sha: Bytes -> string): State
    requires i < |s.jobs| && s.jobs[i].phase.Linking? && HasDir(s, i)
  {
    var job, at := s.jobs[i], s.jobs[i].phase;
    var target := BundleAt(s.disk, job.project, job.hash);
    if target.Some? then
      Move(s, i, Cleaning(at.ino, at.temp, if Exact(s.disk, target.value, job, sha) then Existing else Failed))
    else
      State(s.mutex, s.jobs[i := job.(phase := Verifying(at.ino, at.temp), committed := true)],
            Linked(s.disk, job.project, job.hash, at.ino))
  }

  /** A schedule of events; those that cannot happen are skipped. */
  function Run(s: State, events: seq<Event>, sha: Bytes -> string): State
    decreases |events|
  {
    if events == [] then s
    else
      var t := Run(s, events[..|events| - 1], sha);
      if Enabled(t, events[|events| - 1], sha) then Next(t, events[|events| - 1], sha) else t
  }
}
