/** What holds in every schedule of concurrent storeBundle calls. */
module ArtifactSafety {
  import opened Wrappers
  import opened ArtifactTree
  import opened ArtifactStore
  import M = Mutex

  // ------------------------------------------------------------------ invariants

  /** Published files exist; inode numbers are not reused. What a disk already holds
      may be incomplete, misnamed or too much. */
  ghost predicate DiskFits(d: Disk) {
    && (forall ino :: ino in d.inodes ==> ino < d.nextIno)
    && forall p, dir :: p in d.trees && dir in d.trees[p] && dir.bundle.Some? ==> dir.bundle.value in d.inodes
  }

  /** No published file is this inode. */
  ghost predicate Private(d: Disk, ino: nat) {
    forall p, dir :: p in d.trees && dir in d.trees[p] ==> dir.bundle != Some(ino)
  }

  /** The temporary file holds what was written so far, and nothing else links to it. */
  ghost predicate OwnFile(job: Job, d: Disk) {
    match job.phase
    case Writing(ino, _, offset) =>
      offset <= |job.bytes| && ino in d.inodes && d.inodes[ino] == job.bytes[..offset] && Private(d, ino)
    case Linking(ino, _) => ino in d.inodes && d.inodes[ino] == job.bytes && Private(d, ino)
    case _ => true
  }

  predicate Checked(phase: Phase) {
    phase.Opening? || phase.Writing? || phase.Linking?
  }

  /** From the look at the target to the link there is none, and from the quota check
      on there is room for one. */
  ghost predicate HasRoom(job: Job, d: Disk) {
    && (job.phase.Scanning? || Checked(job.phase) ==> BundleAt(d, job.project, job.hash).None?)
    && (Checked(job.phase) ==>
          && Bundles(TreeOf(d, job.project)) < MAX_BUNDLE_FILES
          && Sizes(TreeOf(d, job.project), d.inodes) + |job.bytes| <= MAX_PROJECT_BYTES)
  }

  predicate ClaimsCreation(phase: Phase) {
    phase.Verifying? || (phase.Cleaning? && phase.outcome.Created?) || (phase.Closed? && phase.outcome.Created?)
  }

  predicate Unpublished(phase: Phase) {
    phase.Queued? || phase.Preparing? || phase.Looking? || phase.Scanning? || phase.Opening? || phase.Writing?
      || phase.Linking?
  }

  predicate Succeeds(phase: Phase) {
    (phase.Cleaning? || phase.Closed?) && !phase.outcome.Failed?
  }

  /** The target of a call holds exactly the bytes of the call. */
  ghost predicate HoldsOwn(job: Job, d: Disk) {
    var target := BundleAt(d, job.project, job.hash);
    target.Some? && target.value in d.inodes && d.inodes[target.value] == job.bytes
  }

  /** Only the call that linked claims creation; what it linked, and what any call
      answers for, is there. */
  ghost predicate Honest(job: Job, d: Disk) {
    && (ClaimsCreation(job.phase) ==> job.committed)
    && (Unpublished(job.phase) ==> !job.committed)
    && (job.committed || Succeeds(job.phase) ==> HoldsOwn(job, d))
  }

  ghost predicate JobFits(job: Job, d: Disk, sha: Bytes -> string) {
    && |job.bytes| <= MAX_ARCHIVE_BYTES && sha(job.bytes) == job.hash
    && (job.phase.Queued? || job.phase.Preparing? || job.phase.Closed? || DirAt(d, job.project, job.hash).Some?)
    && OwnFile(job, d) && HasRoom(job, d) && Honest(job, d)
  }

  predicate Active(phase: Phase) {
    !phase.Queued? && !phase.Closed?
  }

  predicate Owns(phase: Phase, ino: nat) {
    (phase.Writing? || phase.Linking?) && phase.ino == ino
  }

  /** Every call stands where the mutex has it. */
  ghost predicate Paired(s: State) {
    && M.Orderly(s.mutex) && |s.mutex.calls| == |s.jobs|
    && forall i :: 0 <= i < |s.jobs| ==>
         && s.mutex.calls[i].key == s.jobs[i].project
         && (Active(s.jobs[i].phase) ==> s.mutex.calls[i].phase.Running?)
         && (s.jobs[i].phase.Queued? <==> s.mutex.calls[i].phase.Waiting?)
  }

  /** No two calls own the same file, and no two have published the same hash. */
  ghost predicate Apart(a: Job, b: Job) {
    && (forall ino :: !(Owns(a.phase, ino) && Owns(b.phase, ino)))
    && !(a.committed && b.committed && a.project == b.project && a.hash == b.hash)
  }

  ghost predicate JobsApart(jobs: seq<Job>) {
    forall i, j {:trigger Apart(jobs[i], jobs[j])} :: 0 <= i < j < |jobs| ==> Apart(jobs[i], jobs[j])
  }

  ghost predicate JobsFit(jobs: seq<Job>, d: Disk, sha: Bytes -> string) {
    forall i {:trigger JobFits(jobs[i], d, sha)} :: 0 <= i < |jobs| ==> JobFits(jobs[i], d, sha)
  }

  ghost predicate Valid(s: State, sha: Bytes -> string) {
    && Paired(s) && DiskFits(s.disk)
    && JobsFit(s.jobs, s.disk, sha) && JobsApart(s.jobs)
  }

  // --------------------------------------------------------- disks with same bundles

  /** Nothing published has changed, and nothing new is published. */
  ghost predicate SameBundles(d: Disk, d': Disk) {
    && d.nextIno <= d'.nextIno
    && (forall p, h :: BundleAt(d', p, h) == BundleAt(d, p, h))
    && (forall p, h :: DirAt(d, p, h).Some? ==> DirAt(d', p, h).Some?)
    && (forall p ::
          && Bundles(TreeOf(d', p)) == Bundles(TreeOf(d, p))
          && Sizes(TreeOf(d', p), d'.inodes) == Sizes(TreeOf(d, p), d.inodes))
    && (forall ino :: Private(d, ino) ==> Private(d', ino))
    && (forall ino :: ino in d.inodes ==> ino in d'.inodes)
    && (forall p, h :: BundleAt(d, p, h).Some? && BundleAt(d, p, h).value in d.inodes ==>
          d'.inodes[BundleAt(d, p, h).value] == d.inodes[BundleAt(d, p, h).value])
  }

  lemma SameThen(a: Disk, b: Disk, c: Disk)
    requires SameBundles(a, b) && SameBundles(b, c)
    ensures SameBundles(a, c)
  {
    hide BundleAt, DirAt, TreeOf, Private;
  }

  lemma {:induction false} LookupIn(tree: Tree, hash: string)
    requires Lookup(tree, hash).Some?
    ensures Lookup(tree, hash).value in tree && Lookup(tree, hash).value.hash == hash
  {
    if tree[0].hash != hash {
      LookupIn(tree[1..], hash);
    }
  }

  lemma {:induction false} PutElements(tree: Tree, d: HashDir, x: HashDir)
    requires x in Put(tree, d)
    ensures x == d || x in tree
  {
    if tree != [] && tree[0].hash != d.hash && x != tree[0] {
      PutElements(tree[1..], d, x);
    }
  }

  lemma DirAtPut(d: Disk, project: string, dir: HashDir, p: string, h: string)
    ensures DirAt(PutDir(d, project, dir), p, h) == if p == project && h == dir.hash then Some(dir) else DirAt(d, p, h)
  {
    LookupPut(TreeOf(d, project), dir, h);
    hide Lookup, Put;
  }

  /** A directory may change all but its bundle. */
  lemma PutSame(d: Disk, project: string, dir: HashDir)
    requires dir.bundle == BundleAt(d, project, dir.hash)
    ensures SameBundles(d, PutDir(d, project, dir))
  {
    var d' := PutDir(d, project, dir);
    forall p, h ensures BundleAt(d', p, h) == BundleAt(d, p, h) && (DirAt(d, p, h).Some? ==> DirAt(d', p, h).Some?) {
      DirAtPut(d, project, dir, p, h);
    }
    forall ino | Private(d, ino) ensures Private(d', ino) {
      PutPrivate(d, project, dir, ino);
    }
    TotalsPut(TreeOf(d, project), dir, d.inodes);
    hide Lookup, Put, Bundles, Sizes;
  }

  lemma PutPrivate(d: Disk, project: string, dir: HashDir, ino: nat)
    requires Private(d, ino)
    requires dir.bundle == BundleAt(d, project, dir.hash) || dir.bundle != Some(ino)
    ensures Private(PutDir(d, project, dir), ino)
  {
    var d' := PutDir(d, project, dir);
    if BundleAt(d, project, dir.hash).Some? {
      LookupIn(TreeOf(d, project), dir.hash);
    }
    hide Lookup, Put;
    forall p, x | p in d'.trees && x in d'.trees[p] ensures x.bundle != Some(ino) {
      if p == project {
        PutElements(TreeOf(d, project), dir, x);
      }
    }
  }

  /** A new inode, and the number is used up. */
  lemma ExtendSame(d: Disk)
    requires DiskFits(d)
    ensures SameBundles(d, d.(inodes := d.inodes[d.nextIno := []], nextIno := d.nextIno + 1))
  {
    var inodes' := d.inodes[d.nextIno := []];
    forall p ensures Sizes(TreeOf(d, p), inodes') == Sizes(TreeOf(d, p), d.inodes) {
      SameSizes(TreeOf(d, p), d.inodes, inodes');
    }
    hide Lookup, Bundles, Sizes;
  }

  /** Writing to a private file. */
  lemma WriteSame(d: Disk, ino: nat, content: Bytes)
    requires Private(d, ino) && ino in d.inodes
    ensures SameBundles(d, d.(inodes := d.inodes[ino := content]))
  {
    var inodes' := d.inodes[ino := content];
    forall p ensures Sizes(TreeOf(d, p), inodes') == Sizes(TreeOf(d, p), d.inodes) {
      SameSizes(TreeOf(d, p), d.inodes, inodes');
    }
    forall p, h | BundleAt(d, p, h).Some? ensures BundleAt(d, p, h).value != ino {
      BundleShared(d, p, h);
    }
    hide Lookup, Bundles, Sizes;
  }

  /** The same bundles: the disk is as good as before. */
  lemma SameKeepsDisk(d: Disk, d': Disk)
    requires DiskFits(d) && SameBundles(d, d')
    requires forall ino :: ino in d'.inodes ==> ino < d'.nextIno
    ensures DiskFits(d')
  {
    forall p, dir | p in d'.trees && dir in d'.trees[p] && dir.bundle.Some? ensures dir.bundle.value in d'.inodes {
      assert !Private(d', dir.bundle.value);
      assert !Private(d, dir.bundle.value);
      SharedExists(d, dir.bundle.value);
    }
    hide Lookup, Bundles, Sizes, Private;
  }

  lemma BundleShared(d: Disk, p: string, h: string)
    requires BundleAt(d, p, h).Some?
    ensures !Private(d, BundleAt(d, p, h).value)
  {
    LookupIn(TreeOf(d, p), h);
  }

  lemma SharedExists(d: Disk, ino: nat)
    requires DiskFits(d) && !Private(d, ino)
    ensures ino in d.inodes
  {
  }

  lemma SameKeepsJob(job: Job, d: Disk, d': Disk, sha: Bytes -> string)
    requires JobFits(job, d, sha) && SameBundles(d, d')
    requires forall ino :: Owns(job.phase, ino) && ino in d.inodes ==> d'.inodes[ino] == d.inodes[ino]
    ensures JobFits(job, d', sha)
  {
    hide BundleAt, DirAt, Private, TreeOf;
    match job.phase
    case Writing(ino, _, _) => assert Owns(job.phase, ino);
    case Linking(ino, _) => assert Owns(job.phase, ino);
    case _ =>
  }

  // --------------------------------------------------------------- one call's step

  lemma SameItself(d: Disk)
    ensures SameBundles(d, d)
  {
    hide BundleAt, DirAt, TreeOf, Private;
  }

  ghost predicate OthersElsewhere(jobs: seq<Job>, i: nat, phase: Phase) {
    forall j, ino {:trigger Owns(jobs[j].phase, ino)} ::
      0 <= j < |jobs| && j != i && Owns(jobs[j].phase, ino) ==> !Owns(phase, ino)
  }

  ghost predicate OthersUntouched(jobs: seq<Job>, i: nat, d: Disk, d': Disk) {
    forall j, ino {:trigger Owns(jobs[j].phase, ino)} ::
      0 <= j < |jobs| && j != i && Owns(jobs[j].phase, ino) && ino in d.inodes
      ==> ino in d'.inodes && d'.inodes[ino] == d.inodes[ino]
  }

  lemma PairedStays(s: State, i: nat, job: Job, d: Disk)
    requires Paired(s) && i < |s.jobs| && job.project == s.jobs[i].project
    requires Active(s.jobs[i].phase) && !job.phase.Queued?
    ensures Paired(State(s.mutex, s.jobs[i := job], d))
  {
    hide M.Orderly;
  }

  /** The changed call owns no file of another and has published nothing more. */
  lemma ApartStays(jobs: seq<Job>, i: nat, job: Job)
    requires JobsApart(jobs) && i < |jobs| && job == jobs[i].(phase := job.phase)
    requires OthersElsewhere(jobs, i, job.phase)
    ensures JobsApart(jobs[i := job])
  {
    var jobs' := jobs[i := job];
    forall j, k | 0 <= j < k < |jobs| ensures Apart(jobs'[j], jobs'[k]) {
      assert Apart(jobs[j], jobs[k]);
    }
  }

  lemma JobsStay(jobs: seq<Job>, i: nat, job: Job, d: Disk, d': Disk, sha: Bytes -> string)
    requires JobsFit(jobs, d, sha) && i < |jobs| && SameBundles(d, d') && JobFits(job, d', sha)
    requires OthersUntouched(jobs, i, d, d')
    ensures JobsFit(jobs[i := job], d', sha)
  {
    hide SameBundles, JobFits, Owns;
    var jobs' := jobs[i := job];
    forall j | 0 <= j < |jobs| ensures JobFits(jobs'[j], d', sha) {
      if j != i {
        assert JobFits(jobs[j], d, sha);
        SameKeepsJob(jobs[j], d, d', sha);
      }
    }
  }

  /** A step of one call that publishes nothing. */
  lemma QuietStep(s: State, i: nat, job: Job, d: Disk, sha: Bytes -> string)
    requires Valid(s, sha) && i < |s.jobs| && job == s.jobs[i].(phase := job.phase)
    requires SameBundles(s.disk, d) && forall ino :: ino in d.inodes ==> ino < d.nextIno
    requires JobFits(job, d, sha)
    requires Active(s.jobs[i].phase) && !job.phase.Queued?
    requires OthersElsewhere(s.jobs, i, job.phase) && OthersUntouched(s.jobs, i, s.disk, d)
    ensures Valid(State(s.mutex, s.jobs[i := job], d), sha)
  {
    hide SameBundles, DiskFits, JobFits, JobsFit, JobsApart, Paired;
    SameKeepsDisk(s.disk, d);
    JobsStay(s.jobs, i, job, s.disk, d, sha);
    ApartStays(s.jobs, i, job);
    PairedStays(s, i, job, d);
  }

  /** The files that other calls own are not this call's. */
  lemma ElsewhereNow(s: State, i: nat, phase: Phase, sha: Bytes -> string)
    requires Valid(s, sha) && i < |s.jobs| && forall ino :: Owns(phase, ino) ==> Owns(s.jobs[i].phase, ino)
    ensures OthersElsewhere(s.jobs, i, phase)
  {
    forall j, ino | 0 <= j < |s.jobs| && j != i && Owns(s.jobs[j].phase, ino) ensures !Owns(phase, ino) {
      assert if j < i then Apart(s.jobs[j], s.jobs[i]) else Apart(s.jobs[i], s.jobs[j]);
    }
  }

  /** A step of one call that leaves the disk alone. */
  lemma MoveKeeps(s: State, i: nat, phase: Phase, sha: Bytes -> string)
    requires Valid(s, sha) && i < |s.jobs| && Active(s.jobs[i].phase) && !phase.Queued?
    requires JobFits(s.jobs[i].(phase := phase), s.disk, sha)
    requires forall ino :: Owns(phase, ino) ==> Owns(s.jobs[i].phase, ino)
    ensures Valid(Move(s, i, phase), sha)
  {
    SameItself(s.disk);
    ElsewhereNow(s, i, phase, sha);
    assert forall ino :: ino in s.disk.inodes ==> ino < s.disk.nextIno;
    hide Valid;
    QuietStep(s, i, s.jobs[i].(phase := phase), s.disk, sha);
  }

  lemma MakeDirectoryKeeps(s: State, i: nat, sha: Bytes -> string)
    requires Valid(s, sha) && Enabled(s, MakeDirectory(i), sha)
    ensures Valid(Next(s, MakeDirectory(i), sha), sha)
  {
    var job := s.jobs[i];
    var d := NewDirectory(s.disk, job.project, job.hash);
    var dir := HashDir(job.hash, None, map[]);
    assert JobFits(job, s.disk, sha);
    assert forall ino :: ino in d.inodes ==> ino < d.nextIno;
    SameItself(s.disk);
    if DirAt(s.disk, job.project, job.hash).None? {
      PutSame(s.disk, job.project, dir);
      DirAtPut(s.disk, job.project, dir, job.project, job.hash);
    }
    ElsewhereNow(s, i, Looking, sha);
    hide DiskFits, JobsApart, Paired, DirAt, SameBundles;
    SameKeepsJob(job, s.disk, d, sha);
    QuietStep(s, i, job.(phase := Looking), d, sha);
  }

  lemma LookUpKeeps(s: State, i: nat, sha: Bytes -> string)
    requires Valid(s, sha) && Enabled(s, LookUp(i), sha)
    ensures Valid(Next(s, LookUp(i), sha), sha)
  {
    assert JobFits(s.jobs[i], s.disk, sha);
    hide BundleAt, DirAt, TreeOf, DiskFits, JobsApart, Paired, Exact;
    MoveKeeps(s, i, Found(s.disk, s.jobs[i], sha), sha);
  }

  lemma ScanKeeps(s: State, i: nat, sha: Bytes -> string)
    requires Valid(s, sha) && Enabled(s, Scan(i), sha)
    ensures Valid(Next(s, Scan(i), sha), sha)
  {
    assert JobFits(s.jobs[i], s.disk, sha);
    hide BundleAt, DirAt, TreeOf, DiskFits, JobsApart, Paired, Scannable, WithinQuota;
    MoveKeeps(s, i, Room(s.disk, s.jobs[i]), sha);
  }

  lemma OpenTempKeeps(s: State, i: nat, temp: string, sha: Bytes -> string)
    requires Valid(s, sha) && Enabled(s, OpenTemp(i, temp), sha)
    ensures Valid(Next(s, OpenTemp(i, temp), sha), sha)
  {
    var job := s.jobs[i];
    assert JobFits(job, s.disk, sha);
    hide BundleAt, TreeOf, DiskFits, JobsApart, Paired, JobsFit;
    if temp in DirAt(s.disk, job.project, job.hash).value.temps {
      hide DirAt;
      MoveKeeps(s, i, Closed(Failed), sha);
    } else {
      hide DirAt, JobFits, Valid;
      TempKeeps(s, i, temp, sha);
    }
  }

  lemma TempKeeps(s: State, i: nat, temp: string, sha: Bytes -> string)
    requires Valid(s, sha) && i < |s.jobs| && s.jobs[i].phase.Opening? && HasDir(s, i)
    ensures var d := NewTemp(s.disk, s.jobs[i].project, s.jobs[i].hash, temp);
            Valid(Change(s, i, Writing(s.disk.nextIno, temp, 0), d), sha)
  {
    var job, d := s.jobs[i], NewTemp(s.disk, s.jobs[i].project, s.jobs[i].hash, temp);
    assert JobFits(job, s.disk, sha);
    NewTempSame(s.disk, job.project, job.hash, temp);
    FreshElsewhere(s, i, temp, sha);
    assert forall ino :: ino in d.inodes ==> ino < d.nextIno;
    hide DirAt, BundleAt, TreeOf, SameBundles, Valid, Private;
    OpenedFits(job, s.disk, d, temp, sha);
    hide JobFits;
    QuietStep(s, i, job.(phase := Writing(s.disk.nextIno, temp, 0)), d, sha);
  }

  lemma OpenedFits(job: Job, d: Disk, d': Disk, temp: string, sha: Bytes -> string)
    requires JobFits(job, d, sha) && job.phase.Opening? && SameBundles(d, d')
    requires Private(d', d.nextIno) && d.nextIno in d'.inodes && d'.inodes[d.nextIno] == []
    ensures JobFits(job.(phase := Writing(d.nextIno, temp, 0)), d', sha)
  {
    SameKeepsJob(job, d, d', sha);
    assert job.bytes[..0] == [];
    hide BundleAt, DirAt, TreeOf, Private, SameBundles;
  }

  lemma NewTempSame(d: Disk, project: string, hash: string, temp: string)
    requires DiskFits(d) && DirAt(d, project, hash).Some?
    ensures SameBundles(d, NewTemp(d, project, hash, temp)) && Private(NewTemp(d, project, hash, temp), d.nextIno)
  {
    var dir := DirAt(d, project, hash).value;
    var dir' := dir.(temps := dir.temps[temp := d.nextIno]);
    LookupIn(TreeOf(d, project), hash);
    FreshPrivate(d);
    ExtendSame(d);
    var e := d.(inodes := d.inodes[d.nextIno := []], nextIno := d.nextIno + 1);
    TempInPlace(d, e, project, hash, dir', d.nextIno);
  }

  lemma TempInPlace(d: Disk, e: Disk, project: string, hash: string, dir: HashDir, ino: nat)
    requires SameBundles(d, e) && e.trees == d.trees && Private(d, ino)
    requires dir.hash == hash && dir.bundle == BundleAt(d, project, hash)
    ensures SameBundles(d, PutDir(e, project, dir)) && Private(PutDir(e, project, dir), ino)
  {
    assert Private(e, ino) && dir.bundle == BundleAt(e, project, hash);
    hide Private, SameBundles, BundleAt, PutDir;
    PutSame(e, project, dir);
    PutPrivate(e, project, dir, ino);
    SameThen(d, e, PutDir(e, project, dir));
  }

  lemma FreshPrivate(d: Disk)
    requires DiskFits(d)
    ensures Private(d, d.nextIno) && d.nextIno !in d.inodes
  {
  }

  /** Nobody owns a file that does not exist yet, and the new one touches nobody's. */
  lemma FreshElsewhere(s: State, i: nat, temp: string, sha: Bytes -> string)
    requires Valid(s, sha)
    ensures OthersElsewhere(s.jobs, i, Writing(s.disk.nextIno, temp, 0))
    ensures forall d: Disk :: d.inodes == s.disk.inodes[s.disk.nextIno := []] ==> OthersUntouched(s.jobs, i, s.disk, d)
  {
    FreshPrivate(s.disk);
    forall j, ino | 0 <= j < |s.jobs| && j != i && Owns(s.jobs[j].phase, ino)
      ensures ino in s.disk.inodes && !Owns(Writing(s.disk.nextIno, temp, 0), ino)
    {
      assert JobFits(s.jobs[j], s.disk, sha);
    }
    hide JobFits, DiskFits, JobsFit, Paired, JobsApart;
  }

  lemma FitsAt(s: State, i: nat, sha: Bytes -> string)
    requires Valid(s, sha) && i < |s.jobs|
    ensures JobFits(s.jobs[i], s.disk, sha)
  {
  }

  /** A write at the offset reached extends what was written. */
  lemma OverwriteExtends(bytes: Bytes, offset: nat, count: nat)
    requires offset + count <= |bytes|
    ensures Overwrite(bytes[..offset], offset, bytes[offset..offset + count]) == bytes[..offset + count]
  {
  }

  lemma WriteKeeps(s: State, i: nat, count: nat, sha: Bytes -> string)
    requires Valid(s, sha) && Enabled(s, Write(i, count), sha)
    ensures Valid(Next(s, Write(i, count), sha), sha)
  {
    hide Valid, Private, HasRoom, Honest, Overwrite, BundleAt, DirAt, Publish, Found, Room, NewDirectory, NewTemp;
    var job, at := s.jobs[i], s.jobs[i].phase;
    FitsAt(s, i, sha);
    OverwriteExtends(job.bytes, at.offset, count);
    ExtendedKeeps(s, i, count, s.disk.(inodes := s.disk.inodes[at.ino := job.bytes[..at.offset + count]]), sha);
  }

  lemma ExtendedKeeps(s: State, i: nat, count: nat, d: Disk, sha: Bytes -> string)
    requires Valid(s, sha) && i < |s.jobs| && s.jobs[i].phase.Writing?
    requires s.jobs[i].phase.offset + count <= |s.jobs[i].bytes|
    requires var at := s.jobs[i].phase;
             d == s.disk.(inodes := s.disk.inodes[at.ino := s.jobs[i].bytes[..at.offset + count]])
    ensures Valid(Change(s, i, s.jobs[i].phase.(offset := s.jobs[i].phase.offset + count), d), sha)
  {
    var job, at := s.jobs[i], s.jobs[i].phase;
    var phase := at.(offset := at.offset + count);
    assert JobFits(job, s.disk, sha);
    assert Private(s.disk, at.ino) && at.ino in s.disk.inodes;
    assert forall ino :: ino in d.inodes ==> ino < d.nextIno;
    hide Valid, JobFits, Private, SameBundles;
    WriteSame(s.disk, at.ino, job.bytes[..at.offset + count]);
    OwnWrite(s, i, d, sha);
    ElsewhereNow(s, i, phase, sha);
    hide OthersElsewhere, OthersUntouched;
    WrittenFits(job, s.disk, d, count, sha);
    QuietStep(s, i, job.(phase := phase), d, sha);
  }

  lemma OwnWrite(s: State, i: nat, d: Disk, sha: Bytes -> string)
    requires Valid(s, sha) && i < |s.jobs| && s.jobs[i].phase.Writing?
    requires s.jobs[i].phase.ino in d.inodes
    requires d.inodes == s.disk.inodes[s.jobs[i].phase.ino := d.inodes[s.jobs[i].phase.ino]]
    ensures OthersUntouched(s.jobs, i, s.disk, d)
  {
    ElsewhereNow(s, i, s.jobs[i].phase, sha);
    assert Owns(s.jobs[i].phase, s.jobs[i].phase.ino);
    hide Valid;
  }

  lemma WrittenFits(job: Job, d: Disk, d': Disk, count: nat, sha: Bytes -> string)
    requires JobFits(job, d, sha) && job.phase.Writing? && SameBundles(d, d') && job.phase.offset + count <= |job.bytes|
    requires d'.inodes == d.inodes[job.phase.ino := job.bytes[..job.phase.offset + count]]
    ensures JobFits(job.(phase := job.phase.(offset := job.phase.offset + count)), d', sha)
  {
    hide BundleAt, DirAt, TreeOf, Private;
  }

  lemma SyncKeeps(s: State, i: nat, sha: Bytes -> string)
    requires Valid(s, sha) && Enabled(s, Sync(i), sha)
    ensures Valid(Next(s, Sync(i), sha), sha)
  {
    var job := s.jobs[i];
    assert JobFits(job, s.disk, sha);
    assert job.bytes[..|job.bytes|] == job.bytes;
    hide BundleAt, DirAt, TreeOf, Private, DiskFits, JobsApart, Paired, JobsFit;
    MoveKeeps(s, i, Linking(At(s, i).ino, At(s, i).temp), sha);
  }

  lemma VerifyKeeps(s: State, i: nat, sha: Bytes -> string)
    requires Valid(s, sha) && Enabled(s, Verify(i), sha)
    ensures Valid(Next(s, Verify(i), sha), sha)
  {
    assert JobFits(s.jobs[i], s.disk, sha);
    hide BundleAt, DirAt, TreeOf, Private, DiskFits, JobsApart, Paired, JobsFit, Exact;
    var phase := Next(s, Verify(i), sha).jobs[i].phase;
    MoveKeeps(s, i, phase, sha);
  }

  lemma FailKeeps(s: State, i: nat, sha: Bytes -> string)
    requires Valid(s, sha) && Enabled(s, Fail(i), sha)
    ensures Valid(Next(s, Fail(i), sha), sha)
  {
    assert JobFits(s.jobs[i], s.disk, sha);
    hide BundleAt, DirAt, TreeOf, Private, DiskFits, JobsApart, Paired, JobsFit;
    var phase := Next(s, Fail(i), sha).jobs[i].phase;
    MoveKeeps(s, i, phase, sha);
  }

  lemma UnlinkSame(d: Disk, project: string, hash: string, temp: string)
    requires DirAt(d, project, hash).Some?
    ensures SameBundles(d, Unlinked(d, project, hash, temp))
    ensures Unlinked(d, project, hash, temp).inodes == d.inodes && Unlinked(d, project, hash, temp).nextIno == d.nextIno
  {
    LookupIn(TreeOf(d, project), hash);
    hide SameBundles;
    var dir := DirAt(d, project, hash).value;
    PutSame(d, project, dir.(temps := dir.temps - {temp}));
  }

  lemma UnlinkKeeps(s: State, i: nat, removed: bool, sha: Bytes -> string)
    requires Valid(s, sha) && Enabled(s, Unlink(i, removed), sha)
    ensures Valid(Next(s, Unlink(i, removed), sha), sha)
  {
    var job, at := s.jobs[i], s.jobs[i].phase;
    var d := if removed then Unlinked(s.disk, job.project, job.hash, at.temp) else s.disk;
    hide Valid, Unlinked, DirAt, SameBundles;
    SameItself(s.disk);
    UnlinkSame(s.disk, job.project, job.hash, at.temp);
    CleanedKeeps(s, i, d, sha);
  }

  lemma CleanedKeeps(s: State, i: nat, d: Disk, sha: Bytes -> string)
    requires Valid(s, sha) && i < |s.jobs| && s.jobs[i].phase.Cleaning? && SameBundles(s.disk, d)
    requires d.inodes == s.disk.inodes && d.nextIno == s.disk.nextIno
    ensures Valid(Change(s, i, Closed(s.jobs[i].phase.outcome), d), sha)
  {
    var job, at := s.jobs[i], s.jobs[i].phase;
    assert JobFits(job, s.disk, sha);
    assert forall ino :: ino in d.inodes ==> ino < d.nextIno;
    assert OthersUntouched(s.jobs, i, s.disk, d);
    hide Valid, SameBundles, BundleAt, DirAt, TreeOf, Private, OthersUntouched;
    SameKeepsJob(job, s.disk, d, sha);
    ElsewhereNow(s, i, Closed(at.outcome), sha);
    QuietStep(s, i, job.(phase := Closed(at.outcome)), d, sha);
  }

  // --------------------------------------------------------------- the commit step

  /** The one change of the link: the target now names the inode. */
  ghost predicate OneMoreBundle(d: Disk, d': Disk, project: string, hash: string, ino: nat) {
    && d'.inodes == d.inodes && d'.nextIno == d.nextIno
    && (forall p, h :: BundleAt(d', p, h) == if p == project && h == hash then Some(ino) else BundleAt(d, p, h))
    && (forall p, h :: DirAt(d, p, h).Some? ==> DirAt(d', p, h).Some?)
    && (forall p :: Bundles(TreeOf(d', p)) == Bundles(TreeOf(d, p)) + if p == project then 1 else 0)
    && (forall p :: Sizes(TreeOf(d', p), d.inodes)
                 == Sizes(TreeOf(d, p), d.inodes) + if p == project then SizeOf(Some(ino), d.inodes) else 0)
    && (forall x :: Private(d, x) && x != ino ==> Private(d', x))
  }

  lemma LinkedAdds(d: Disk, project: string, hash: string, ino: nat)
    requires DirAt(d, project, hash).Some? && BundleAt(d, project, hash).None?
    ensures OneMoreBundle(d, Linked(d, project, hash, ino), project, hash, ino)
  {
    LookupIn(TreeOf(d, project), hash);
    var dir := DirAt(d, project, hash).value.(bundle := Some(ino));
    var d' := Linked(d, project, hash, ino);
    forall p, h
      ensures BundleAt(d', p, h) == (if p == project && h == hash then Some(ino) else BundleAt(d, p, h))
      ensures DirAt(d, p, h).Some? ==> DirAt(d', p, h).Some?
    {
      DirAtPut(d, project, dir, p, h);
    }
    forall x | Private(d, x) && x != ino ensures Private(d', x) {
      PutPrivate(d, project, dir, x);
    }
    TotalsPut(TreeOf(d, project), dir, d.inodes);
    hide Lookup, Put, Bundles, Sizes, Private;
  }

  lemma LinkKeepsDisk(d: Disk, d': Disk, job: Job, sha: Bytes -> string)
    requires DiskFits(d) && JobFits(job, d, sha) && job.phase.Linking?
    requires OneMoreBundle(d, d', job.project, job.hash, job.phase.ino)
    ensures DiskFits(d')
  {
    var ino := job.phase.ino;
    forall p, dir | p in d'.trees && dir in d'.trees[p] && dir.bundle.Some? ensures dir.bundle.value in d'.inodes {
      assert !Private(d', dir.bundle.value);
      if dir.bundle.value != ino {
        SharedExists(d, dir.bundle.value);
      }
    }
    hide BundleAt, DirAt, TreeOf, Private, Sizes, Bundles;
  }

  lemma LinkKeepsOther(d: Disk, d': Disk, job: Job, other: Job, sha: Bytes -> string)
    requires JobFits(other, d, sha) && JobFits(job, d, sha) && job.phase.Linking?
    requires OneMoreBundle(d, d', job.project, job.hash, job.phase.ino)
    requires !Owns(other.phase, job.phase.ino)
    requires Active(other.phase) ==> other.project != job.project
    ensures JobFits(other, d', sha)
  {
    hide BundleAt, DirAt, TreeOf, Private, Sizes, Bundles;
  }

  lemma LinkKeepsSelf(d: Disk, d': Disk, job: Job, sha: Bytes -> string)
    requires JobFits(job, d, sha) && job.phase.Linking?
    requires OneMoreBundle(d, d', job.project, job.hash, job.phase.ino)
    ensures JobFits(job.(phase := Verifying(job.phase.ino, job.phase.temp), committed := true), d', sha)
  {
    hide BundleAt, DirAt, TreeOf, Private, Sizes, Bundles;
  }

  /** Of the calls of one project, one at most is between its start and its end. */
  lemma OneActive(s: State, i: nat, j: nat)
    requires Paired(s) && i < |s.jobs| && j < |s.jobs| && i != j
    requires Active(s.jobs[i].phase) && Active(s.jobs[j].phase)
    ensures s.jobs[i].project != s.jobs[j].project
  {
    assert M.InOrder(s.mutex.calls, i) && M.InOrder(s.mutex.calls, j);
  }

  /** Nobody else has published this hash. */
  lemma NobodyElse(s: State, i: nat, j: nat, sha: Bytes -> string)
    requires Valid(s, sha) && i < |s.jobs| && j < |s.jobs| && s.jobs[i].phase.Linking?
    requires s.jobs[j].project == s.jobs[i].project && s.jobs[j].hash == s.jobs[i].hash
    ensures !s.jobs[j].committed
  {
    assert JobFits(s.jobs[i], s.disk, sha) && JobFits(s.jobs[j], s.disk, sha);
    hide BundleAt;
  }

  /** Under the mutex the target cannot appear between the look and the link, so the
      link never meets one. */
  lemma LinkMeetsNoTarget(s: State, i: nat, sha: Bytes -> string)
    requires Valid(s, sha) && i < |s.jobs| && s.jobs[i].phase.Linking?
    ensures BundleAt(s.disk, s.jobs[i].project, s.jobs[i].hash).None?
  {
    assert JobFits(s.jobs[i], s.disk, sha);
    hide BundleAt;
  }

  lemma LinkKeeps(s: State, i: nat, sha: Bytes -> string)
    requires Valid(s, sha) && Enabled(s, Link(i), sha)
    ensures Valid(Next(s, Link(i), sha), sha)
  {
    hide DiskFits, JobsFit, JobsApart, Paired, BundleAt, DirAt;
    LinkMeetsNoTarget(s, i, sha);
    var job := s.jobs[i];
    var d := Linked(s.disk, job.project, job.hash, job.phase.ino);
    LinkedAdds(s.disk, job.project, job.hash, job.phase.ino);
    FitsAt(s, i, sha);
    hide Linked, OneMoreBundle, JobFits;
    LinkKeepsDisk(s.disk, d, job, sha);
    LinkKeepsSelf(s.disk, d, job, sha);
    LinkKeepsJobs(s, i, d, sha);
  }

  lemma LinkKeepsJobs(s: State, i: nat, d: Disk, sha: Bytes -> string)
    requires Valid(s, sha) && i < |s.jobs| && s.jobs[i].phase.Linking?
    requires OneMoreBundle(s.disk, d, s.jobs[i].project, s.jobs[i].hash, s.jobs[i].phase.ino)
    ensures var jobs := s.jobs[i := s.jobs[i].(phase := Verifying(s.jobs[i].phase.ino, s.jobs[i].phase.temp),
                                               committed := true)];
            JobsFit(jobs, d, sha) && JobsApart(jobs) && Paired(State(s.mutex, jobs, d))
  {
    hide OneMoreBundle, JobFits, DiskFits, M.Orderly;
    var job := s.jobs[i];
    var done := job.(phase := Verifying(job.phase.ino, job.phase.temp), committed := true);
    var jobs := s.jobs[i := done];
    assert JobFits(job, s.disk, sha);
    LinkKeepsSelf(s.disk, d, job, sha);
    forall j | 0 <= j < |jobs| ensures JobFits(jobs[j], d, sha) {
      if j != i {
        assert JobFits(s.jobs[j], s.disk, sha);
        assert Owns(job.phase, job.phase.ino);
        assert if j < i then Apart(s.jobs[j], s.jobs[i]) else Apart(s.jobs[i], s.jobs[j]);
        if Active(s.jobs[j].phase) { OneActive(s, i, j); }
        LinkKeepsOther(s.disk, d, job, s.jobs[j], sha);
      }
    }
    forall j, k | 0 <= j < k < |jobs| ensures Apart(jobs[j], jobs[k]) {
      assert Apart(s.jobs[j], s.jobs[k]);
      if j == i && s.jobs[k].project == job.project && s.jobs[k].hash == job.hash { NobodyElse(s, i, k, sha); }
      if k == i && s.jobs[j].project == job.project && s.jobs[j].hash == job.hash { NobodyElse(s, i, j, sha); }
    }
  }

  // -------------------------------------------------------------- steps of the lock

  lemma CallKeeps(s: State, project: string, hash: string, bytes: Bytes, sha: Bytes -> string)
    requires Valid(s, sha) && Enabled(s, Call(project, hash, bytes), sha)
    ensures Valid(Next(s, Call(project, hash, bytes), sha), sha)
  {
    var t := Next(s, Call(project, hash, bytes), sha);
    M.NextKeeps(s.mutex, M.Arrive(project));
    hide DiskFits, BundleAt, DirAt, M.Orderly, Private;
    var job := Job(project, hash, bytes, Queued, false);
    assert JobFits(job, s.disk, sha);
    forall j | 0 <= j < |t.jobs| ensures JobFits(t.jobs[j], t.disk, sha) {
      if j < |s.jobs| { assert JobFits(s.jobs[j], s.disk, sha); }
    }
    hide JobFits;
    forall j, k | 0 <= j < k < |t.jobs| ensures Apart(t.jobs[j], t.jobs[k]) {
      if k < |s.jobs| { assert Apart(s.jobs[j], s.jobs[k]); }
    }
  }

  lemma EnterPaired(s: State, i: nat, sha: Bytes -> string)
    requires Paired(s) && Enabled(s, Enter(i), sha)
    ensures Paired(Next(s, Enter(i), sha))
  {
    M.NextKeeps(s.mutex, M.Enter(i));
    hide M.Orderly;
  }

  lemma EnterKeeps(s: State, i: nat, sha: Bytes -> string)
    requires Valid(s, sha) && Enabled(s, Enter(i), sha)
    ensures Valid(Next(s, Enter(i), sha), sha)
  {
    hide DiskFits, BundleAt, DirAt, M.Orderly, Private, Paired;
    var t := Next(s, Enter(i), sha);
    FitsAt(s, i, sha);
    EnterPaired(s, i, sha);
    forall j | 0 <= j < |t.jobs| ensures JobFits(t.jobs[j], t.disk, sha) {
      assert JobFits(s.jobs[j], s.disk, sha);
    }
    hide JobFits;
    forall j, k | 0 <= j < k < |t.jobs| ensures Apart(t.jobs[j], t.jobs[k]) {
      assert Apart(s.jobs[j], s.jobs[k]);
    }
  }

  lemma LockKeeps(s: State, step: M.Step<string>, sha: Bytes -> string)
    requires Valid(s, sha) && M.Enabled(s.mutex, step)
    requires match step
             case Exit(i) => At(s, i).Closed?
             case Settle(_) => true
             case _ => false
    ensures Valid(s.(mutex := M.Next(s.mutex, step)), sha)
  {
    M.NextKeeps(s.mutex, step);
    hide DiskFits, M.Orderly, JobsFit, JobsApart;
  }

  // --------------------------------------------------------------------- schedules

  /** Every step of every schedule keeps all of it. */
  lemma NextKeeps(s: State, e: Event, sha: Bytes -> string)
    requires Valid(s, sha) && Enabled(s, e, sha)
    ensures Valid(Next(s, e, sha), sha)
  {
    hide Valid;
    match e
    case Call(project, hash, bytes) => CallKeeps(s, project, hash, bytes, sha);
    case Enter(i) => EnterKeeps(s, i, sha);
    case MakeDirectory(i) => MakeDirectoryKeeps(s, i, sha);
    case LookUp(i) => LookUpKeeps(s, i, sha);
    case Scan(i) => ScanKeeps(s, i, sha);
    case OpenTemp(i, temp) => OpenTempKeeps(s, i, temp, sha);
    case Write(i, count) => WriteKeeps(s, i, count, sha);
    case Sync(i) => SyncKeeps(s, i, sha);
    case Link(i) => LinkKeeps(s, i, sha);
    case Verify(i) => VerifyKeeps(s, i, sha);
    case Fail(i) => FailKeeps(s, i, sha);
    case Unlink(i, removed) => UnlinkKeeps(s, i, removed, sha);
    case Exit(i) => LockKeeps(s, M.Exit(i), sha);
    case Settle(i) => LockKeeps(s, M.Settle(i), sha);
  }

  /** A process that starts with no call yet, whatever the disk holds. */
  ghost predicate Start(s: State) {
    s.jobs == [] && s.mutex == M.Initial() && DiskFits(s.disk)
  }

  lemma {:induction false} RunKeeps(s: State, events: seq<Event>, sha: Bytes -> string)
    requires Start(s)
    ensures Valid(Run(s, events, sha), sha)
    decreases |events|
  {
    if events == [] {
      M.InitialValid<string>();
      hide DiskFits, M.Orderly;
    } else {
      RunKeeps(s, events[..|events| - 1], sha);
      hide Valid, Start, Next, Enabled;
      var t := Run(s, events[..|events| - 1], sha);
      if Enabled(t, events[|events| - 1], sha) {
        NextKeeps(t, events[|events| - 1], sha);
      }
    }
  }

  // ---------------------------------------------------------- published for good

  /** What was published before is published still, unchanged. */
  ghost predicate StillPublished(d: Disk, d': Disk) {
    forall p, h :: BundleAt(d, p, h).Some? && BundleAt(d, p, h).value in d.inodes ==>
      && BundleAt(d', p, h) == BundleAt(d, p, h)
      && BundleAt(d, p, h).value in d'.inodes
      && d'.inodes[BundleAt(d, p, h).value] == d.inodes[BundleAt(d, p, h).value]
  }

  lemma SamePublishes(d: Disk, d': Disk)
    requires SameBundles(d, d')
    ensures StillPublished(d, d')
  {
    hide BundleAt, DirAt, TreeOf, Private;
  }

  lemma LinkPublishes(d: Disk, d': Disk, p: string, h: string, ino: nat)
    requires OneMoreBundle(d, d', p, h, ino) && BundleAt(d, p, h).None?
    ensures StillPublished(d, d')
  {
    hide BundleAt, DirAt, TreeOf, Private;
  }

  /** The step that publishes: a call with room for it links its complete file. */
  ghost predicate Commits(s: State, e: Event, t: State, sha: Bytes -> string) {
    && e.Link? && e.i < |s.jobs| && e.i < |t.jobs| && s.jobs[e.i].phase.Linking? && JobFits(s.jobs[e.i], s.disk, sha)
    && OneMoreBundle(s.disk, t.disk, s.jobs[e.i].project, s.jobs[e.i].hash, s.jobs[e.i].phase.ino)
    && t.jobs[e.i].committed
  }

  /** Nothing but the link changes what is published. */
  lemma NextCommits(s: State, e: Event, sha: Bytes -> string)
    requires Valid(s, sha) && Enabled(s, e, sha)
    ensures SameBundles(s.disk, Next(s, e, sha).disk) || Commits(s, e, Next(s, e, sha), sha)
  {
    hide SameBundles, OneMoreBundle, BundleAt, DirAt, Paired, JobsFit, JobsApart;
    SameItself(s.disk);
    match e
    case MakeDirectory(i) =>
      hide NewDirectory;
      DirectorySame(s.disk, s.jobs[i].project, s.jobs[i].hash);
    case OpenTemp(i, temp) =>
      hide NewTemp;
      NewTempSame(s.disk, s.jobs[i].project, s.jobs[i].hash, temp);
    case Write(i, count) =>
      var at := s.jobs[i].phase;
      FitsAt(s, i, sha);
      WriteSame(s.disk, at.ino, Overwrite(s.disk.inodes[at.ino], at.offset,
                                          s.jobs[i].bytes[at.offset..at.offset + count]));
    case Link(i) =>
      hide Linked;
      FitsAt(s, i, sha);
      LinkMeetsNoTarget(s, i, sha);
      LinkedAdds(s.disk, s.jobs[i].project, s.jobs[i].hash, s.jobs[i].phase.ino);
    case Unlink(i, removed) =>
      hide Unlinked;
      UnlinkSame(s.disk, s.jobs[i].project, s.jobs[i].hash, s.jobs[i].phase.temp);
    case _ =>
  }

  lemma NextPublishes(s: State, e: Event, sha: Bytes -> string)
    requires Valid(s, sha) && Enabled(s, e, sha)
    ensures StillPublished(s.disk, Next(s, e, sha).disk)
  {
    var t := Next(s, e, sha);
    NextCommits(s, e, sha);
    hide SameBundles, OneMoreBundle, StillPublished, BundleAt, DirAt, Valid, Next, Enabled;
    if SameBundles(s.disk, t.disk) {
      SamePublishes(s.disk, t.disk);
    } else {
      LinkPublishes(s.disk, t.disk, s.jobs[e.i].project, s.jobs[e.i].hash, s.jobs[e.i].phase.ino);
    }
  }

  lemma DirectorySame(d: Disk, project: string, hash: string)
    ensures SameBundles(d, NewDirectory(d, project, hash))
  {
    SameItself(d);
    hide SameBundles;
    if DirAt(d, project, hash).None? {
      PutSame(d, project, HashDir(hash, None, map[]));
    }
  }

  lemma PublishedThen(a: Disk, b: Disk, c: Disk)
    requires StillPublished(a, b) && StillPublished(b, c)
    ensures StillPublished(a, c)
  {
    hide BundleAt;
  }

  lemma LastOfSum(events: seq<Event>, more: seq<Event>)
    requires more != []
    ensures var n, m := |more| - 1, |events + more| - 1;
            (events + more)[..m] == events + more[..n] && (events + more)[m] == more[n]
  {
  }

  lemma {:induction false} RunPublishes(s: State, events: seq<Event>, more: seq<Event>, sha: Bytes -> string)
    requires Start(s)
    ensures StillPublished(Run(s, events, sha).disk, Run(s, events + more, sha).disk)
    decreases |more|
  {
    hide Valid, Start, Next, Enabled, StillPublished;
    if more == [] {
      assert events + more == events;
      SameItself(Run(s, events, sha).disk);
      SamePublishes(Run(s, events, sha).disk, Run(s, events, sha).disk);
    } else {
      var n := |more| - 1;
      LastOfSum(events, more);
      RunPublishes(s, events, more[..n], sha);
      RunKeeps(s, events + more[..n], sha);
      var t := Run(s, events + more[..n], sha);
      if Enabled(t, more[n], sha) {
        NextPublishes(t, more[n], sha);
        PublishedThen(Run(s, events, sha).disk, t.disk, Next(t, more[n], sha).disk);
      }
    }
  }

  /** A project within its limits stays within them, and a project beyond them does
      not change its totals. */
  ghost predicate QuotaKept(d: Disk, d': Disk, project: string) {
    var tree, tree' := TreeOf(d, project), TreeOf(d', project);
    if WithinQuota(tree, d.inodes) then WithinQuota(tree', d'.inodes)
    else Bundles(tree') == Bundles(tree) && Sizes(tree', d'.inodes) == Sizes(tree, d.inodes)
  }

  lemma NextKeepsQuota(s: State, e: Event, sha: Bytes -> string, project: string)
    requires Valid(s, sha) && Enabled(s, e, sha)
    ensures QuotaKept(s.disk, Next(s, e, sha).disk, project)
  {
    NextCommits(s, e, sha);
    hide Valid, Next, Enabled, BundleAt, DirAt, TreeOf, Private, Bundles, Sizes;
  }

  /** Where a target comes from: it was there, or a call has published its own bytes. */
  ghost predicate Sourced(d: Disk, t: State, project: string, hash: string) {
    || BundleAt(t.disk, project, hash) == BundleAt(d, project, hash)
    || exists i :: 0 <= i < |t.jobs| && PublishedBy(t, i, project, hash)
  }

  ghost predicate PublishedBy(t: State, i: nat, project: string, hash: string)
    requires i < |t.jobs|
  {
    t.jobs[i].committed && t.jobs[i].project == project && t.jobs[i].hash == hash
  }

  /** A call keeps what it was made for, and that it has published. */
  lemma NextKeepsCalls(s: State, e: Event, sha: Bytes -> string, i: nat)
    requires Enabled(s, e, sha) && i < |s.jobs|
    ensures var t := Next(s, e, sha);
            && i < |t.jobs| && SameTarget(t.jobs[i], s.jobs[i]) && t.jobs[i].bytes == s.jobs[i].bytes
            && (s.jobs[i].committed ==> t.jobs[i].committed)
  {
    hide Found, Room, Exact, BundleAt, DirAt, M.Next, M.Enabled, NewDirectory, NewTemp, Written, Unlinked, Linked;
  }

  lemma NextIsSourced(d: Disk, s: State, e: Event, sha: Bytes -> string, project: string, hash: string)
    requires Valid(s, sha) && Enabled(s, e, sha) && Sourced(d, s, project, hash)
    ensures Sourced(d, Next(s, e, sha), project, hash)
  {
    var t := Next(s, e, sha);
    NextCommits(s, e, sha);
    forall i | 0 <= i < |s.jobs|
      ensures i < |t.jobs| && SameTarget(t.jobs[i], s.jobs[i]) && (s.jobs[i].committed ==> t.jobs[i].committed)
    {
      NextKeepsCalls(s, e, sha, i);
    }
    hide Valid, Next, Enabled, BundleAt, DirAt, TreeOf, Private, Bundles, Sizes, JobFits;
    if BundleAt(s.disk, project, hash) != BundleAt(d, project, hash) {
      var i :| 0 <= i < |s.jobs| && PublishedBy(s, i, project, hash);
      assert PublishedBy(t, i, project, hash);
    } else if BundleAt(t.disk, project, hash) != BundleAt(s.disk, project, hash) {
      assert PublishedBy(t, e.i, project, hash);
    }
  }

  lemma {:induction false} RunKeepsQuota(s: State, events: seq<Event>, sha: Bytes -> string, project: string,
                                         hash: string)
    requires Start(s)
    ensures QuotaKept(s.disk, Run(s, events, sha).disk, project)
    ensures Sourced(s.disk, Run(s, events, sha), project, hash)
    decreases |events|
  {
    hide Valid, Start, Next, Enabled, TreeOf, Bundles, Sizes, BundleAt;
    if events != [] {
      var before := events[..|events| - 1];
      RunKeepsQuota(s, before, sha, project, hash);
      RunKeeps(s, before, sha);
      if Enabled(Run(s, before, sha), events[|events| - 1], sha) {
        NextKeepsQuota(Run(s, before, sha), events[|events| - 1], sha, project);
        NextIsSourced(s.disk, Run(s, before, sha), events[|events| - 1], sha, project, hash);
      }
    }
  }

  // -------------------------------------------------------------------- theorems

  /** A target that is there holds complete bytes of its hash. */
  ghost predicate Complete(d: Disk, project: string, hash: string, sha: Bytes -> string) {
    var target := BundleAt(d, project, hash);
    target.Some? ==>
      target.value in d.inodes && sha(d.inodes[target.value]) == hash && |d.inodes[target.value]| <= 5_242_880
  }

  /** In every schedule, a published bundle is the same bundle with the same bytes
      however the schedule goes on; and unless it was bad before the first call, it
      holds complete bytes of its hash. */
  lemma BundlesAreComplete(s: State, events: seq<Event>, more: seq<Event>, sha: Bytes -> string, project: string,
                           hash: string)
    requires Start(s) && BundleAt(Run(s, events, sha).disk, project, hash).Some?
    ensures var d, d' := Run(s, events, sha).disk, Run(s, events + more, sha).disk;
            var ino := BundleAt(d, project, hash).value;
            && ino in d.inodes && BundleAt(d', project, hash) == Some(ino) && ino in d'.inodes
            && d'.inodes[ino] == d.inodes[ino]
    ensures Complete(s.disk, project, hash, sha) ==> Complete(Run(s, events, sha).disk, project, hash, sha)
  {
    var t := Run(s, events, sha);
    TargetExists(s, events, sha, project, hash);
    RunKeeps(s, events, sha);
    RunPublishes(s, events, more, sha);
    RunPublishes(s, [], events, sha);
    RunKeepsQuota(s, events, sha, project, hash);
    assert [] + events == events && Run(s, [], sha) == s;
    hide Run, Start, BundleAt;
    if BundleAt(t.disk, project, hash) != BundleAt(s.disk, project, hash) {
      var i :| 0 <= i < |t.jobs| && PublishedBy(t, i, project, hash);
      assert JobFits(t.jobs[i], t.disk, sha);
    }
  }

  lemma TargetExists(s: State, events: seq<Event>, sha: Bytes -> string, project: string, hash: string)
    requires Start(s) && BundleAt(Run(s, events, sha).disk, project, hash).Some?
    ensures BundleAt(Run(s, events, sha).disk, project, hash).value in Run(s, events, sha).disk.inodes
  {
    RunKeeps(s, events, sha);
    hide Run;
    BundleShared(Run(s, events, sha).disk, project, hash);
  }

  predicate SaysCreated(job: Job) {
    job.phase.Closed? && job.phase.outcome.Created?
  }

  predicate SameTarget(a: Job, b: Job) {
    a.project == b.project && a.hash == b.hash
  }

  /** A call that answers created has published its own bytes, and no other call
      answers created for the same project and hash. */
  lemma CreatedOnce(s: State, events: seq<Event>, sha: Bytes -> string, i: nat)
    requires Start(s) && i < |Run(s, events, sha).jobs| && SaysCreated(Run(s, events, sha).jobs[i])
    ensures var t := Run(s, events, sha);
            && PublishedBy(t, i, t.jobs[i].project, t.jobs[i].hash) && HoldsOwn(t.jobs[i], t.disk)
            && forall j :: 0 <= j < |t.jobs| && SaysCreated(t.jobs[j]) && SameTarget(t.jobs[j], t.jobs[i]) ==> j == i
  {
    RunKeeps(s, events, sha);
    var t := Run(s, events, sha);
    hide Run, Start, BundleAt, DirAt, DiskFits, Paired;
    assert JobFits(t.jobs[i], t.disk, sha);
    forall j | 0 <= j < |t.jobs| && SaysCreated(t.jobs[j]) && SameTarget(t.jobs[j], t.jobs[i]) ensures j == i
    {
      assert JobFits(t.jobs[j], t.disk, sha);
      assert j < i ==> Apart(t.jobs[j], t.jobs[i]);
      assert i < j ==> Apart(t.jobs[i], t.jobs[j]);
    }
  }

  /** A call that answers created or existing has its own bytes, all of them, at its
      target, and there they stay. */
  lemma SuccessIsExact(s: State, events: seq<Event>, more: seq<Event>, sha: Bytes -> string, i: nat)
    requires Start(s) && i < |Run(s, events, sha).jobs| && Succeeds(Run(s, events, sha).jobs[i].phase)
    ensures var job := Run(s, events, sha).jobs[i];
            sha(job.bytes) == job.hash && HoldsOwn(job, Run(s, events, sha).disk)
              && HoldsOwn(job, Run(s, events + more, sha).disk)
  {
    RunKeeps(s, events, sha);
    var t := Run(s, events, sha);
    FitsAt(t, i, sha);
    BundlesAreComplete(s, events, more, sha, t.jobs[i].project, t.jobs[i].hash);
    hide Run, Start, BundleAt;
  }

  /** What is published during a run, a call has published: its own bytes, of its hash. */
  lemma PublishedByACall(s: State, events: seq<Event>, sha: Bytes -> string, project: string, hash: string)
    returns (i: nat)
    requires Start(s) && BundleAt(s.disk, project, hash).None?
    requires BundleAt(Run(s, events, sha).disk, project, hash).Some?
    ensures var t := Run(s, events, sha);
            && i < |t.jobs| && PublishedBy(t, i, project, hash) && sha(t.jobs[i].bytes) == hash
            && HoldsOwn(t.jobs[i], t.disk)
  {
    RunKeeps(s, events, sha);
    RunKeepsQuota(s, events, sha, project, hash);
    var t := Run(s, events, sha);
    hide Run, Start, BundleAt;
    i :| 0 <= i < |t.jobs| && PublishedBy(t, i, project, hash);
    assert JobFits(t.jobs[i], t.disk, sha);
  }

  /** In every schedule, a project that starts within its limits never exceeds 100
      bundles or 64 MiB, whatever lies in other projects; one that starts beyond them
      gets nothing more. */
  lemma QuotaHolds(s: State, events: seq<Event>, sha: Bytes -> string, project: string)
    requires Start(s)
    ensures var was, d := s.disk, Run(s, events, sha).disk;
            if Bundles(TreeOf(was, project)) <= 100
               && Sizes(TreeOf(was, project), was.inodes) <= 67_108_864
            then Bundles(TreeOf(d, project)) <= 100
              && Sizes(TreeOf(d, project), d.inodes) <= 67_108_864
            else Bundles(TreeOf(d, project)) == Bundles(TreeOf(was, project))
                 && Sizes(TreeOf(d, project), d.inodes) == Sizes(TreeOf(was, project), was.inodes)
  {
    RunKeepsQuota(s, events, sha, project, "");
    hide Run, Start, Sourced;
  }

  /** As long as a call is not closed, it or one of its project before it has a step
      to take that is not a failure. */
  lemma NeverStuck(s: State, events: seq<Event>, sha: Bytes -> string, i: nat) returns (e: Event)
    requires Start(s) && i < |Run(s, events, sha).jobs| && !Run(s, events, sha).jobs[i].phase.Closed?
    ensures var t := Run(s, events, sha);
            && Enabled(t, e, sha) && !e.Fail? && !e.Call? && Next(t, e, sha) != t
            && e.i <= i && e.i < |t.jobs| && t.jobs[e.i].project == t.jobs[i].project
  {
    RunKeeps(s, events, sha);
    var t := Run(s, events, sha);
    hide Run, Start;
    if t.jobs[i].phase.Queued? {
      e := QueuedStep(t, i, sha);
    } else {
      hide Valid, Enabled, Next;
      e := OwnStep(t, i, sha);
    }
  }

  lemma QueuedStep(t: State, i: nat, sha: Bytes -> string) returns (e: Event)
    requires Valid(t, sha) && i < |t.jobs| && t.jobs[i].phase.Queued?
    ensures Enabled(t, e, sha) && !e.Fail? && !e.Call? && Next(t, e, sha) != t
    ensures e.i <= i && t.jobs[e.i].project == t.jobs[i].project
  {
    hide DiskFits, JobsFit, JobsApart, M.Orderly;
    var step := M.SomeoneMoves(t.mutex, i);
    match step
    case Enter(j) => e := Enter(j);
    case Settle(j) => e := Settle(j);
    case Exit(j) =>
      if t.jobs[j].phase.Closed? {
        e := Exit(j);
      } else {
        hide Valid, Enabled, Next;
        e := OwnStep(t, j, sha);
      }
  }

  lemma OwnStep(t: State, i: nat, sha: Bytes -> string) returns (e: Event)
    requires Valid(t, sha) && i < |t.jobs| && Active(t.jobs[i].phase)
    ensures Enabled(t, e, sha) && !e.Fail? && !e.Call? && e.i == i && Next(t, e, sha).jobs[i] != t.jobs[i]
  {
    FitsAt(t, i, sha);
    hide Valid, Found, Room, BundleAt, Private, Exact, HasRoom, Honest, NewDirectory, NewTemp, Overwrite, Unlinked;
    hide Linked;
    match t.jobs[i].phase
    case Preparing => e := MakeDirectory(i);
    case Looking => e := LookUp(i); FoundMoves(t.disk, t.jobs[i], sha);
    case Scanning => e := Scan(i); RoomMoves(t.disk, t.jobs[i]);
    case Opening => e := OpenTemp(i, "");
    case Writing(_, _, offset) => e := if offset < |t.jobs[i].bytes| then Write(i, 1) else Sync(i);
    case Linking(_, _) => e := Link(i);
    case Verifying(_, _) => e := Verify(i);
    case Cleaning(_, _, _) => e := Unlink(i, true);
  }

  lemma FoundMoves(d: Disk, job: Job, sha: Bytes -> string)
    ensures !Found(d, job, sha).Looking?
  {
  }

  lemma RoomMoves(d: Disk, job: Job)
    ensures !Room(d, job).Scanning?
  {
  }
}
