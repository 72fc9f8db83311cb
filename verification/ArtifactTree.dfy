/** The artifact directories of a project, what lies in them, and the quota scan. */
module ArtifactTree {
  import opened Wrappers

  type Bytes = seq<int>

  const MAX_ARCHIVE_BYTES := 5 * 1024 * 1024
  const MAX_PROJECT_BYTES := 64 * 1024 * 1024
  const MAX_BUNDLE_FILES := 100
  const MAX_SCAN_DIRECTORIES := 256
  const MAX_SCAN_DIRENTS := 512

  /** The directory of one hash. Files are links to numbered inodes. */
  datatype HashDir = HashDir(hash: string, bundle: Option<nat>, temps: map<string, nat>)

  type Tree = seq<HashDir>
  type Inodes = map<nat, Bytes>

  function Lookup(tree: Tree, hash: string): Option<HashDir> {
    if tree == [] then None
    else if tree[0].hash == hash then Some(tree[0])
    else Lookup(tree[1..], hash)
  }

  /** Replaces the directory of the same hash, or adds it. */
  function Put(tree: Tree, d: HashDir): Tree {
    if tree == [] then [d]
    else if tree[0].hash == d.hash then [d] + tree[1..]
    else [tree[0]] + Put(tree[1..], d)
  }

  lemma {:induction false} LookupPut(tree: Tree, d: HashDir, hash: string)
    ensures Lookup(Put(tree, d), hash) == if hash == d.hash then Some(d) else Lookup(tree, hash)
  {
    if tree != [] && tree[0].hash != d.hash {
      LookupPut(tree[1..], d, hash);
    }
  }

  function BundleIn(d: Option<HashDir>): Option<nat> {
    if d.Some? then d.value.bundle else None
  }

  function SizeOf(bundle: Option<nat>, inodes: Inodes): nat {
    if bundle.Some? && bundle.value in inodes then |inodes[bundle.value]| else 0
  }

  function Bundles(tree: Tree): nat {
    if tree == [] then 0 else (if tree[0].bundle.Some? then 1 else 0) + Bundles(tree[1..])
  }

  function Sizes(tree: Tree, inodes: Inodes): nat {
    if tree == [] then 0 else SizeOf(tree[0].bundle, inodes) + Sizes(tree[1..], inodes)
  }

  lemma {:induction false} TotalsPut(tree: Tree, d: HashDir, inodes: Inodes)
    ensures var was := BundleIn(Lookup(tree, d.hash));
            && Bundles(Put(tree, d)) == Bundles(tree) - (if was.Some? then 1 else 0) + (if d.bundle.Some? then 1 else 0)
            && Sizes(Put(tree, d), inodes) == Sizes(tree, inodes) - SizeOf(was, inodes) + SizeOf(d.bundle, inodes)
  {
    if tree != [] && tree[0].hash != d.hash {
      TotalsPut(tree[1..], d, inodes);
    }
  }

  /** Sizes depend only on what the bundles hold. */
  lemma {:induction false} SameSizes(tree: Tree, inodes: Inodes, inodes': Inodes)
    requires forall d :: d in tree ==> SizeOf(d.bundle, inodes') == SizeOf(d.bundle, inodes)
    ensures Sizes(tree, inodes') == Sizes(tree, inodes)
  {
    if tree != [] {
      SameSizes(tree[1..], inodes, inodes');
    }
  }

  // ------------------------------------------------------------------ quota scan

  datatype Quota = Quota(bundleFiles: nat, bytes: nat)

  /** A tree the scan accepts: few directories, each with its bundle at most. */
  predicate Scannable(tree: Tree) {
    |tree| < MAX_SCAN_DIRECTORIES && NoTemps(tree)
  }

  predicate WithinQuota(tree: Tree, inodes: Inodes) {
    Bundles(tree) <= MAX_BUNDLE_FILES && Sizes(tree, inodes) <= MAX_PROJECT_BYTES
  }

  predicate NoTemps(tree: Tree) {
    forall d :: d in tree ==> d.temps == map[]
  }

  lemma NoTempsSnoc(tree: Tree, k: nat)
    requires k < |tree| && NoTemps(tree[..k]) && tree[k].temps == map[]
    ensures NoTemps(tree[..k + 1])
  {
  }

  lemma NoTotals(tree: Tree, inodes: Inodes)
    ensures Bundles(tree[..0]) == Sizes(tree[..0], inodes) == 0
  {
  }

  /** A bundle counts once, and with the bytes of the file it links to. */
  lemma {:induction false} TotalsSnoc(tree: Tree, k: nat, inodes: Inodes)
    requires k < |tree|
    ensures Bundles(tree[..k + 1]) == Bundles(tree[..k]) + (if tree[k].bundle.Some? then 1 else 0)
    ensures Sizes(tree[..k + 1], inodes) == Sizes(tree[..k], inodes)
         + match tree[k].bundle
           case None => 0
           case Some(ino) => if ino in inodes then |inodes[ino]| else 0
  {
    if k > 0 {
      TotalsSnoc(tree[1..], k - 1, inodes);
      assert tree[..k + 1][1..] == tree[1..][..k] && tree[..k][1..] == tree[1..][..k - 1];
    }
  }

  lemma {:induction false} TotalsGrow(tree: Tree, k: nat, inodes: Inodes)
    requires k <= |tree|
    ensures Bundles(tree[..k]) <= Bundles(tree) && Sizes(tree[..k], inodes) <= Sizes(tree, inodes)
    decreases |tree| - k
  {
    if k < |tree| {
      TotalsGrow(tree, k + 1, inodes);
      TotalsSnoc(tree, k, inodes);
    } else {
      assert tree[..k] == tree;
    }
  }

  /** The scan adds up a project's bundles. It answers exactly for trees of the
      expected structure that are within the quota; the entry count never stops it. */
  method ScanProjectQuota(tree: Tree, inodes: Inodes) returns (r: Option<Quota>)
    requires forall d :: d in tree && d.bundle.Some? ==> d.bundle.value in inodes
    ensures r.Some? <==>
            && |tree| <= 255 && (forall d :: d in tree ==> d.temps == map[])
            && Bundles(tree) <= 100 && Sizes(tree, inodes) <= 67_108_864
    ensures r.Some? ==> r.value == Quota(Bundles(tree), Sizes(tree, inodes))
  {
    NoTotals(tree, inodes);
    hide Bundles, Sizes;
    var directoriesSeen, direntsSeen, bundleFiles, bytes := 1, |tree|, 0, 0;
    if direntsSeen > MAX_SCAN_DIRENTS || |tree| > MAX_SCAN_DIRECTORIES {
      return None;
    }
    for k := 0 to |tree|
      invariant directoriesSeen == k + 1 <= MAX_SCAN_DIRECTORIES && direntsSeen <= |tree| + k
      invariant NoTemps(tree[..k])
      invariant bundleFiles == Bundles(tree[..k]) <= MAX_BUNDLE_FILES
      invariant bytes == Sizes(tree[..k], inodes) <= MAX_PROJECT_BYTES
    {
      TotalsSnoc(tree, k, inodes);
      TotalsGrow(tree, k + 1, inodes);
      var entry := tree[k];
      directoriesSeen := directoriesSeen + 1;
      if directoriesSeen > MAX_SCAN_DIRECTORIES {
        return None;
      }
      var files := |entry.temps| + if entry.bundle.Some? then 1 else 0;
      direntsSeen := direntsSeen + files;
      if direntsSeen > MAX_SCAN_DIRENTS || files > 1 || entry.temps != map[] {
        NotScannable(tree, k);
        return None;
      }
      NoTempsSnoc(tree, k);
      if entry.bundle.Some? {
        bundleFiles := bundleFiles + 1;
        bytes := bytes + |inodes[entry.bundle.value]|;
        if bundleFiles > MAX_BUNDLE_FILES || bytes > MAX_PROJECT_BYTES {
          return None;
        }
      }
    }
    assert tree[..|tree|] == tree;
    r := Some(Quota(bundleFiles, bytes));
  }

  lemma NotScannable(tree: Tree, k: nat)
    requires k < |tree| && tree[k].temps != map[]
    ensures !Scannable(tree)
  {
  }
}
