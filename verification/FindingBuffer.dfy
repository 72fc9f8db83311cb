/** The bounded buffer of findings: it counts everything and keeps just enough to
    answer the first findings of the full sorted list. */
module FindingBuffer {
  import opened Wrappers
  import opened JsonText

  datatype Severity = Error | Warning

  datatype Issue = Issue(code: Text, severity: Severity, featureIndex: Option<nat>, path: Text, message: Text)

  function Rank(s: Severity): int { if s.Error? then 0 else 1 }

  function IndexOf(i: Option<nat>): int { if i.Some? then i.value else -1 }

  function CompareTexts(a: Text, b: Text): int {
    if Less(a, b) then -1 else if Less(b, a) then 1 else 0
  }

  function Or(a: int, b: int): int { if a != 0 then a else b }

  /** Negative, zero or positive, by the first criterion that differs. */
  function CompareIssues(a: Issue, b: Issue): int {
    Or(Rank(a.severity) - Rank(b.severity),
       Or(CompareTexts(a.code, b.code),
          Or(IndexOf(a.featureIndex) - IndexOf(b.featureIndex),
             Or(CompareTexts(a.path, b.path), CompareTexts(a.message, b.message)))))
  }

  // ---------------------------------------------------------------- total order

  predicate Before(a: Issue, b: Issue) {
    CompareIssues(a, b) < 0
  }

  lemma TextsOrdered(a: Text, b: Text, c: Text)
    ensures CompareTexts(a, b) == -CompareTexts(b, a) && (CompareTexts(a, b) == 0 <==> a == b)
    ensures CompareTexts(a, b) <= 0 && CompareTexts(b, c) <= 0 ==> CompareTexts(a, c) <= 0
    ensures CompareTexts(a, b) <= 0 && CompareTexts(b, c) <= 0 && CompareTexts(a, c) == 0 ==> a == b && b == c
  {
    hide Less;
    LessTotal(a, b);
    LessTotal(b, c);
    LessTotal(a, c);
    if Less(a, b) && Less(b, c) { LessTrans(a, b, c); }
  }

  /** Findings that compare equal are equal, and the comparison is antisymmetric and
      transitive: a total order in which encounter order has no part. */
  lemma CompareIsTotalOrder(a: Issue, b: Issue, c: Issue)
    ensures CompareIssues(a, b) == 0 <==> a == b
    ensures Before(a, b) <==> CompareIssues(b, a) > 0
    ensures Before(a, b) && Before(b, c) ==> Before(a, c)
  {
    hide CompareTexts;
    TextsOrdered(a.code, b.code, c.code);
    TextsOrdered(a.path, b.path, c.path);
    TextsOrdered(a.message, b.message, c.message);
  }

  /** Errors before warnings; then by code, by feature with those about no feature first, by
      path and by message. Texts are ordered by their first code unit that differs. */
  ghost predicate ReportedFirst(a: Issue, b: Issue) {
    if a.severity != b.severity then a.severity == Error && b.severity == Warning
    else if a.code != b.code then Precedes(a.code, b.code)
    else if a.featureIndex != b.featureIndex then
      a.featureIndex == None || (b.featureIndex.Some? && a.featureIndex.value < b.featureIndex.value)
    else if a.path != b.path then Precedes(a.path, b.path)
    else Precedes(a.message, b.message)
  }

  lemma TextsCompare(a: Text, b: Text)
    ensures CompareTexts(a, b) < 0 <==> Precedes(a, b)
    ensures CompareTexts(a, b) == 0 <==> a == b
  {
    LessTotal(a, b);
    LessMeaning(a, b);
  }

  lemma BeforeMeaning(a: Issue, b: Issue)
    ensures Before(a, b) <==> ReportedFirst(a, b)
  {
    TextsCompare(a.code, b.code);
    TextsCompare(a.path, b.path);
    TextsCompare(a.message, b.message);
    hide CompareTexts, Precedes;
  }

  // -------------------------------------------------------------------- sorting

  function Insert(x: Issue, xs: seq<Issue>): seq<Issue> {
    if xs == [] || Before(x, xs[0]) then [x] + xs else [xs[0]] + Insert(x, xs[1..])
  }

  /** The list sorted by the comparison. */
  function Sort(xs: seq<Issue>): seq<Issue>
    decreases |xs|
  {
    if xs == [] then [] else Insert(xs[|xs| - 1], Sort(xs[..|xs| - 1]))
  }

  predicate Sorted(xs: seq<Issue>) {
    forall i, j :: 0 <= i < j < |xs| ==> !Before(xs[j], xs[i])
  }

  lemma {:induction false} InsertSorts(x: Issue, xs: seq<Issue>)
    requires Sorted(xs)
    ensures Sorted(Insert(x, xs)) && multiset(Insert(x, xs)) == multiset(xs) + multiset{x}
  {
    hide CompareIssues, Before;
    if xs != [] && !Before(x, xs[0]) {
      var r := Insert(x, xs[1..]);
      InsertSorts(x, xs[1..]);
      assert xs == [xs[0]] + xs[1..];
      HeadFirst(xs[0], r, xs[1..], x);
    } else {
      forall j | 0 <= j < |xs| ensures !Before(xs[j], x) {
        NotBefore(x, xs[0], xs[j]);
      }
    }
  }

  lemma HeadFirst(h: Issue, r: seq<Issue>, tail: seq<Issue>, x: Issue)
    requires Sorted([h] + tail) && !Before(x, h) && multiset(r) == multiset(tail) + multiset{x} && Sorted(r)
    ensures Sorted([h] + r)
  {
    hide Before;
    forall j | 0 <= j < |r| ensures !Before(r[j], h) {
      assert r[j] in multiset(r);
      if r[j] != x {
        var i :| 0 <= i < |tail| && tail[i] == r[j];
        assert ([h] + tail)[i + 1] == tail[i] && ([h] + tail)[0] == h;
        assert !Before(([h] + tail)[i + 1], ([h] + tail)[0]);
      }
    }
  }

  lemma NotBefore(x: Issue, y: Issue, z: Issue)
    requires Before(x, y) && (z == y || !Before(z, y))
    ensures !Before(z, x)
  {
    CompareIsTotalOrder(x, y, z);
    CompareIsTotalOrder(z, x, y);
    hide CompareIssues;
  }

  lemma {:induction false} SortSorts(xs: seq<Issue>)
    ensures Sorted(Sort(xs)) && multiset(Sort(xs)) == multiset(xs)
    decreases |xs|
  {
    hide Before, Insert;
    if xs != [] {
      var n := |xs| - 1;
      SortSorts(xs[..n]);
      InsertSorts(xs[n], Sort(xs[..n]));
      assert xs == xs[..n] + [xs[n]];
    }
  }

  lemma {:induction false} SortedUnique(xs: seq<Issue>, ys: seq<Issue>)
    requires Sorted(xs) && Sorted(ys) && multiset(xs) == multiset(ys)
    ensures xs == ys
  {
    hide Before;
    assert |multiset(xs)| == |xs| && |multiset(ys)| == |ys|;
    if xs != [] {
      SameHead(xs, ys);
      Tail(xs);
      Tail(ys);
      SortedUnique(xs[1..], ys[1..]);
    }
  }

  lemma Tail(xs: seq<Issue>)
    requires xs != [] && Sorted(xs)
    ensures xs == [xs[0]] + xs[1..] && multiset(xs[1..]) == multiset(xs) - multiset{xs[0]} && Sorted(xs[1..])
  {
    hide Before;
    assert xs == [xs[0]] + xs[1..];
  }

  lemma SameHead(xs: seq<Issue>, ys: seq<Issue>)
    requires Sorted(xs) && Sorted(ys) && multiset(xs) == multiset(ys) && xs != [] && ys != []
    ensures xs[0] == ys[0]
  {
    hide Before;
    assert xs[0] in multiset(ys) && ys[0] in multiset(xs);
    var i :| 0 <= i < |ys| && ys[i] == xs[0];
    var j :| 0 <= j < |xs| && xs[j] == ys[0];
    Neither(xs[0], ys[0]);
  }

  lemma Neither(a: Issue, b: Issue)
    ensures !Before(a, b) && !Before(b, a) ==> a == b
  {
    CompareIsTotalOrder(a, b, a);
    CompareIsTotalOrder(b, a, b);
    hide CompareIssues;
  }

  lemma SortOfSorted(xs: seq<Issue>)
    requires Sorted(xs)
    ensures Sort(xs) == xs
  {
    SortSorts(xs);
    SortedUnique(Sort(xs), xs);
  }

  // ------------------------------------------------------------------------ top

  function Take(xs: seq<Issue>, k: nat): seq<Issue> {
    if k <= |xs| then xs[..k] else xs
  }

  /** The first k of the full sorted list. */
  function Top(xs: seq<Issue>, k: nat): seq<Issue> {
    Take(Sort(xs), k)
  }

  /** What the first k are after an insertion depends on the first k before it. */
  lemma {:induction false} InsertTake(x: Issue, xs: seq<Issue>, k: nat)
    ensures Take(Insert(x, xs), k) == Take(Insert(x, Take(xs, k)), k)
  {
    hide Before;
    if xs == [] || Before(x, xs[0]) || k == 0 {
    } else {
      InsertTake(x, xs[1..], k - 1);
      assert Take(xs, k) == [xs[0]] + Take(xs[1..], k - 1);
      var r, s := Insert(x, xs[1..]), Insert(x, Take(xs[1..], k - 1));
      assert Take([xs[0]] + r, k) == [xs[0]] + Take(r, k - 1);
      assert Take([xs[0]] + s, k) == [xs[0]] + Take(s, k - 1);
    }
  }

  lemma AddToTop(all: seq<Issue>, kept: seq<Issue>, x: Issue, k: nat)
    requires Top(kept, k) == Top(all, k)
    ensures Top(kept + [x], k) == Top(all + [x], k)
  {
    assert (all + [x])[..|all|] == all && (kept + [x])[..|kept|] == kept;
    InsertTake(x, Sort(all), k);
    InsertTake(x, Sort(kept), k);
  }

  lemma TrimToTop(kept: seq<Issue>, k: nat)
    requires k <= |kept|
    ensures |Sort(kept)| == |kept| && Top(Sort(kept)[..k], k) == Top(kept, k)
  {
    SortSorts(kept);
    assert |multiset(Sort(kept))| == |multiset(kept)|;
    assert |multiset(Sort(kept))| == |Sort(kept)|;
    SortOfSorted(Sort(kept)[..k]);
  }

  /** The answer does not depend on the order in which the findings were met. */
  lemma TopOfAnyOrder(xs: seq<Issue>, ys: seq<Issue>, k: nat)
    requires multiset(xs) == multiset(ys)
    ensures Top(xs, k) == Top(ys, k)
  {
    SortSorts(xs);
    SortSorts(ys);
    SortedUnique(Sort(xs), Sort(ys));
  }

  /** An error comes first whenever there is one. */
  lemma ErrorFirst(xs: seq<Issue>, k: nat)
    requires k > 0 && exists x :: x in xs && x.severity.Error?
    ensures Top(xs, k) != [] && Top(xs, k)[0].severity.Error?
  {
    SortSorts(xs);
    var x :| x in xs && x.severity.Error?;
    var s := Sort(xs);
    assert x in multiset(s);
    var i :| 0 <= i < |s| && s[i] == x;
    assert i > 0 ==> !Before(s[i], s[0]);
    hide CompareTexts, Sort;
  }

  /** The report lists as many findings as it may, in that order, each at most as often as it
      was met; and whatever it leaves out comes after all that it lists. */
  lemma ReportInOrder(all: seq<Issue>, k: nat)
    ensures var r := Top(all, k);
            && |r| == (if |all| <= k then |all| else k)
            && (forall i, j :: 0 <= i < j < |r| ==> r[i] == r[j] || ReportedFirst(r[i], r[j]))
            && multiset(r) <= multiset(all)
            && forall x, y :: x in r && y in multiset(all) - multiset(r) ==> x == y || ReportedFirst(x, y)
  {
    SortSorts(all);
    var s, r := Sort(all), Top(all, k);
    SameLength(s, all);
    assert r == s[..|r|];
    hide Sort, Top, Take, Before, ReportedFirst;
    SortedInOrder(s);
    RestInOrder(s, |r|, all);
  }

  lemma SameLength(xs: seq<Issue>, ys: seq<Issue>)
    requires multiset(xs) == multiset(ys)
    ensures |xs| == |ys|
  {
    assert |multiset(xs)| == |xs| && |multiset(ys)| == |ys|;
  }

  lemma RestInOrder(xs: seq<Issue>, n: nat, all: seq<Issue>)
    requires n <= |xs| && multiset(xs) == multiset(all)
    requires forall i, j :: 0 <= i < j < |xs| ==> xs[i] == xs[j] || ReportedFirst(xs[i], xs[j])
    ensures multiset(xs[..n]) <= multiset(all)
    ensures forall x, y :: x in xs[..n] && y in multiset(all) - multiset(xs[..n]) ==> x == y || ReportedFirst(x, y)
  {
    hide ReportedFirst;
    Parts(xs, n);
    forall x, y | x in xs[..n] && y in multiset(all) - multiset(xs[..n]) ensures x == y || ReportedFirst(x, y) {
      LaterInOrder(xs, n, x, y);
    }
  }

  lemma Parts(xs: seq<Issue>, n: nat)
    requires n <= |xs|
    ensures multiset(xs[..n]) <= multiset(xs) && multiset(xs) - multiset(xs[..n]) == multiset(xs[n..])
  {
    assert xs == xs[..n] + xs[n..];
  }

  lemma SortedInOrder(xs: seq<Issue>)
    requires Sorted(xs)
    ensures forall i, j :: 0 <= i < j < |xs| ==> xs[i] == xs[j] || ReportedFirst(xs[i], xs[j])
  {
    hide Before, ReportedFirst;
    forall i, j | 0 <= i < j < |xs| ensures xs[i] == xs[j] || ReportedFirst(xs[i], xs[j]) {
      Neither(xs[i], xs[j]);
      BeforeMeaning(xs[i], xs[j]);
    }
  }

  lemma LaterInOrder(xs: seq<Issue>, n: nat, x: Issue, y: Issue)
    requires forall i, j :: 0 <= i < j < |xs| ==> xs[i] == xs[j] || ReportedFirst(xs[i], xs[j])
    requires n <= |xs| && x in xs[..n] && y in multiset(xs[n..])
    ensures x == y || ReportedFirst(x, y)
  {
    hide ReportedFirst;
    var i :| 0 <= i < n && xs[i] == x;
    var j :| 0 <= j < |xs[n..]| && xs[n..][j] == y;
    assert xs[n + j] == y;
  }

  function Errors(xs: seq<Issue>): nat
    decreases |xs|
  {
    if xs == [] then 0 else Errors(xs[..|xs| - 1]) + if xs[|xs| - 1].severity.Error? then 1 else 0
  }

  lemma ErrorsSnoc(xs: seq<Issue>, x: Issue)
    ensures Errors(xs + [x]) == Errors(xs) + if x.severity.Error? then 1 else 0
  {
    assert (xs + [x])[..|xs|] == xs;
  }

  /** Where the errors stand in a list. */
  ghost function ErrorPlaces(xs: seq<Issue>): set<nat> {
    set i: nat | i < |xs| && xs[i].severity == Error
  }

  lemma PlacesSnoc(xs: seq<Issue>, n: nat)
    requires |xs| == n + 1
    ensures ErrorPlaces(xs) == if xs[n].severity == Error then ErrorPlaces(xs[..n]) + {n} else ErrorPlaces(xs[..n])
    ensures n !in ErrorPlaces(xs[..n])
  {
  }

  /** The errors are counted one by one. */
  lemma {:induction false} ErrorsMeaning(xs: seq<Issue>)
    ensures Errors(xs) == |ErrorPlaces(xs)|
    decreases |xs|
  {
    if xs != [] {
      ErrorsMeaning(xs[..|xs| - 1]);
      PlacesSnoc(xs, |xs| - 1);
      hide ErrorPlaces;
    }
  }

  // --------------------------------------------------------------------- buffer

  class Buffer {
    const maxIssues: nat
    var retainedIssues: seq<Issue>
    var totalFindingCount: nat
    var errorCount: nat
    var warningCount: nat
    /** Every finding so far, in the order of the calls. */
    ghost var all: seq<Issue>

    ghost predicate Valid()
      reads this
    {
      && Top(retainedIssues, maxIssues) == Top(all, maxIssues)
      && |retainedIssues| < 2 * maxIssues && |retainedIssues| <= |all|
      && (|all| <= maxIssues ==> |retainedIssues| == |all|)
      && (maxIssues <= |all| ==> maxIssues <= |retainedIssues|)
      && totalFindingCount == |all| == errorCount + warningCount
      && errorCount == Errors(all)
    }

    constructor (maxIssues: nat)
      requires maxIssues > 0
      ensures Valid() && all == [] && this.maxIssues == maxIssues
    {
      this.maxIssues := maxIssues;
      retainedIssues, totalFindingCount, errorCount, warningCount := [], 0, 0, 0;
      all := [];
    }

    /** Counts a finding, and keeps it unless enough smaller ones are kept. */
    method AddIssue(issue: Issue)
      requires Valid()
      modifies this
      ensures Valid() && all == old(all) + [issue]
    {
      hide Sort, Top, Take, Errors, Rank;
      totalFindingCount := totalFindingCount + 1;
      if issue.severity.Error? {
        errorCount := errorCount + 1;
      } else {
        warningCount := warningCount + 1;
      }
      AddToTop(all, retainedIssues, issue, maxIssues);
      ErrorsSnoc(all, issue);
      retainedIssues := retainedIssues + [issue];
      all := all + [issue];
      if |retainedIssues| >= maxIssues * 2 {
        TrimToTop(retainedIssues, maxIssues);
        retainedIssues := Sort(retainedIssues)[..maxIssues];
      }
    }

    /** The report: the first findings of the full sorted list. */
    method Finish() returns (returned: seq<Issue>)
      requires Valid()
      modifies this`retainedIssues
      ensures returned == Top(all, maxIssues)
      ensures |returned| == if |all| <= maxIssues then |all| else maxIssues
    {
      SortSorts(retainedIssues);
      assert |multiset(Sort(retainedIssues))| == |multiset(retainedIssues)|;
      assert |multiset(Sort(retainedIssues))| == |Sort(retainedIssues)|;
      retainedIssues := Sort(retainedIssues);
      returned := if maxIssues <= |retainedIssues| then retainedIssues[..maxIssues] else retainedIssues;
    }
  }
}
