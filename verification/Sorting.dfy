/** Sorting by a text key, and the canonical list of a set of elements. */
module Sorting {
  import opened JsonText

  function Insert<T>(key: T -> Text, x: T, xs: seq<T>): seq<T> {
    if xs == [] || !Less(key(xs[0]), key(x)) then [x] + xs
    else [xs[0]] + Insert(key, x, xs[1..])
  }

  /** The sort of the standard library: ascending keys. */
  function Sort<T>(key: T -> Text, xs: seq<T>): seq<T> {
    if xs == [] then [] else Insert(key, xs[0], Sort(key, xs[1..]))
  }

  /** The list without the later copies of an element. */
  function Unique<T(==)>(xs: seq<T>): seq<T>
    decreases |xs|
  {
    if xs == [] then []
    else
      var n := |xs| - 1;
      if xs[n] in xs[..n] then Unique(xs[..n]) else Unique(xs[..n]) + [xs[n]]
  }

  /** The list without an element that repeats its left neighbour. */
  function Dedup<T(==)>(xs: seq<T>): seq<T>
    decreases |xs|
  {
    if |xs| <= 1 then xs
    else
      var n := |xs| - 1;
      if xs[n] == xs[n - 1] then Dedup(xs[..n]) else Dedup(xs[..n]) + [xs[n]]
  }

  predicate Sorted<T>(key: T -> Text, xs: seq<T>) {
    forall i, j :: 0 <= i < j < |xs| ==> !Less(key(xs[j]), key(xs[i]))
  }

  predicate StrictlySorted<T>(key: T -> Text, xs: seq<T>) {
    forall i, j :: 0 <= i < j < |xs| ==> Less(key(xs[i]), key(xs[j]))
  }

  predicate NoRepeats<T(==)>(xs: seq<T>) {
    forall i, j :: 0 <= i < j < |xs| ==> xs[i] != xs[j]
  }

  ghost predicate SameElements<T(!new)>(xs: seq<T>, ys: seq<T>) {
    forall x :: x in xs <==> x in ys
  }

  /** Different elements have different keys. */
  ghost predicate Keyed<T(!new)>(key: T -> Text, xs: seq<T>) {
    forall x, y :: x in xs && y in xs && key(x) == key(y) ==> x == y
  }

  lemma {:induction false} InsertSorts<T>(key: T -> Text, x: T, xs: seq<T>)
    requires Sorted(key, xs)
    ensures Sorted(key, Insert(key, x, xs)) && multiset(Insert(key, x, xs)) == multiset(xs) + multiset{x}
  {
    hide Less;
    if xs != [] && Less(key(xs[0]), key(x)) {
      var r := Insert(key, x, xs[1..]);
      InsertSorts(key, x, xs[1..]);
      assert xs == [xs[0]] + xs[1..];
      forall j | 0 <= j < |r| ensures !Less(key(r[j]), key(xs[0])) {
        assert r[j] in multiset(r);
        assert r[j] == x || r[j] in xs[1..];
        LessTotal(key(xs[0]), key(x));
      }
    } else {
      forall j | 0 <= j < |xs| ensures !Less(key(xs[j]), key(x)) {
        if Less(key(xs[j]), key(x)) && j > 0 {
          LessTotal(key(xs[0]), key(xs[j]));
          if Less(key(xs[0]), key(xs[j])) { LessTrans(key(xs[0]), key(xs[j]), key(x)); }
        }
      }
    }
  }

  lemma {:induction false} SortSorts<T>(key: T -> Text, xs: seq<T>)
    ensures Sorted(key, Sort(key, xs)) && multiset(Sort(key, xs)) == multiset(xs)
  {
    hide Less, Insert;
    if xs != [] {
      SortSorts(key, xs[1..]);
      InsertSorts(key, xs[0], Sort(key, xs[1..]));
      assert xs == [xs[0]] + xs[1..];
    }
  }

  lemma SortKeeps<T(!new)>(key: T -> Text, xs: seq<T>)
    ensures SameElements(Sort(key, xs), xs) && |Sort(key, xs)| == |xs|
  {
    SortSorts(key, xs);
    var s := Sort(key, xs);
    assert |multiset(s)| == |s| && |multiset(xs)| == |xs|;
    forall x ensures x in s <==> x in xs {
      assert x in s <==> x in multiset(s);
      assert x in xs <==> x in multiset(xs);
    }
  }

  lemma {:induction false} UniqueKeeps<T(!new)>(xs: seq<T>)
    ensures SameElements(Unique(xs), xs) && NoRepeats(Unique(xs))
    decreases |xs|
  {
    if xs != [] {
      UniqueKeeps(xs[..|xs| - 1]);
      assert xs == xs[..|xs| - 1] + [xs[|xs| - 1]];
    }
  }

  /** Sorting a list without repeats by distinct keys is strict. */
  lemma SortStrict<T(!new)>(key: T -> Text, xs: seq<T>)
    requires NoRepeats(xs) && Keyed(key, xs)
    ensures StrictlySorted(key, Sort(key, xs)) && SameElements(Sort(key, xs), xs)
  {
    hide Less;
    SortSorts(key, xs);
    SortKeeps(key, xs);
    var s := Sort(key, xs);
    NoRepeatsIsMultiset(xs);
    NoRepeatsIsMultiset(s);
    forall i, j | 0 <= i < j < |s| ensures Less(key(s[i]), key(s[j])) {
      LessTotal(key(s[i]), key(s[j]));
      assert s[i] in xs && s[j] in xs;
    }
  }

  lemma {:induction false} NoRepeatsIsMultiset<T>(xs: seq<T>)
    ensures NoRepeats(xs) <==> forall x :: x in multiset(xs) ==> multiset(xs)[x] == 1
    decreases |xs|
  {
    if xs != [] {
      var n := |xs| - 1;
      var init, last := xs[..n], xs[n];
      NoRepeatsIsMultiset(init);
      assert xs == init + [last];
      assert multiset(xs) == multiset(init) + multiset{last};
      if NoRepeats(xs) {
        assert last !in init;
        assert last !in multiset(init);
      } else if NoRepeats(init) {
        assert last in init;
        assert multiset(xs)[last] == 2;
      } else {
        var x :| x in multiset(init) && multiset(init)[x] != 1;
        assert multiset(xs)[x] >= 2;
      }
    }
  }

  /** A strictly sorted list is determined by its elements. */
  lemma {:induction false} StrictlySortedUnique<T(!new)>(key: T -> Text, xs: seq<T>, ys: seq<T>)
    requires StrictlySorted(key, xs) && StrictlySorted(key, ys) && SameElements(xs, ys)
    ensures xs == ys
  {
    hide Less;
    assert |xs| > 0 ==> xs[0] in ys;
    assert |ys| > 0 ==> ys[0] in xs;
    if xs != [] {
      SameHead(key, xs, ys);
      SameTail(key, xs, ys);
      StrictlySortedUnique(key, xs[1..], ys[1..]);
      assert xs == [xs[0]] + xs[1..] && ys == [ys[0]] + ys[1..];
    }
  }

  lemma SameHead<T(!new)>(key: T -> Text, xs: seq<T>, ys: seq<T>)
    requires StrictlySorted(key, xs) && StrictlySorted(key, ys) && SameElements(xs, ys) && xs != [] && ys != []
    ensures xs[0] == ys[0]
  {
    hide Less;
    assert xs[0] in ys && ys[0] in xs;
    var i :| 0 <= i < |ys| && ys[i] == xs[0];
    var j :| 0 <= j < |xs| && xs[j] == ys[0];
    LessTotal(key(xs[0]), key(ys[0]));
  }

  lemma SameTail<T(!new)>(key: T -> Text, xs: seq<T>, ys: seq<T>)
    requires StrictlySorted(key, xs) && StrictlySorted(key, ys) && SameElements(xs, ys)
    requires xs != [] && ys != [] && xs[0] == ys[0]
    ensures SameElements(xs[1..], ys[1..])
  {
    hide Less;
    HeadOnce(key, xs);
    HeadOnce(key, ys);
    forall x ensures x in xs[1..] <==> x in ys[1..] {
      assert x in xs <==> x == xs[0] || x in xs[1..];
      assert x in ys <==> x == ys[0] || x in ys[1..];
    }
  }

  lemma HeadOnce<T(!new)>(key: T -> Text, xs: seq<T>)
    requires StrictlySorted(key, xs) && xs != []
    ensures xs[0] !in xs[1..]
  {
    hide Less;
    forall i | 0 < i < |xs| ensures xs[i] != xs[0] {
      LessTotal(key(xs[0]), key(xs[i]));
    }
  }

  /** Dropping neighbouring copies from a sorted list leaves a strict one. */
  lemma {:induction false} DedupStrict<T(!new)>(key: T -> Text, xs: seq<T>)
    requires Sorted(key, xs) && Keyed(key, xs)
    ensures StrictlySorted(key, Dedup(xs)) && SameElements(Dedup(xs), xs)
    ensures xs != [] ==> Dedup(xs) != [] && Dedup(xs)[|Dedup(xs)| - 1] == xs[|xs| - 1]
    decreases |xs|
  {
    hide Less;
    if |xs| > 1 {
      var n := |xs| - 1;
      var init, d := xs[..n], Dedup(xs[..n]);
      assert xs == init + [xs[n]];
      DedupStrict(key, init);
      if xs[n] != xs[n - 1] {
        LessTotal(key(xs[n - 1]), key(xs[n]));
        assert xs[n - 1] in xs && xs[n] in xs;
        hide Dedup, Sorted, Keyed;
        LargerLast(key, d, xs[n]);
      }
    }
  }

  lemma LargerLast<T>(key: T -> Text, xs: seq<T>, x: T)
    requires StrictlySorted(key, xs) && xs != [] && Less(key(xs[|xs| - 1]), key(x))
    ensures StrictlySorted(key, xs + [x])
  {
    hide Less;
    forall i | 0 <= i < |xs| ensures Less(key(xs[i]), key(x)) {
      if i < |xs| - 1 {
        LessTrans(key(xs[i]), key(xs[|xs| - 1]), key(x));
      }
    }
  }

  /** Two lists with the same elements have the same canonical form. */
  lemma CanonicalList<T(!new)>(key: T -> Text, xs: seq<T>, ys: seq<T>)
    requires SameElements(xs, ys) && Keyed(key, xs)
    ensures Dedup(Sort(key, xs)) == Dedup(Sort(key, ys))
  {
    hide Less, Sort, Dedup;
    SortSorts(key, xs);
    SortSorts(key, ys);
    SortKeeps(key, xs);
    SortKeeps(key, ys);
    assert forall x :: x in Sort(key, xs) ==> x in xs;
    assert forall x :: x in Sort(key, ys) ==> x in xs;
    DedupStrict(key, Sort(key, xs));
    DedupStrict(key, Sort(key, ys));
    assert SameElements(Dedup(Sort(key, xs)), Dedup(Sort(key, ys)));
    StrictlySortedUnique(key, Dedup(Sort(key, xs)), Dedup(Sort(key, ys)));
  }

  lemma CanonicalUnique<T(!new)>(key: T -> Text, xs: seq<T>, ys: seq<T>)
    requires SameElements(xs, ys) && Keyed(key, xs)
    ensures Sort(key, Unique(xs)) == Sort(key, Unique(ys))
    ensures StrictlySorted(key, Sort(key, Unique(xs))) && SameElements(Sort(key, Unique(xs)), xs)
  {
    hide Less, Sort, Unique;
    UniqueKeeps(xs);
    UniqueKeeps(ys);
    assert forall x :: x in Unique(xs) ==> x in xs;
    assert forall x :: x in Unique(ys) ==> x in xs;
    SortStrict(key, Unique(xs));
    SortStrict(key, Unique(ys));
    StrictlySortedUnique(key, Sort(key, Unique(xs)), Sort(key, Unique(ys)));
  }

  lemma StrictNoRepeats<T(!new)>(key: T -> Text, xs: seq<T>)
    requires StrictlySorted(key, xs)
    ensures NoRepeats(xs)
  {
    hide Less;
    forall i, j | 0 <= i < j < |xs| ensures xs[i] != xs[j] {
      assert Less(key(xs[i]), key(xs[j]));
      LessTotal(key(xs[i]), key(xs[j]));
    }
  }
}
