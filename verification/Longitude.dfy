/** The smallest arc of the circle that covers a list of longitudes, over exact
    numbers: it leaves out the largest gap between neighbours. */
module Longitude {

  // --------------------------------------------------------------- the circle

  function Trunc(x: real): int {
    if x >= 0.0 then x.Floor else -((-x).Floor)
  }

  /** The remainder operator on numbers: it takes the sign of the dividend. */
  function Rem(x: real, m: real): real
    requires m > 0.0
  {
    x - m * (Trunc(x / m) as real)
  }

  function NormalizeLon360(lon: real): real {
    var value := Rem(Rem(lon, 360.0) + 360.0, 360.0);
    if value == 360.0 then 0.0 else value
  }

  function WrapLon180(lon: real): real {
    var value := Rem(Rem(lon + 180.0, 360.0) + 360.0, 360.0) - 180.0;
    if value == -180.0 then 180.0 else value
  }

  /** The same place on the circle, some whole turns apart. */
  ghost predicate Turns(a: real, b: real, k: int) {
    b == a + 360.0 * (k as real)
  }

  ghost predicate SamePlace(a: real, b: real) {
    exists k :: Turns(a, b, k)
  }

  lemma RemBounds(x: real)
    ensures Turns(x, Rem(x, 360.0), -Trunc(x / 360.0))
    ensures -360.0 < Rem(x, 360.0) < 360.0 && (x >= 0.0 ==> Rem(x, 360.0) >= 0.0)
  {
    var q := x / 360.0;
    assert x == 360.0 * q;
    if q >= 0.0 {
      var f := q.Floor;
      assert f as real <= q < f as real + 1.0;
    } else {
      var f := (-q).Floor;
      assert f as real <= -q < f as real + 1.0;
    }
  }

  lemma NormalizeMeaning(lon: real) returns (k: int)
    ensures 0.0 <= NormalizeLon360(lon) < 360.0 && Turns(lon, NormalizeLon360(lon), k)
  {
    RemBounds(lon);
    RemBounds(Rem(lon, 360.0) + 360.0);
    k := -Trunc(lon / 360.0) + 1 - Trunc((Rem(lon, 360.0) + 360.0) / 360.0);
    hide Rem, Trunc;
    assert Turns(lon, NormalizeLon360(lon), k);
  }

  /** Normalizing keeps the place and lands in [0, 360). */
  lemma NormalizeKeepsPlace(lon: real)
    ensures 0.0 <= NormalizeLon360(lon) < 360.0 && SamePlace(lon, NormalizeLon360(lon))
  {
    var k := NormalizeMeaning(lon);
  }

  lemma WrapMeaning(lon: real)
    ensures -180.0 < WrapLon180(lon) <= 180.0 && SamePlace(lon, WrapLon180(lon))
  {
    RemBounds(lon + 180.0);
    RemBounds(Rem(lon + 180.0, 360.0) + 360.0);
    var k := -Trunc((lon + 180.0) / 360.0) + 1 - Trunc((Rem(lon + 180.0, 360.0) + 360.0) / 360.0);
    hide Rem, Trunc;
    assert Turns(lon, WrapLon180(lon), k) || Turns(lon, WrapLon180(lon), k + 1);
  }

  /** The longitude lies on the arc that starts at a and spans w. */
  ghost predicate Covered(lon: real, a: real, w: real) {
    exists p :: SamePlace(lon, p) && a <= p <= a + w
  }

  // ------------------------------------------------------------------- sorting

  function Insert(x: real, xs: seq<real>): seq<real> {
    if xs == [] || x < xs[0] then [x] + xs else [xs[0]] + Insert(x, xs[1..])
  }

  function Sort(xs: seq<real>): seq<real> {
    if xs == [] then [] else Insert(xs[0], Sort(xs[1..]))
  }

  predicate Ascending(xs: seq<real>) {
    forall i, j :: 0 <= i < j < |xs| ==> xs[i] < xs[j]
  }

  predicate NoRepeats(xs: seq<real>) {
    forall i, j :: 0 <= i < j < |xs| ==> xs[i] != xs[j]
  }

  lemma {:induction false} InsertAscends(x: real, xs: seq<real>)
    requires Ascending(xs) && x !in xs
    ensures Ascending(Insert(x, xs)) && forall y :: y in Insert(x, xs) <==> y == x || y in xs
  {
    if xs != [] && x >= xs[0] {
      var r := Insert(x, xs[1..]);
      InsertAscends(x, xs[1..]);
      assert xs == [xs[0]] + xs[1..];
      forall j | 0 <= j < |r| ensures xs[0] < r[j] {
        assert r[j] in r;
      }
    }
  }

  lemma {:induction false} SortAscends(xs: seq<real>)
    requires NoRepeats(xs)
    ensures Ascending(Sort(xs)) && forall y :: y in Sort(xs) <==> y in xs
  {
    hide Insert;
    if xs != [] {
      assert xs == [xs[0]] + xs[1..];
      assert xs[0] !in xs[1..];
      SortAscends(xs[1..]);
      InsertAscends(xs[0], Sort(xs[1..]));
    }
  }

  lemma HeadOnce(xs: seq<real>)
    requires Ascending(xs) && xs != []
    ensures xs[0] !in xs[1..] && Ascending(xs[1..])
  {
    forall i | 0 < i < |xs| ensures xs[i] != xs[0] {
    }
  }

  lemma HeadOrTail(xs: seq<real>, x: real)
    requires xs != []
    ensures x in xs <==> x == xs[0] || x in xs[1..]
  {
    assert xs == [xs[0]] + xs[1..];
  }

  /** An ascending list is determined by its elements. */
  lemma {:induction false} AscendingUnique(xs: seq<real>, ys: seq<real>)
    requires Ascending(xs) && Ascending(ys) && forall x :: x in xs <==> x in ys
    ensures xs == ys
  {
    assert |xs| > 0 ==> xs[0] in xs && xs[0] in ys;
    assert |ys| > 0 ==> ys[0] in ys && ys[0] in xs;
    if xs != [] {
      var i :| 0 <= i < |ys| && ys[i] == xs[0];
      var j :| 0 <= j < |xs| && xs[j] == ys[0];
      assert xs[0] == ys[0];
      assert xs == [xs[0]] + xs[1..] && ys == [ys[0]] + ys[1..];
      HeadOnce(xs);
      HeadOnce(ys);
      forall x ensures x in xs[1..] <==> x in ys[1..] {
        HeadOrTail(xs, x);
        HeadOrTail(ys, x);
      }
      AscendingUnique(xs[1..], ys[1..]);
    }
  }

  // -------------------------------------------------------------------- the gaps

  /** From a longitude to its right neighbour; the last one's is the first, a turn on. */
  function Gap(sorted: seq<real>, i: nat): real
    requires i < |sorted|
  {
    (if i == |sorted| - 1 then sorted[0] + 360.0 else sorted[i + 1]) - sorted[i]
  }

  /** The first of the largest gaps. */
  predicate LargestGap(sorted: seq<real>, g: nat) {
    && g < |sorted|
    && (forall i :: 0 <= i < |sorted| ==> Gap(sorted, i) <= Gap(sorted, g))
    && (forall i :: 0 <= i < g ==> Gap(sorted, i) < Gap(sorted, g))
  }

  datatype Interval = Interval(minX: real, maxX: real)

  /** The arc that leaves out a gap. */
  function Around(sorted: seq<real>, g: nat): Interval
    requires g < |sorted|
  {
    var start := sorted[(g + 1) % |sorted|];
    Interval(start, if sorted[g] < start then sorted[g] + 360.0 else sorted[g])
  }

  predicate InTurn(sorted: seq<real>) {
    Ascending(sorted) && forall x :: x in sorted ==> 0.0 <= x < 360.0
  }

  /** The arc around a gap is the rest of the circle. */
  lemma AroundWidth(sorted: seq<real>, g: nat)
    requires InTurn(sorted) && |sorted| >= 2 && g < |sorted|
    ensures var r := Around(sorted, g);
            r.maxX - r.minX == 360.0 - Gap(sorted, g) && 0.0 <= r.minX < 360.0 && r.minX <= r.maxX
              && Gap(sorted, g) > 0.0
  {
    if g < |sorted| - 1 {
      assert (g + 1) % |sorted| == g + 1;
    } else {
      assert (g + 1) % |sorted| == 0;
    }
    assert sorted[0] in sorted && sorted[g] in sorted;
    assert sorted[(g + 1) % |sorted|] in sorted;
  }

  lemma AroundInner(sorted: seq<real>, g: nat, j: nat)
    requires InTurn(sorted) && g < |sorted| - 1 && j < |sorted|
    ensures var r := Around(sorted, g);
            r.minX <= sorted[j] <= r.maxX || r.minX <= sorted[j] + 360.0 <= r.maxX
  {
    assert (g + 1) % |sorted| == g + 1;
    assert sorted[j] in sorted && sorted[g] in sorted && sorted[g + 1] in sorted;
    assert j <= g ==> sorted[j] <= sorted[g];
    assert j >= g + 1 ==> sorted[j] >= sorted[g + 1];
  }

  lemma AroundLast(sorted: seq<real>, g: nat, j: nat)
    requires InTurn(sorted) && |sorted| >= 2 && g == |sorted| - 1 && j < |sorted|
    ensures var r := Around(sorted, g);
            r.minX <= sorted[j] <= r.maxX || r.minX <= sorted[j] + 360.0 <= r.maxX
  {
    assert (g + 1) % |sorted| == 0;
    assert sorted[j] in sorted && sorted[g] in sorted && sorted[0] in sorted;
    assert sorted[0] <= sorted[j] <= sorted[g];
  }

  /** Every longitude of the list lies on the arc around any gap. */
  lemma AroundCovers(sorted: seq<real>, g: nat, j: nat)
    requires InTurn(sorted) && |sorted| >= 2 && g < |sorted| && j < |sorted|
    ensures var r := Around(sorted, g);
            r.minX <= sorted[j] <= r.maxX || r.minX <= sorted[j] + 360.0 <= r.maxX
  {
    hide Around, InTurn;
    if g < |sorted| - 1 {
      AroundInner(sorted, g, j);
    } else {
      AroundLast(sorted, g, j);
    }
  }

  // ------------------------------------------------------------------- minimality

  /** Where a covered longitude of one turn lies, seen from the start of a short arc. */
  lemma CoveredAt(x: real, a: real, w: real)
    requires 0.0 <= x < 360.0 && 0.0 <= a < 360.0 && 0.0 <= w < 360.0 && Covered(x, a, w)
    ensures if x >= a then x <= a + w else x + 360.0 <= a + w
  {
    var p :| SamePlace(x, p) && a <= p <= a + w;
    var k :| Turns(x, p, k);
    assert -360.0 < 360.0 * (k as real) < 720.0;
    assert k == 0 || k == 1;
  }

  lemma FirstFrom(sorted: seq<real>, a: real) returns (j: nat)
    requires Ascending(sorted)
    ensures j <= |sorted| && (forall i :: 0 <= i < j ==> sorted[i] < a)
    ensures (forall i :: j <= i < |sorted| ==> sorted[i] >= a)
  {
    j := 0;
    while j < |sorted| && sorted[j] < a
      invariant j <= |sorted| && forall i :: 0 <= i < j ==> sorted[i] < a
    {
      j := j + 1;
    }
  }

  /** No arc that covers the list is narrower than the rest of the circle around the
      largest gap. */
  lemma NoNarrowerArc(sorted: seq<real>, g: nat, a: real, w: real)
    requires InTurn(sorted) && |sorted| >= 2 && LargestGap(sorted, g)
    requires 0.0 <= a < 360.0 && w >= 0.0 && forall x :: x in sorted ==> Covered(x, a, w)
    ensures w >= 360.0 - Gap(sorted, g)
  {
    hide Covered;
    AroundWidth(sorted, g);
    if w < 360.0 {
      var n := |sorted|;
      var j := FirstFrom(sorted, a);
      forall i | 0 <= i < n ensures 0.0 <= sorted[i] < 360.0
        && if sorted[i] >= a then sorted[i] <= a + w else sorted[i] + 360.0 <= a + w {
        assert sorted[i] in sorted;
        CoveredAt(sorted[i], a, w);
      }
      if 0 < j < n {
        assert Gap(sorted, j - 1) == sorted[j] - sorted[j - 1];
      } else {
        assert Gap(sorted, n - 1) == sorted[0] + 360.0 - sorted[n - 1];
      }
    }
  }

  // ------------------------------------------------------------------ the interval

  /** What the interval of some longitudes is, by their places alone. */
  function NormalizedAll(lons: seq<real>): (r: seq<real>)
    ensures |r| == |lons| && forall i :: 0 <= i < |lons| ==> r[i] == NormalizeLon360(lons[i])
  {
    seq(|lons|, i requires 0 <= i < |lons| => NormalizeLon360(lons[i]))
  }

  ghost predicate KeysOf(keys: seq<real>, lons: seq<real>) {
    NoRepeats(keys) && forall x :: x in keys <==> x in NormalizedAll(lons)
  }

  datatype LongitudeInterval = LongitudeInterval(minX: real, maxX: real, sourceMinX: real, sourceMaxX: real,
                                                 crosses: bool)

  /** A source longitude kept for a place: one of the input, and the one in
      (-180, 180] if the input has it. */
  ghost predicate SourceFor(lons: seq<real>, key: real, source: real) {
    && source in lons && NormalizeLon360(source) == key
    && (WrapLon180(key) in lons && NormalizeLon360(WrapLon180(key)) == key ==> source == WrapLon180(key))
  }

  /** Of the input longitudes at one place, the one in (-180, 180] if there is one. */
  ghost predicate Preferred(lons: seq<real>, source: real) {
    forall lon :: lon in lons && SamePlace(lon, source) && -180.0 < lon <= 180.0 ==> source == lon
  }

  lemma SameThrough(a: real, b: real, c: real)
    requires SamePlace(a, b) && (SamePlace(b, c) || SamePlace(c, b))
    ensures SamePlace(a, c) && SamePlace(c, a)
  {
    var j :| Turns(a, b, j);
    var k: int;
    if SamePlace(b, c) {
      k :| Turns(b, c, k);
    } else {
      var m :| Turns(c, b, m);
      k := -m;
    }
    assert Turns(a, c, j + k) && Turns(c, a, -j - k);
  }

  lemma SameInTurn(a: real, b: real, from: real)
    requires SamePlace(a, b)
    requires || (from <= a < from + 360.0 && from <= b < from + 360.0)
             || (from < a <= from + 360.0 && from < b <= from + 360.0)
    ensures a == b
  {
    var k :| Turns(a, b, k);
    assert -360.0 < 360.0 * (k as real) < 360.0;
  }

  /** The source kept for a place is the preferred one. */
  lemma SourcePreferred(lons: seq<real>, key: real, source: real)
    requires SourceFor(lons, key, source)
    ensures Preferred(lons, source)
  {
    NormalizeKeepsPlace(source);
    WrapMeaning(key);
    hide NormalizeLon360, WrapLon180, SamePlace;
    forall lon | lon in lons && SamePlace(lon, source) && -180.0 < lon <= 180.0 ensures source == lon {
      NormalizeKeepsPlace(lon);
      SameThrough(lon, source, key);
      SameThrough(key, lon, NormalizeLon360(lon));
      SameInTurn(key, NormalizeLon360(lon), 0.0);
      SameThrough(lon, key, WrapLon180(key));
      SameInTurn(lon, WrapLon180(key), -180.0);
    }
  }

  ghost predicate Sources(lons: seq<real>, keys: seq<real>, sources: map<real, real>) {
    && (forall key :: key in keys <==> key in sources)
    && forall key :: key in sources ==> SourceFor(lons, key, sources[key])
  }

  /** The places of the input, each once, with a source for each. */
  method Collect(lons: seq<real>) returns (keys: seq<real>, sources: map<real, real>)
    ensures KeysOf(keys, lons) && Sources(lons, keys, sources)
  {
    keys, sources := [], map[];
    for n := 0 to |lons|
      invariant KeysOf(keys, lons[..n]) && Sources(lons[..n], keys, sources)
    {
      var lon := lons[n];
      var key := NormalizeLon360(lon);
      ghost var was, before := sources, keys;
      if key !in sources || lon == WrapLon180(key) {
        if key !in sources {
          keys := keys + [key];
        }
        sources := sources[key := lon];
      }
      CollectOne(lons, n, before, was, keys, sources);
    }
    assert lons[..|lons|] == lons;
  }

  lemma CollectOne(lons: seq<real>, n: nat, keys: seq<real>, sources: map<real, real>, keys': seq<real>,
                   sources': map<real, real>)
    requires n < |lons| && KeysOf(keys, lons[..n]) && Sources(lons[..n], keys, sources)
    requires var lon, key := lons[n], NormalizeLon360(lons[n]);
             && keys' == (if key !in sources then keys + [key] else keys)
             && sources' == (if key !in sources || lon == WrapLon180(key) then sources[key := lon] else sources)
    ensures KeysOf(keys', lons[..n + 1]) && Sources(lons[..n + 1], keys', sources')
  {
    var ls, ms, key := lons[..n], lons[..n + 1], NormalizeLon360(lons[n]);
    assert ms == ls + [lons[n]];
    assert NormalizedAll(ms) == NormalizedAll(ls) + [key];
    hide NormalizeLon360, WrapLon180, NormalizedAll, SourceFor;
    assert KeysOf(keys', ms);
    forall k | k in sources' ensures SourceFor(ms, k, sources'[k]) {
      if k in sources { assert SourceFor(ls, k, sources[k]); }
      CollectSource(ls, lons[n], k, sources'[k]);
    }
  }

  lemma CollectSource(lons: seq<real>, lon: real, key: real, source: real)
    requires || (source == lon && key == NormalizeLon360(lon)
                 && (lon == WrapLon180(key) || forall x :: x in lons ==> NormalizeLon360(x) != key))
             || (SourceFor(lons, key, source) && (lon != WrapLon180(key) || NormalizeLon360(lon) != key))
    ensures SourceFor(lons + [lon], key, source)
  {
    hide NormalizeLon360, WrapLon180;
  }

  /** The interval that the places alone determine. */
  ghost predicate IsInterval(lons: seq<real>, minX: real, maxX: real) {
    exists sorted: seq<real>, g: nat {:trigger LargestGap(sorted, g), InTurn(sorted)} ::
      && InTurn(sorted) && (forall x :: x in sorted <==> x in NormalizedAll(lons))
      && if |sorted| == 1 then minX == sorted[0] == maxX
         else LargestGap(sorted, g) && Interval(minX, maxX) == Around(sorted, g)
  }

  method ScanGaps(sorted: seq<real>) returns (g: nat)
    requires InTurn(sorted) && |sorted| >= 2
    ensures LargestGap(sorted, g)
  {
    var largestGap := -1.0;
    g := 0;
    for i := 0 to |sorted|
      invariant i > 0 ==> g < i && largestGap == Gap(sorted, g)
      invariant i == 0 ==> largestGap == -1.0
      invariant forall j :: 0 <= j < i ==> Gap(sorted, j) <= largestGap
      invariant i > 0 ==> forall j :: 0 <= j < g ==> Gap(sorted, j) < Gap(sorted, g)
    {
      var next := if i == |sorted| - 1 then sorted[0] + 360.0 else sorted[i + 1];
      var gap := next - sorted[i];
      PositiveGap(sorted, i);
      if gap > largestGap {
        largestGap, g := gap, i;
      }
    }
  }

  lemma PositiveGap(sorted: seq<real>, i: nat)
    requires InTurn(sorted) && i < |sorted|
    ensures Gap(sorted, i) > 0.0
  {
    assert sorted[0] in sorted && sorted[i] in sorted;
  }

  /** The longitude interval of a map. Its ends are places of the input, and so are the
      source longitudes given for them: each is the one in (-180, 180] if the input has it,
      and the interval crosses when they descend. */
  method ComputeLongitudeInterval(lons: seq<real>) returns (r: LongitudeInterval)
    ensures lons == [] ==> r == LongitudeInterval(-180.0, 180.0, -180.0, 180.0, false)
    ensures lons != [] ==>
              && IsInterval(lons, r.minX, r.maxX)
              && r.sourceMinX in lons && NormalizeLon360(r.sourceMinX) == r.minX
              && r.sourceMaxX in lons && SamePlace(r.sourceMaxX, r.maxX)
              && Preferred(lons, r.sourceMinX) && Preferred(lons, r.sourceMaxX)
              && r.crosses == (r.sourceMinX > r.sourceMaxX)
  {
    hide NormalizeLon360, WrapLon180, IsInterval, LargestGap, SamePlace;
    if |lons| == 0 {
      return LongitudeInterval(-180.0, 180.0, -180.0, 180.0, false);
    }
    if |lons| == 1 {
      var lon := NormalizeLon360(lons[0]);
      OnePlace(lons, lon);
      NormalizeKeepsPlace(lons[0]);
      return LongitudeInterval(lon, lon, lons[0], lons[0], false);
    }
    var keys, sourceByNormalized := Collect(lons);
    var sorted := Sort(keys);
    SortAscends(keys);
    AllInTurn(lons, sorted);
    assert NormalizedAll(lons)[0] in sorted;
    if |sorted| == 1 {
      var lon := sorted[0];
      assert lon in keys;
      var sourceLon := sourceByNormalized[lon];
      OnePlace(lons, lon);
      SourcePreferred(lons, lon, sourceLon);
      NormalizeKeepsPlace(sourceLon);
      return LongitudeInterval(lon, lon, sourceLon, sourceLon, false);
    }
    var gapIndex := ScanGaps(sorted);
    var start := sorted[(gapIndex + 1) % |sorted|];
    var endRaw := sorted[gapIndex];
    assert start in keys && endRaw in keys;
    var end := if endRaw < start then endRaw + 360.0 else endRaw;
    var sourceMinX, sourceMaxX := sourceByNormalized[start], sourceByNormalized[endRaw];
    SourcePreferred(lons, start, sourceMinX);
    SourcePreferred(lons, endRaw, sourceMaxX);
    NormalizeKeepsPlace(sourceMaxX);
    OneTurnOn(sourceMaxX, endRaw);
    FromGap(lons, sorted, gapIndex);
    r := LongitudeInterval(start, end, sourceMinX, sourceMaxX, sourceMinX > sourceMaxX);
  }

  lemma OneTurnOn(a: real, b: real)
    requires SamePlace(a, b)
    ensures SamePlace(a, b + 360.0)
  {
    var k :| Turns(a, b, k);
    assert Turns(a, b + 360.0, k + 1);
  }

  lemma AllInTurn(lons: seq<real>, sorted: seq<real>)
    requires Ascending(sorted) && forall x :: x in sorted ==> x in NormalizedAll(lons)
    ensures InTurn(sorted)
  {
    forall x | x in sorted ensures 0.0 <= x < 360.0 {
      var i :| 0 <= i < |lons| && NormalizedAll(lons)[i] == x;
      NormalizeKeepsPlace(lons[i]);
    }
  }

  lemma OnePlace(lons: seq<real>, lon: real)
    requires lons != [] && forall x :: x in NormalizedAll(lons) <==> x == lon
    ensures IsInterval(lons, lon, lon)
  {
    var sorted := [lon];
    assert NormalizedAll(lons)[0] in NormalizedAll(lons);
    NormalizeKeepsPlace(lons[0]);
    hide NormalizeLon360;
    assert InTurn(sorted);
    assert LargestGap(sorted, 0);
  }

  lemma FromGap(lons: seq<real>, sorted: seq<real>, g: nat)
    requires InTurn(sorted) && (forall x :: x in sorted <==> x in NormalizedAll(lons)) && |sorted| >= 2
    requires LargestGap(sorted, g)
    ensures IsInterval(lons, Around(sorted, g).minX, Around(sorted, g).maxX)
  {
    hide InTurn, LargestGap, NormalizedAll;
  }

  // -------------------------------------------------------------------- theorems

  /** The interval is a covering arc of less than a turn, and no arc that covers every
      input longitude, whole turns aside, is narrower. */
  lemma IntervalIsMinimal(lons: seq<real>, minX: real, maxX: real, a: real, w: real)
    requires IsInterval(lons, minX, maxX)
    requires w >= 0.0 && forall lon :: lon in lons ==> Covered(lon, a, w)
    ensures 0.0 <= minX < 360.0 && minX <= maxX && maxX - minX <= w
  {
    var sorted: seq<real>, g: nat :| InTurn(sorted) && (forall x :: x in sorted <==> x in NormalizedAll(lons))
      && if |sorted| == 1 then minX == sorted[0] == maxX
         else LargestGap(sorted, g) && Interval(minX, maxX) == Around(sorted, g);
    assert sorted[0] in sorted;
    hide InTurn, LargestGap, Around, NormalizeLon360;
    if |sorted| == 1 {
      assert InOneTurn(sorted[0]) by { InTurnAt(sorted, 0); }
    } else {
      AroundWidth(sorted, g);
      var k := NormalizeMeaning(a);
      forall x | x in sorted ensures Covered(x, NormalizeLon360(a), w) {
        var i :| 0 <= i < |lons| && NormalizedAll(lons)[i] == x;
        assert lons[i] in lons;
        var m := NormalizeMeaning(lons[i]);
        CoveredElsewhere(lons[i], a, w, x, m, NormalizeLon360(a), k);
      }
      NoNarrowerArc(sorted, g, NormalizeLon360(a), w);
    }
  }

  /** An arc as wide as the rest of the circle around the largest gap, and covering the
      list, ends where a largest gap begins. */
  lemma EqualArc(sorted: seq<real>, g: nat, a: real, w: real) returns (h: nat)
    requires InTurn(sorted) && |sorted| >= 2 && LargestGap(sorted, g) && w == 360.0 - Gap(sorted, g)
    requires 0.0 <= a < 360.0 && w >= 0.0 && forall x :: x in sorted ==> Covered(x, a, w)
    ensures g <= h < |sorted| && (a + w == sorted[h] || a + w == sorted[h] + 360.0)
  {
    hide Covered;
    AroundWidth(sorted, g);
    var n := |sorted|;
    var j := FirstFrom(sorted, a);
    forall i | 0 <= i < n ensures 0.0 <= sorted[i] < 360.0
      && if sorted[i] >= a then sorted[i] <= a + w else sorted[i] + 360.0 <= a + w {
      assert sorted[i] in sorted;
      CoveredAt(sorted[i], a, w);
    }
    h := if 0 < j < n then j - 1 else n - 1;
    if 0 < j < n {
      assert Gap(sorted, h) == sorted[j] - sorted[j - 1];
    } else {
      assert Gap(sorted, h) == sorted[0] + 360.0 - sorted[n - 1];
    }
  }

  lemma NormalizeIs(lon: real, x: real)
    requires 0.0 <= x < 360.0 && (lon == x || lon == x + 360.0)
    ensures NormalizeLon360(lon) == x
  {
    NormalizeKeepsPlace(lon);
    assert Turns(x, lon, if lon == x then 0 else 1);
    hide NormalizeLon360;
    assert SamePlace(x, lon);
    SameThrough(x, lon, NormalizeLon360(lon));
    SameInTurn(x, NormalizeLon360(lon), 0.0);
  }

  /** Of all covering arcs of the same width, the interval is the one that ends first,
      counted from longitude zero. */
  lemma IntervalEndsFirst(lons: seq<real>, minX: real, maxX: real, a: real)
    requires IsInterval(lons, minX, maxX) && 0.0 <= a < 360.0
    requires forall lon :: lon in lons ==> Covered(lon, a, maxX - minX)
    ensures NormalizeLon360(maxX) <= NormalizeLon360(a + (maxX - minX))
  {
    var sorted: seq<real>, g: nat :| InTurn(sorted) && (forall x :: x in sorted <==> x in NormalizedAll(lons))
      && if |sorted| == 1 then minX == sorted[0] == maxX
         else LargestGap(sorted, g) && Interval(minX, maxX) == Around(sorted, g);
    var w := maxX - minX;
    assert sorted[0] in sorted;
    hide InTurn, LargestGap, NormalizeLon360, Covered;
    forall x | x in sorted ensures Covered(x, a, w) {
      var i :| 0 <= i < |lons| && NormalizedAll(lons)[i] == x;
      assert lons[i] in lons;
      var m := NormalizeMeaning(lons[i]);
      CoveredElsewhere(lons[i], a, w, x, m, a, 0);
    }
    InTurnAt(sorted, 0);
    if |sorted| == 1 {
      CoveredAt(sorted[0], a, 0.0);
      NormalizeIs(a + w, sorted[0]);
      NormalizeIs(maxX, sorted[0]);
    } else {
      InTurnAt(sorted, g);
      AroundWidth(sorted, g);
      var h := EqualArc(sorted, g, a, w);
      InTurnAt(sorted, h);
      NormalizeIs(a + w, sorted[h]);
      NormalizeIs(maxX, sorted[g]);
      assert sorted[g] <= sorted[h] by { Rising(sorted, g, h); }
    }
  }

  lemma Rising(sorted: seq<real>, g: nat, h: nat)
    requires InTurn(sorted) && g <= h < |sorted|
    ensures sorted[g] <= sorted[h]
  {
  }

  predicate InOneTurn(x: real) {
    0.0 <= x < 360.0
  }

  lemma InTurnAt(sorted: seq<real>, i: nat)
    requires InTurn(sorted) && i < |sorted|
    ensures InOneTurn(sorted[i])
  {
    assert sorted[i] in sorted;
  }

  /** Being covered does not depend on the turn in which either is named. */
  lemma CoveredElsewhere(lon: real, a: real, w: real, x: real, m: int, b: real, k: int)
    requires Covered(lon, a, w) && Turns(lon, x, m) && Turns(a, b, k)
    ensures Covered(x, b, w)
  {
    var p :| SamePlace(lon, p) && a <= p <= a + w;
    var n :| Turns(lon, p, n);
    var q := p + 360.0 * (k as real);
    assert Turns(x, q, n - m + k);
    assert SamePlace(x, q) && b <= q <= b + w;
  }

  /** Every input longitude lies on the interval, in one turn or the next. */
  lemma IntervalCovers(lons: seq<real>, minX: real, maxX: real, lon: real)
    requires IsInterval(lons, minX, maxX) && lon in lons
    ensures var x := NormalizeLon360(lon);
            0.0 <= minX < 360.0 && (minX <= x <= maxX || minX <= x + 360.0 <= maxX)
  {
    var sorted: seq<real>, g: nat :| InTurn(sorted) && (forall x :: x in sorted <==> x in NormalizedAll(lons))
      && if |sorted| == 1 then minX == sorted[0] == maxX
         else LargestGap(sorted, g) && Interval(minX, maxX) == Around(sorted, g);
    var i :| 0 <= i < |lons| && lons[i] == lon;
    assert NormalizedAll(lons)[i] in NormalizedAll(lons);
    var j :| 0 <= j < |sorted| && sorted[j] == NormalizedAll(lons)[i];
    if |sorted| == 1 {
      InTurnAt(sorted, 0);
    } else {
      AroundWidth(sorted, g);
      AroundCovers(sorted, g, j);
    }
    hide NormalizeLon360, InTurn, LargestGap, Around;
  }

  /** The ends of the interval depend on the set of places only. */
  lemma IntervalOfPlaces(lons: seq<real>, others: seq<real>, minX: real, maxX: real, minX': real, maxX': real)
    requires IsInterval(lons, minX, maxX) && IsInterval(others, minX', maxX')
    requires forall x :: x in NormalizedAll(lons) <==> x in NormalizedAll(others)
    ensures minX == minX' && maxX == maxX'
  {
    var s: seq<real>, g: nat :| InTurn(s) && (forall x :: x in s <==> x in NormalizedAll(lons))
      && if |s| == 1 then minX == s[0] == maxX else LargestGap(s, g) && Interval(minX, maxX) == Around(s, g);
    var t: seq<real>, h: nat :| InTurn(t) && (forall x :: x in t <==> x in NormalizedAll(others))
      && if |t| == 1 then minX' == t[0] == maxX' else LargestGap(t, h) && Interval(minX', maxX') == Around(t, h);
    hide NormalizedAll, Around;
    AscendingUnique(s, t);
    if |s| != 1 { SameGap(s, g, h); }
  }

  lemma SameGap(s: seq<real>, g: nat, h: nat)
    requires LargestGap(s, g) && LargestGap(s, h)
    ensures g == h
  {
    assert Gap(s, g) <= Gap(s, h) <= Gap(s, g);
  }

  /** Moves a longitude by whole turns to the first place not before minX. */
  method UnwrapLon(lon: real, minX: real) returns (value: real)
    ensures minX <= value <= minX + 360.0 && SamePlace(lon, value)
    ensures 0.0 <= minX < 360.0 ==> value == (var x := NormalizeLon360(lon); if x < minX then x + 360.0 else x)
  {
    value := NormalizeLon360(lon);
    ghost var m := NormalizeMeaning(lon);
    ghost var x, n := value, 0;
    hide NormalizeLon360;
    while value < minX
      invariant Turns(lon, value, m + n) && (n == 0 ==> value == x) && (n > 0 ==> value < minX + 360.0)
      invariant n == 0 || n == 1 || minX >= 360.0
      invariant n == 1 ==> value == x + 360.0 && x < minX
      invariant n >= 0 && (n >= 2 ==> minX >= 360.0)
      decreases minX - value
    {
      value := value + 360.0;
      n := n + 1;
    }
    while value > minX + 360.0
      invariant Turns(lon, value, m + n) && minX <= value
      invariant 0.0 <= minX < 360.0 ==> value == if x < minX then x + 360.0 else x
      decreases value - minX
    {
      value := value - 360.0;
      n := n - 1;
    }
    assert SamePlace(lon, value);
  }

  /** An input longitude unwraps into the interval. */
  lemma UnwrapLands(lons: seq<real>, minX: real, maxX: real, lon: real, value: real)
    requires IsInterval(lons, minX, maxX) && lon in lons
    requires var x := NormalizeLon360(lon); value == if x < minX then x + 360.0 else x
    ensures minX <= value <= maxX
  {
    IntervalCovers(lons, minX, maxX, lon);
    NormalizeKeepsPlace(lon);
    IntervalIsMinimalWidth(lons, minX, maxX);
    hide NormalizeLon360, IsInterval;
  }

  lemma IntervalIsMinimalWidth(lons: seq<real>, minX: real, maxX: real)
    requires IsInterval(lons, minX, maxX)
    ensures maxX - minX < 360.0
  {
    var sorted: seq<real>, g: nat :| InTurn(sorted) && (forall x :: x in sorted <==> x in NormalizedAll(lons))
      && if |sorted| == 1 then minX == sorted[0] == maxX
         else LargestGap(sorted, g) && Interval(minX, maxX) == Around(sorted, g);
    if |sorted| != 1 { AroundWidth(sorted, g); }
    hide InTurn, LargestGap, Around, NormalizedAll;
  }
}
