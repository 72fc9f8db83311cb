/** For every primary point the nearest candidate, and the feature collection that
    says so, built within its output budget. */
module NearestPoint {
  import opened Wrappers
  import opened JsonText
  import opened JsonNumber
  import opened CanonicalJson
  import opened OutputBudget

  const MAX_PAIR_EVALUATIONS := 250_000

  /** A point feature, by its place in its source. */
  datatype Point = Point(index: nat, id: Option<JsValue>, lon: real, lat: real, geometry: JsValue,
                         properties: Option<seq<Member>>)

  /** What is left to the surroundings: the rounded distance in millimetres, and how
      counts and distances are spelled as numbers. */
  datatype Env = Env(millimetres: (Point, Point) -> int, count: nat -> Decimal, metres: int -> Decimal)

  // -------------------------------------------------------------------- the nearest

  /** Nearer, or as near and earlier in the source. */
  predicate Better(env: Env, p: Point, a: Point, b: Point) {
    || env.millimetres(p, a) < env.millimetres(p, b)
    || (env.millimetres(p, a) == env.millimetres(p, b) && a.index < b.index)
  }

  /** Every other candidate is farther, or as far and later in the source. */
  ghost predicate IsNearest(env: Env, p: Point, candidates: seq<Point>, best: Option<Point>) {
    if candidates == [] then best.None?
    else
      && best.Some? && best.value in candidates
      && var b := best.value;
      forall c :: c in candidates ==>
        || env.millimetres(p, b) < env.millimetres(p, c)
        || (env.millimetres(p, b) == env.millimetres(p, c) && b.index <= c.index)
  }

  predicate DistinctIndices(candidates: seq<Point>) {
    forall i, j :: 0 <= i < j < |candidates| ==> candidates[i].index != candidates[j].index
  }

  lemma SamePoint(candidates: seq<Point>, a: Point, b: Point)
    requires DistinctIndices(candidates) && a in candidates && b in candidates && a.index == b.index
    ensures a == b
  {
    var i :| 0 <= i < |candidates| && candidates[i] == a;
    var j :| 0 <= j < |candidates| && candidates[j] == b;
    assert i == j;
  }

  /** The candidate that the scan in the given order ends with. */
  function BestOf(env: Env, p: Point, candidates: seq<Point>): Option<Point>
    decreases |candidates|
  {
    if candidates == [] then None
    else
      var best, last := BestOf(env, p, candidates[..|candidates| - 1]), candidates[|candidates| - 1];
      if best.None? || Better(env, p, last, best.value) then Some(last) else best
  }

  lemma {:induction false} BestIsNearest(env: Env, p: Point, candidates: seq<Point>)
    ensures IsNearest(env, p, candidates, BestOf(env, p, candidates))
    decreases |candidates|
  {
    if candidates != [] {
      var init, last := candidates[..|candidates| - 1], candidates[|candidates| - 1];
      BestIsNearest(env, p, init);
      assert candidates == init + [last];
    }
  }

  /** The match does not depend on the order of the candidates. */
  lemma NearestOfAnyOrder(env: Env, p: Point, candidates: seq<Point>, others: seq<Point>)
    requires DistinctIndices(candidates) && forall c :: c in candidates <==> c in others
    ensures BestOf(env, p, candidates) == BestOf(env, p, others)
  {
    BestIsNearest(env, p, candidates);
    BestIsNearest(env, p, others);
    hide BestOf;
    assert |candidates| > 0 ==> candidates[0] in candidates && candidates[0] in others;
    assert |others| > 0 ==> others[0] in others && others[0] in candidates;
    if candidates != [] {
      SamePoint(candidates, BestOf(env, p, candidates).value, BestOf(env, p, others).value);
    }
  }

  /** The scan over the candidates, keeping the best so far. */
  method Nearest(env: Env, p: Point, candidates: seq<Point>, evaluated: nat)
    returns (best: Option<Point>, pairEvaluations: nat)
    requires evaluated + |candidates| <= MAX_PAIR_EVALUATIONS
    ensures best == BestOf(env, p, candidates) && IsNearest(env, p, candidates, best)
    ensures pairEvaluations == evaluated + |candidates|
  {
    best, pairEvaluations := None, evaluated;
    for k := 0 to |candidates|
      invariant best == BestOf(env, p, candidates[..k]) && pairEvaluations == evaluated + k
    {
      var candidate := candidates[k];
      pairEvaluations := pairEvaluations + 1;
      assert candidates[..k + 1][..k] == candidates[..k];
      if best.None? || env.millimetres(p, candidate) < env.millimetres(p, best.value)
         || (env.millimetres(p, candidate) == env.millimetres(p, best.value) && candidate.index < best.value.index)
      {
        best := Some(candidate);
      }
    }
    assert candidates[..|candidates|] == candidates;
    BestIsNearest(env, p, candidates);
  }

  // ------------------------------------------------------------------------ output

  function Value(d: Decimal): JsValue {
    Number(Finite(d))
  }

  /** The match, if there is one within the distance limit. */
  function Matched(env: Env, p: Point, best: Option<Point>, maxDistance: Option<real>): Option<Point> {
    if best.Some? && (maxDistance.None? || (env.millimetres(p, best.value) as real) / 1000.0 <= maxDistance.value)
      then best else None
  }

  function MatchMember(env: Env, p: Point, m: Option<Point>): Member {
    Member(Ascii("_dymaxion"), Object(true, [
      Member(Ascii("operation"), String(Ascii("nearest_point"))),
      Member(Ascii("candidate_index"), if m.Some? then Value(env.count(m.value.index)) else Null),
      Member(Ascii("candidate_id"), if m.Some? && m.value.id.Some? then m.value.id.value else Null),
      Member(Ascii("distance_meters"), if m.Some? then Value(env.metres(env.millimetres(p, m.value))) else Null),
      Member(Ascii("matched"), Bool(m.Some?))]))
  }

  /** Sets a member; one of the same key gives way to it. */
  function WithMember(ms: seq<Member>, m: Member): seq<Member> {
    if ms == [] then [m]
    else if ms[0].key == m.key then [m] + ms[1..]
    else [ms[0]] + WithMember(ms[1..], m)
  }

  function OutputFeature(env: Env, p: Point, m: Option<Point>): JsValue {
    Object(true,
      [Member(TYPE, String(Ascii("Feature")))]
      + (if p.id.Some? then [Member(Ascii("id"), p.id.value)] else [])
      + [Member(Ascii("properties"), Object(true, WithMember(if p.properties.Some? then p.properties.value else [],
                                                             MatchMember(env, p, m)))),
         Member(Ascii("geometry"), p.geometry)])
  }

  /** The matches of all primary points. */
  function Matches(env: Env, primary: seq<Point>, candidates: seq<Point>,
                   maxDistance: Option<real>): (r: seq<Option<Point>>)
    ensures |r| == |primary|
    ensures forall i :: 0 <= i < |primary| ==>
      r[i] == Matched(env, primary[i], BestOf(env, primary[i], candidates), maxDistance)
  {
    seq(|primary|, i requires 0 <= i < |primary| => Matched(env, primary[i], BestOf(env, primary[i], candidates),
                                                            maxDistance))
  }

  /** One output feature for each primary point, with the nearest candidate in reach. */
  function Features(env: Env, primary: seq<Point>, candidates: seq<Point>, maxDistance: Option<real>): (r: seq<JsValue>)
    ensures |r| == |primary|
    ensures forall i :: 0 <= i < |primary| ==>
              r[i] == OutputFeature(env, primary[i], Matches(env, primary, candidates, maxDistance)[i])
  {
    var matches := Matches(env, primary, candidates, maxDistance);
    seq(|primary|, i requires 0 <= i < |primary| => OutputFeature(env, primary[i], matches[i]))
  }

  function Found(matches: seq<Option<Point>>): (n: nat)
    ensures n <= |matches|
    decreases |matches|
  {
    if matches == [] then 0 else Found(matches[..|matches| - 1]) + if matches[|matches| - 1].Some? then 1 else 0
  }

  datatype DeriveError = TooManyPairs | OutputTooLarge | NotCanonical(error: JsonError)

  datatype Derived = Derived(features: seq<JsValue>, matched: nat, unmatched: nat, pairEvaluations: nat)

  /** The first k features have a canonical text, and the collection of them fits. */
  ghost predicate FitsUpTo(features: seq<JsValue>, k: nat, limit: nat)
    requires k <= |features|
  {
    Canon(FeatureCollection(features[..k])).Ok? && FullBytes(features[..k]) <= limit
  }

  /** The collection as a JSON value, whose canonical text is measured in bytes of UTF-8. */
  lemma FitsMeaning(features: seq<JsValue>, limit: nat)
    ensures var text := Canon(Object(true, [Member(Ascii("type"), String(Ascii("FeatureCollection"))),
                                            Member(Ascii("features"), Array(features))]));
            FitsUpTo(features, |features|, limit) <==> text.Ok? && Utf8Length(text.value) <= limit
  {
    assert features[..|features|] == features;
    hide Canon, Utf8Length, Ascii;
  }

  ghost predicate TooLargeAt(features: seq<JsValue>, k: nat, limit: nat)
    requires k <= |features|
  {
    Canon(FeatureCollection(features[..k])).Ok? && FullBytes(features[..k]) > limit
  }

  /** Why a collection cannot be written: after some features that fit, the next has no
      canonical text, or the collection with it is too large. */
  ghost predicate CannotWrite(features: seq<JsValue>, k: nat, limit: nat, e: DeriveError)
    requires k <= |features|
  {
    match e
    case OutputTooLarge => TooLargeAt(features, k, limit)
    case NotCanonical(error) => k < |features| && FitsUpTo(features, k, limit) && Canon(features[k]) == Err(error)
    case TooManyPairs => false
  }

  /** A collection is never smaller than a part of it from the start. */
  lemma {:induction false} PartsFit(features: seq<JsValue>, k: nat, limit: nat)
    requires k <= |features| && FitsUpTo(features, |features|, limit)
    requires forall v :: v in features ==> v.Object?
    ensures FitsUpTo(features, k, limit)
    decreases |features| - k
  {
    if k < |features| {
      PartsFit(features, k + 1, limit);
      assert features[..k + 1] == features[..k] + [features[k]];
      hide Canon, FullBytes, FeatureCollection;
      OneMoreFeature(features[..k], features[k]);
    }
  }

  lemma OneMoreFeature(features: seq<JsValue>, feature: JsValue)
    requires feature.Object? && (forall v :: v in features ==> v.Object?)
    requires Canon(FeatureCollection(features + [feature])).Ok?
    ensures Canon(FeatureCollection(features)).Ok? && FullBytes(features) <= FullBytes(features + [feature])
    ensures Canon(feature).Ok?
  {
    CollectionText(features + [feature]);
    hide Canon, FullBytes, FeatureCollection;
    ItemsOfParts(features, feature);
    CanonItemsSnoc(features, feature);
    ItemsStartWhole(features);
    ObjectStartsWhole(feature);
    var ts := CanonItems(features).value;
    JoinGrows(ts, Canon(feature).value);
    FullBytesAre(features);
    FullBytesAre(features + [feature]);
  }

  lemma {:induction false} ItemsOfParts(vs: seq<JsValue>, v: JsValue)
    requires CanonItems(vs + [v]).Ok?
    ensures CanonItems(vs).Ok? && Canon(v).Ok?
    decreases |vs|
  {
    hide Canon;
    if vs == [] {
      assert [] + [v] == [v];
      assert CanonItems([]) == Ok([]);
    } else {
      assert (vs + [v])[1..] == vs[1..] + [v] && (vs + [v])[0] == vs[0];
      ItemsOfParts(vs[1..], v);
    }
  }

  lemma {:induction false} ItemsStartWhole(vs: seq<JsValue>)
    requires CanonItems(vs).Ok? && forall v :: v in vs ==> v.Object?
    ensures StartsWhole(Join(CanonItems(vs).value))
    decreases |vs|
  {
    hide Canon, Utf8Length;
    if vs != [] {
      var n := |vs| - 1;
      assert vs == vs[..n] + [vs[n]];
      ItemsOfParts(vs[..n], vs[n]);
      ItemsStartWhole(vs[..n]);
      CanonItemsSnoc(vs[..n], vs[n]);
      ObjectStartsWhole(vs[n]);
      JoinGrows(CanonItems(vs[..n]).value, Canon(vs[n]).value);
    }
  }

  /** Where writing stops, the whole collection cannot be written either. */
  lemma StoppedWriting(features: seq<JsValue>, k: nat, limit: nat, e: DeriveError)
    requires k <= |features| && CannotWrite(features, k, limit, e) && forall v :: v in features ==> v.Object?
    ensures !FitsUpTo(features, |features|, limit)
  {
    hide Canon, FullBytes, FeatureCollection;
    if FitsUpTo(features, |features|, limit) {
      PartsFit(features, k, limit);
      if k < |features| {
        PartsFit(features, k + 1, limit);
        assert features[..k + 1] == features[..k] + [features[k]];
        OneMoreFeature(features[..k], features[k]);
      }
    }
  }

  lemma NothingWritten(all: seq<JsValue>, limit: nat)
    requires Canon(FeatureCollection([])).Ok? && forall v :: v in all ==> v.Object?
    ensures all[..0] == []
    ensures if FullBytes([]) > limit then CannotWrite(all, 0, limit, OutputTooLarge) && !FitsUpTo(all, |all|, limit)
            else FitsUpTo(all, 0, limit)
  {
    hide Canon, FullBytes, FeatureCollection;
    assert all[..0] == [];
    if FullBytes([]) > limit {
      StoppedWriting(all, 0, limit, OutputTooLarge);
    }
  }

  lemma NoText(all: seq<JsValue>, k: nat, limit: nat, error: JsonError)
    requires k < |all| && FitsUpTo(all, k, limit) && Canon(all[k]) == Err(error) && forall v :: v in all ==> v.Object?
    ensures CannotWrite(all, k, limit, NotCanonical(error)) && !FitsUpTo(all, |all|, limit)
  {
    hide Canon, FitsUpTo;
    StoppedWriting(all, k, limit, NotCanonical(error));
  }

  lemma NextFeature(all: seq<JsValue>, k: nat, limit: nat, features: seq<JsValue>)
    requires k < |all| && features == all[..k] && Canon(FeatureCollection(features + [all[k]])).Ok?
    requires forall v :: v in all ==> v.Object?
    ensures features + [all[k]] == all[..k + 1]
    ensures if FullBytes(features + [all[k]]) <= limit then FitsUpTo(all, k + 1, limit)
            else CannotWrite(all, k + 1, limit, OutputTooLarge) && !FitsUpTo(all, |all|, limit)
  {
    hide Canon, FullBytes, FeatureCollection;
    assert features + [all[k]] == all[..k + 1];
    if FullBytes(features + [all[k]]) > limit {
      StoppedWriting(all, k + 1, limit, OutputTooLarge);
    }
  }

  lemma FeaturesAreObjects(env: Env, primary: seq<Point>, candidates: seq<Point>, maxDistance: Option<real>)
    ensures forall v :: v in Features(env, primary, candidates, maxDistance) ==> v.Object?
  {
    hide Matched, BestOf, WithMember, MatchMember;
  }

  function PairCount(n: nat, m: nat): nat {
    n * m
  }

  lemma PairsSoFar(k: nat, n: nat, m: nat)
    requires k < n && PairCount(n, m) <= MAX_PAIR_EVALUATIONS
    ensures PairCount(k, m) + m == PairCount(k + 1, m) <= PairCount(n, m)
  {
    assert PairCount(n - k - 1, m) >= 0;
    assert n * m == (k + 1) * m + (n - k - 1) * m;
  }

  lemma NoPairs(m: nat)
    ensures PairCount(0, m) == 0
  {
  }

  /** The loop over the primary points, each matched and written into the budget. */
  method WriteFeatures(env: Env, primary: seq<Point>, candidates: seq<Point>, maxDistance: Option<real>, budget: Budget,
                       ghost all: seq<JsValue>, ghost matches: seq<Option<Point>>, ghost pairs: nat)
    returns (r: Result<Derived, DeriveError>, ghost written: nat)
    requires PairCount(|primary|, |candidates|) == pairs <= MAX_PAIR_EVALUATIONS && (forall v :: v in all ==> v.Object?)
    requires all == Features(env, primary, candidates, maxDistance)
    requires matches == Matches(env, primary, candidates, maxDistance)
    requires budget.Valid() && budget.features == [] && FitsUpTo(all, 0, budget.limitBytes)
    modifies budget
    ensures r.Ok? ==>
              && FitsUpTo(all, |all|, budget.limitBytes)
              && r.value == Derived(all, Found(matches), |matches| - Found(matches), pairs)
    ensures r.Err? ==>
              written <= |all| && CannotWrite(all, written, budget.limitBytes, r.error)
                && !FitsUpTo(all, |all|, budget.limitBytes)
  {
    hide *;
    var features, matched, unmatched, pairEvaluations := [], 0, 0, 0;
    NoneFound(matches);
    NoPairs(|candidates|);
    for k := 0 to |primary|
      invariant budget.Valid() && budget.features == features && features == all[..k]
      invariant FitsUpTo(all, k, budget.limitBytes)
      invariant matched == Found(matches[..k]) && matched + unmatched == k
      invariant pairEvaluations == PairCount(k, |candidates|)
    {
      PairsSoFar(k, |primary|, |candidates|);
      var best;
      best, pairEvaluations := Nearest(env, primary[k], candidates, pairEvaluations);
      var m := Matched(env, primary[k], best, maxDistance);
      if m.Some? {
        matched := matched + 1;
      } else {
        unmatched := unmatched + 1;
      }
      FoundMore(matches, k);
      var feature := OutputFeature(env, primary[k], m);
      var text := Canon(feature);
      if text.Err? {
        NoText(all, k, budget.limitBytes, text.error);
        return Err(NotCanonical(text.error)), k;
      }
      var fits := budget.AddFeature(text.value, feature);
      NextFeature(all, k, budget.limitBytes, features);
      if !fits {
        return Err(OutputTooLarge), k + 1;
      }
      features := features + [feature];
    }
    WholeFound(all, matches);
    written := |primary|;
    r := Ok(Derived(features, matched, unmatched, pairEvaluations));
  }

  /** Matches every primary point and writes its feature within the output limit. It
      succeeds exactly when the pairs are within their ceiling and the canonical text of
      the whole collection exists and fits, so that the check of the finished artifact's
      size cannot fail. */
  method DeriveArtifact(env: Env, primary: seq<Point>, candidates: seq<Point>, maxDistance: Option<real>, limit: nat)
    returns (r: Result<Derived, DeriveError>, ghost written: nat)
    ensures r == Err(TooManyPairs) <==> |primary| * |candidates| > 250_000
    ensures r.Ok? <==>
            && |primary| * |candidates| <= 250_000
            && FitsUpTo(Features(env, primary, candidates, maxDistance), |primary|, limit)
    ensures r.Ok? ==>
              var matches := Matches(env, primary, candidates, maxDistance);
              r.value == Derived(Features(env, primary, candidates, maxDistance), Found(matches),
                                 |matches| - Found(matches), |primary| * |candidates|)
    ensures r.Err? && !r.error.TooManyPairs? ==>
              written <= |primary| && CannotWrite(Features(env, primary, candidates, maxDistance), written, limit,
                                                  r.error)
  {
    written := 0;
    var pairCeiling := |primary| * |candidates|;
    assert pairCeiling == PairCount(|primary|, |candidates|) && MAX_PAIR_EVALUATIONS == 250_000;
    if pairCeiling > MAX_PAIR_EVALUATIONS {
      return Err(TooManyPairs), 0;
    }
    ghost var all, matches := Features(env, primary, candidates, maxDistance),
      Matches(env, primary, candidates, maxDistance);
    FeaturesAreObjects(env, primary, candidates, maxDistance);
    hide *;
    var budget := new Budget(limit);
    var bytes := budget.ObservedBytes();
    NothingWritten(all, limit);
    if bytes > limit {
      return Err(OutputTooLarge), 0;
    }
    r, written := WriteFeatures(env, primary, candidates, maxDistance, budget, all, matches, pairCeiling);
    CannotBePairs(all, written, limit, r);
  }

  lemma CannotBePairs(all: seq<JsValue>, k: nat, limit: nat, r: Result<Derived, DeriveError>)
    requires r.Err? ==> k <= |all| && CannotWrite(all, k, limit, r.error)
    ensures r != Err(TooManyPairs)
  {
  }

  lemma NoneFound(matches: seq<Option<Point>>)
    ensures Found(matches[..0]) == 0
  {
  }

  lemma WholeFound(all: seq<JsValue>, matches: seq<Option<Point>>)
    ensures all[..|all|] == all && matches[..|matches|] == matches
  {
  }

  lemma FoundMore(matches: seq<Option<Point>>, k: nat)
    requires k < |matches|
    ensures Found(matches[..k + 1]) == Found(matches[..k]) + if matches[k].Some? then 1 else 0
  {
    assert matches[..k + 1][..k] == matches[..k];
  }

  /** The whole artifact does not depend on the order of the candidates. */
  lemma ArtifactOfAnyOrder(env: Env, primary: seq<Point>, candidates: seq<Point>, others: seq<Point>,
                           maxDistance: Option<real>)
    requires DistinctIndices(candidates) && forall c :: c in candidates <==> c in others
    ensures Matches(env, primary, candidates, maxDistance) == Matches(env, primary, others, maxDistance)
    ensures Features(env, primary, candidates, maxDistance) == Features(env, primary, others, maxDistance)
  {
    forall i | 0 <= i < |primary| ensures BestOf(env, primary[i], candidates) == BestOf(env, primary[i], others) {
      NearestOfAnyOrder(env, primary[i], candidates, others);
    }
    hide BestOf, Matched, OutputFeature;
  }

  // ----------------------------------------------------------------------- meaning

  /** The candidate is in reach: its distance in metres is at most the limit, if there is one. */
  ghost predicate InReach(env: Env, p: Point, c: Point, maxDistance: Option<real>) {
    maxDistance == None || env.millimetres(p, c) as real <= 1000.0 * maxDistance.value
  }

  /** There is a match exactly if some candidate is in reach, and the match is the nearest. */
  lemma MatchMeaning(env: Env, p: Point, candidates: seq<Point>, maxDistance: Option<real>)
    ensures var m := Matched(env, p, BestOf(env, p, candidates), maxDistance);
            && (m.Some? <==> exists c :: c in candidates && InReach(env, p, c, maxDistance))
            && (m.Some? ==> InReach(env, p, m.value, maxDistance) && IsNearest(env, p, candidates, m))
  {
    BestIsNearest(env, p, candidates);
    hide BestOf;
    var best := BestOf(env, p, candidates);
    assert candidates != [] ==> candidates[0] in candidates;
    if c :| c in candidates && InReach(env, p, c, maxDistance) {
      assert env.millimetres(p, best.value) <= env.millimetres(p, c);
    }
  }

  /** The plain object has this member, and no other of its key. */
  ghost predicate Has(v: JsValue, key: Text, value: JsValue) {
    && v.Object? && v.plain && Member(key, value) in v.members
    && forall m :: m in v.members && m.key == key ==> m.value == value
  }

  ghost predicate OnlyHas(v: JsValue, keys: set<Text>) {
    v.Object? && forall m :: m in v.members ==> m.key in keys
  }

  /** What an output feature says of its match. */
  ghost predicate TellsMatch(v: JsValue, env: Env, p: Point, m: Option<Point>) {
    && OnlyHas(v, {Ascii("operation"), Ascii("candidate_index"), Ascii("candidate_id"), Ascii("distance_meters"),
                   Ascii("matched")})
    && Has(v, Ascii("operation"), String(Ascii("nearest_point")))
    && Has(v, Ascii("candidate_index"), if m.Some? then Number(Finite(env.count(m.value.index))) else Null)
    && Has(v, Ascii("candidate_id"), if m.Some? && m.value.id.Some? then m.value.id.value else Null)
    && Has(v, Ascii("distance_meters"),
           if m.Some? then Number(Finite(env.metres(env.millimetres(p, m.value)))) else Null)
    && Has(v, Ascii("matched"), Bool(m.Some?))
  }

  function PropertiesOf(p: Point): seq<Member> {
    if p.properties.Some? then p.properties.value else []
  }

  /** The properties of the primary point, with the match set. */
  ghost predicate TellsProperties(v: JsValue, env: Env, p: Point, m: Option<Point>) {
    && v.Object? && v.plain
    && (forall x: Member :: x.key != Ascii("_dymaxion") ==> (x in v.members <==> x in PropertiesOf(p)))
    && exists d :: Has(v, Ascii("_dymaxion"), d) && TellsMatch(d, env, p, m)
  }

  ghost predicate TellsFeature(v: JsValue, env: Env, p: Point, m: Option<Point>) {
    && OnlyHas(v, {Ascii("type"), Ascii("properties"), Ascii("geometry")}
                  + if p.id.Some? then {Ascii("id")} else {})
    && Has(v, Ascii("type"), String(Ascii("Feature"))) && Has(v, Ascii("geometry"), p.geometry)
    && (p.id.Some? ==> Has(v, Ascii("id"), p.id.value))
    && exists q :: Has(v, Ascii("properties"), q) && TellsProperties(q, env, p, m)
  }

  lemma {:induction false} WithMemberIs(ms: seq<Member>, m: Member)
    requires UniqueKeys(ms)
    ensures var r := WithMember(ms, m);
            && m in r && (forall x :: x in r && x.key == m.key ==> x.value == m.value)
            && forall x: Member :: x.key != m.key ==> (x in r <==> x in ms)
  {
    if ms != [] {
      assert ms == [ms[0]] + ms[1..];
      if ms[0].key != m.key {
        WithMemberIs(ms[1..], m);
      } else {
        forall x | x in ms[1..] ensures x.key != m.key {
          var i :| 0 <= i < |ms[1..]| && ms[1..][i] == x;
          assert ms[i + 1] == x;
        }
      }
    }
  }

  lemma KeysDiffer()
    ensures var a, b, c, d := Ascii("operation"), Ascii("candidate_index"), Ascii("candidate_id"),
                              Ascii("distance_meters");
            a != b && a != c && a != d && b != c && b != d && c != d
    ensures var e := Ascii("matched");
            e != Ascii("operation") && e != Ascii("candidate_index") && e != Ascii("candidate_id")
              && e != Ascii("distance_meters")
  {
    assert |Ascii("operation")| == 9 && |Ascii("candidate_index")| == 15 && |Ascii("candidate_id")| == 12;
    assert |Ascii("distance_meters")| == 15 && |Ascii("matched")| == 7;
    assert Ascii("distance_meters")[0] != Ascii("candidate_index")[0];
  }

  lemma FeatureKeysDiffer()
    ensures var a, b, c, d := Ascii("type"), Ascii("properties"), Ascii("geometry"), Ascii("id");
            a != b && a != c && a != d && b != c && b != d && c != d
  {
    assert |Ascii("type")| == 4 && |Ascii("properties")| == 10 && |Ascii("geometry")| == 8 && |Ascii("id")| == 2;
  }

  lemma MatchTold(env: Env, p: Point, m: Option<Point>)
    ensures var x := MatchMember(env, p, m);
            x.key == Ascii("_dymaxion") && TellsMatch(x.value, env, p, m)
  {
    KeysDiffer();
    hide Ascii;
  }

  lemma PropertiesTold(env: Env, p: Point, m: Option<Point>)
    requires UniqueKeys(PropertiesOf(p))
    ensures TellsProperties(Object(true, WithMember(PropertiesOf(p), MatchMember(env, p, m))), env, p, m)
  {
    var x := MatchMember(env, p, m);
    MatchTold(env, p, m);
    WithMemberIs(PropertiesOf(p), x);
    hide MatchMember, WithMember, TellsMatch, Ascii, UniqueKeys;
    assert Has(Object(true, WithMember(PropertiesOf(p), x)), Ascii("_dymaxion"), x.value);
  }

  lemma MembersTold(v: JsValue, t: Member, i: Option<Member>, q: Member, g: Member)
    requires t.key != q.key && t.key != g.key && q.key != g.key
    requires i.Some? ==> i.value.key != t.key && i.value.key != q.key && i.value.key != g.key
    requires v == Object(true, [t] + (if i.Some? then [i.value] else []) + [q, g])
    ensures Has(v, t.key, t.value) && Has(v, q.key, q.value) && Has(v, g.key, g.value)
    ensures i.Some? ==> Has(v, i.value.key, i.value.value)
    ensures OnlyHas(v, {t.key, q.key, g.key} + if i.Some? then {i.value.key} else {})
  {
    if i.Some? {
      assert v.members == [t, i.value, q, g];
    } else {
      assert v.members == [t, q, g];
    }
  }

  lemma FeatureTold(env: Env, p: Point, m: Option<Point>)
    requires UniqueKeys(PropertiesOf(p))
    ensures TellsFeature(OutputFeature(env, p, m), env, p, m)
  {
    var v, q := OutputFeature(env, p, m), Object(true, WithMember(PropertiesOf(p), MatchMember(env, p, m)));
    PropertiesTold(env, p, m);
    FeatureKeysDiffer();
    hide Ascii, WithMember, MatchMember, TellsProperties, Has, OnlyHas;
    var id := if p.id.Some? then Some(Member(Ascii("id"), p.id.value)) else None;
    MembersTold(v, Member(Ascii("type"), String(Ascii("Feature"))), id, Member(Ascii("properties"), q),
                Member(Ascii("geometry"), p.geometry));
  }

  /** Every output feature keeps its primary point's identifier, geometry and properties, and
      says whether and how the point was matched. */
  lemma ArtifactMeaning(env: Env, primary: seq<Point>, candidates: seq<Point>, maxDistance: Option<real>, i: nat)
    requires i < |primary| && UniqueKeys(PropertiesOf(primary[i]))
    ensures var m := Matches(env, primary, candidates, maxDistance)[i];
            && (m.Some? <==> exists c :: c in candidates && InReach(env, primary[i], c, maxDistance))
            && (m.Some? ==> InReach(env, primary[i], m.value, maxDistance)
                            && IsNearest(env, primary[i], candidates, m))
            && TellsFeature(Features(env, primary, candidates, maxDistance)[i], env, primary[i], m)
  {
    MatchMeaning(env, primary[i], candidates, maxDistance);
    FeatureTold(env, primary[i], Matches(env, primary, candidates, maxDistance)[i]);
    hide Matched, BestOf, TellsFeature, OutputFeature, IsNearest;
  }

  ghost function Places(matches: seq<Option<Point>>): set<nat> {
    set i: nat | i < |matches| && matches[i].Some?
  }

  lemma PlacesMore(matches: seq<Option<Point>>, n: nat)
    requires |matches| == n + 1
    ensures Places(matches) == if matches[n].Some? then Places(matches[..n]) + {n} else Places(matches[..n])
    ensures n !in Places(matches[..n])
  {
  }

  /** The matches are counted one by one. */
  lemma {:induction false} FoundMeaning(matches: seq<Option<Point>>)
    ensures Found(matches) == |Places(matches)|
    decreases |matches|
  {
    if matches != [] {
      FoundMeaning(matches[..|matches| - 1]);
      PlacesMore(matches, |matches| - 1);
      hide Places;
    }
  }
}
