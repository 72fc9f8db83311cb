/** The one-pass walk over a geometry tree with a stack of open bbox scopes. Every
    position counts in every open scope; the walk is proved to say of each box just
    what the box's own subtree makes it say. */
module BboxWalk {
  import opened Wrappers
  import opened BboxFindings
  import opened BboxModel

  // ---------------------------------------------------------------------- tallies

  /** What a scope remembers of the positions it has seen. */
  datatype Tally = Tally(positions: nat, violations: nat, dims: set<nat>)

  function Nothing(): Tally {
    Tally(0, 0, {})
  }

  function Counted(t: Tally, b: Bounds, p: Ordinates): Tally
    requires GoodBounds(b)
  {
    Tally(t.positions + 1, t.violations + (if Escapes(b, p) then 1 else 0), t.dims + {|p|})
  }

  function CountEntry(t: Tally, b: Bounds, raw: RawPosition): Tally
    requires GoodBounds(b)
  {
    if ValidPosition(raw) then Counted(t, b, raw.value) else t
  }

  function CountedAll(t: Tally, b: Bounds, ps: seq<Ordinates>): Tally
    requires GoodBounds(b)
    decreases |ps|
  {
    if ps == [] then t else Counted(CountedAll(t, b, ps[..|ps| - 1]), b, ps[|ps| - 1])
  }

  lemma {:induction false} CountedThen(t: Tally, b: Bounds, ps: seq<Ordinates>, qs: seq<Ordinates>)
    requires GoodBounds(b)
    ensures CountedAll(CountedAll(t, b, ps), b, qs) == CountedAll(t, b, ps + qs)
    decreases |qs|
  {
    hide Counted;
    if qs == [] {
      assert ps + qs == ps;
    } else {
      var n := |qs| - 1;
      assert (ps + qs)[..|ps + qs| - 1] == ps + qs[..n] && (ps + qs)[|ps + qs| - 1] == qs[n];
      CountedThen(t, b, ps, qs[..n]);
    }
  }

  lemma DimensionsSnoc(ps: seq<Ordinates>, p: Ordinates)
    ensures Dimensions(ps + [p]) == Dimensions(ps) + {|p|}
  {
    var qs := ps + [p];
    assert qs[|ps|] == p;
    forall d | d in Dimensions(ps) ensures d in Dimensions(qs) {
      var i :| 0 <= i < |ps| && |ps[i]| == d;
      assert qs[i] == ps[i];
    }
  }

  lemma OneDimension(p: Ordinates)
    ensures Dimensions([p]) == {|p|}
  {
    assert [p][0] == p;
  }

  lemma DimensionsSum(ps: seq<Ordinates>, qs: seq<Ordinates>)
    ensures Dimensions(ps + qs) == Dimensions(ps) + Dimensions(qs)
  {
    var rs := ps + qs;
    forall d | d in Dimensions(ps) ensures d in Dimensions(rs) {
      var i :| 0 <= i < |ps| && |ps[i]| == d;
      assert rs[i] == ps[i];
    }
    forall d | d in Dimensions(qs) ensures d in Dimensions(rs) {
      var i :| 0 <= i < |qs| && |qs[i]| == d;
      assert rs[|ps| + i] == qs[i];
    }
  }

  /** What the tally of some positions, counted from nothing, says of them. */
  lemma {:induction false} TallyMeaning(b: Bounds, ps: seq<Ordinates>)
    requires GoodBounds(b)
    ensures var t := CountedAll(Nothing(), b, ps);
            && t.positions == |ps| && t.dims == Dimensions(ps) && (t.violations > 0 <==> SomeEscape(b, ps))
    decreases |ps|
  {
    hide Escapes;
    if ps != [] {
      var n := |ps| - 1;
      TallyMeaning(b, ps[..n]);
      DimensionsSnoc(ps[..n], ps[n]);
      assert ps == ps[..n] + [ps[n]];
      hide Dimensions;
      assert SomeEscape(b, ps) <==> SomeEscape(b, ps[..n]) || Escapes(b, ps[n]);
    }
  }

  /** More than one dimension, or one that is not the box's, is what a mismatch is. */
  lemma DimensionsFit(b: Bounds, ps: seq<Ordinates>)
    requires ps != []
    ensures Dimensions(ps) == {|b.mins|} <==> AllFit(b, ps)
    ensures |Dimensions(ps)| > 0
  {
    assert |ps[0]| in Dimensions(ps);
    if AllFit(b, ps) {
      assert Dimensions(ps) == {|b.mins|};
    }
    if Dimensions(ps) == {|b.mins|} {
      forall i | 0 <= i < |ps| ensures |ps[i]| == |b.mins| {
        assert |ps[i]| in Dimensions(ps);
      }
    }
  }

  lemma OnlyElement(s: set<nat>, d: nat)
    requires d in s
    ensures |s| > 1 <==> s != {d}
  {
    assert |{d}| == 1;
    if s != {d} {
      var e :| e in s && e != d;
      assert {d, e} <= s;
      Fewer({d, e}, s);
      assert |{d, e}| == 2;
    }
  }

  lemma {:induction false} Fewer(a: set<nat>, b: set<nat>)
    requires a <= b
    ensures |a| <= |b|
  {
    if a != {} {
      var x :| x in a;
      Fewer(a - {x}, b - {x});
    }
  }

  /** What closing a scope reads off its tally. */
  lemma CloseMeaning(b: Bounds, ps: seq<Ordinates>)
    requires GoodBounds(b)
    ensures var t := CountedAll(Nothing(), b, ps);
            && (t.positions == 0 ==> ps == [] && !SomeEscape(b, ps) && AllFit(b, ps))
            && (t.positions > 0 ==>
                  && ps != [] && t.dims != {} && (t.violations > 0 <==> SomeEscape(b, ps))
                  && (|t.dims| > 1 ==> !AllFit(b, ps))
                  && forall d :: d in t.dims && |t.dims| <= 1 ==> (d == |b.mins| <==> AllFit(b, ps)))
  {
    TallyMeaning(b, ps);
    var t := CountedAll(Nothing(), b, ps);
    hide CountedAll, Escapes;
    if ps != [] {
      DimensionsFit(b, ps);
      hide AllFit, Dimensions;
      if |b.mins| in t.dims { OnlyElement(t.dims, |b.mins|); }
      forall d | d in t.dims && |t.dims| <= 1 ensures t.dims == {d} {
        OnlyElement(t.dims, d);
      }
    }
  }

  // ----------------------------------------------------------------------- scopes

  class BboxScope {
    const bounds: Bounds
    const place: Place
    var positions: nat
    var violations: nat
    var dims: set<nat>

    constructor (bounds: Bounds, place: Place)
      ensures this.bounds == bounds && this.place == place && Seen() == Nothing()
    {
      this.bounds, this.place := bounds, place;
      positions, violations, dims := 0, 0, {};
    }

    function Seen(): Tally
      reads this
    {
      Tally(positions, violations, dims)
    }

    /** Counts a position; the first axis on which it escapes settles that. */
    method Count(p: Ordinates)
      requires GoodBounds(bounds)
      modifies this
      ensures Seen() == Counted(old(Seen()), bounds, p)
    {
      positions := positions + 1;
      dims := dims + {|p|};
      var axes := if |bounds.mins| < |p| then |bounds.mins| else |p|;
      for axis := 0 to axes
        invariant forall a :: 0 <= a < axis ==> InsideAxis(bounds, a, p[a])
        invariant positions == old(positions) + 1 && dims == old(dims) + {|p|} && violations == old(violations)
      {
        if !InsideAxis(bounds, axis, p[axis]) {
          violations := violations + 1;
          return;
        }
      }
    }
  }

  ghost predicate Distinct(scopes: seq<BboxScope>) {
    forall i, j :: 0 <= i < j < |scopes| ==> scopes[i] != scopes[j]
  }

  ghost predicate AllGood(scopes: seq<BboxScope>) {
    forall s :: s in scopes ==> GoodBounds(s.bounds)
  }

  // ------------------------------------------------------------------------- walk

  class Walk {
    const rangeChecks: bool
    /** The open scopes, innermost last. */
    var active: seq<BboxScope>
    var findings: seq<Finding>
    var positionCount: nat

    ghost predicate Valid()
      reads this
    {
      Distinct(active) && AllGood(active)
    }

    constructor (rangeChecks: bool)
      ensures Valid() && this.rangeChecks == rangeChecks && active == [] && findings == [] && positionCount == 0
    {
      this.rangeChecks := rangeChecks;
      active, findings, positionCount := [], [], 0;
    }

    method ParseDeclaredBbox(raw: RawBbox) returns (r: Result<Bounds, Kind>)
      ensures r == ParseBbox(raw, rangeChecks)
    {
      if raw.None? || |raw.value| < 4 || |raw.value| % 2 != 0 || |raw.value| > MAX_BBOX_DIMENSIONS * 2 {
        return Err(BboxInvalid);
      }
      var half := |raw.value| / 2;
      var mins, maxs := raw.value[..half], raw.value[half..];
      for axis := 1 to half
        invariant forall a :: 1 <= a < axis ==> mins[a] <= maxs[a]
      {
        if mins[axis] > maxs[axis] {
          return Err(BboxInvalid);
        }
      }
      if rangeChecks && !(InRange(mins[0], mins[1]) && InRange(maxs[0], maxs[1])) {
        return Err(BboxOutOfRange);
      }
      r := Ok(Bounds(mins, maxs, mins[0] > maxs[0]));
    }

    method OpenBboxScope(raw: RawBbox, place: Place) returns (scope: BboxScope?)
      requires Valid()
      modifies this`active, this`findings
      ensures Valid() && findings == old(findings) + OpenFindings(Some(raw), place, rangeChecks)
      ensures match OpenBbox(raw, rangeChecks)
              case Err(_) => scope == null && active == old(active)
              case Ok(b) =>
                && scope != null && fresh(scope) && scope.bounds == b && scope.place == place
                && scope.Seen() == Nothing()
                && active == old(active) + [scope]
    {
      hide ParseBbox;
      OpenIsGood(raw, rangeChecks);
      var bounds := ParseDeclaredBbox(raw);
      match bounds
      case Err(kind) =>
        findings := findings + [Finding(kind, place)];
        scope := null;
      case Ok(b) =>
        if b.crossing && !rangeChecks {
          findings := findings + [Finding(BboxEnclosureUnverified, place)];
          return null;
        }
        scope := new BboxScope(b, place);
        active := active + [scope];
    }

    /** Closes the innermost scope, which must be the one given, and says whether its
        box has the right dimension and whether it encloses its positions. */
    method CloseBboxScope(scope: BboxScope, ghost ps: seq<Ordinates>)
      returns (declaredValid: bool, encloses: Option<bool>)
      requires Valid() && active != [] && active[|active| - 1] == scope
      requires GoodBounds(scope.bounds) && scope.Seen() == CountedAll(Nothing(), scope.bounds, ps)
      modifies this`active, this`findings
      ensures Valid() && active == old(active)[..|old(active)| - 1]
      ensures findings == old(findings) + CloseFindings(scope.bounds, ps, scope.place)
      ensures encloses == Encloses(scope.bounds, ps) && declaredValid == !Mismatches(scope.bounds, ps)
    {
      hide Dimensions, SomeEscape, AllFit, CountedAll;
      CloseMeaning(scope.bounds, ps);
      active := active[..|active| - 1];
      if scope.positions == 0 {
        return true, None;
      }
      var violated := scope.violations > 0;
      if violated {
        findings := findings + [Finding(BboxNotEnclosing, scope.place)];
      }
      if |scope.dims| > 1 {
        findings := findings + [Finding(BboxDimensionMismatch, scope.place)];
        return false, if violated then Some(false) else None;
      }
      var observed :| observed in scope.dims;
      if |scope.bounds.mins| != observed {
        findings := findings + [Finding(BboxDimensionMismatch, scope.place)];
        return false, if violated then Some(false) else None;
      }
      return true, Some(!violated);
    }

    /** Counts an entry; a valid position counts in every open scope. */
    method ValidatePosition(raw: RawPosition, place: Place, dimSet: set<nat>) returns (ok: bool, dims: set<nat>)
      requires Valid()
      modifies this`findings, this`positionCount, set s | s in active
      ensures positionCount == old(positionCount) + 1 && (ok <==> positionCount <= MAX_POSITIONS)
      ensures ok ==>
                && findings == old(findings) + PositionFindings(raw, place, rangeChecks)
                && dims == dimSet + Dimensions(PositionsOf(raw))
                && forall s :: s in active ==> s.Seen() == CountEntry(old(s.Seen()), s.bounds, raw)
    {
      dims := dimSet;
      positionCount := positionCount + 1;
      ok := positionCount <= MAX_POSITIONS;
      if !ok {
        return;
      }
      if !ValidPosition(raw) {
        findings := findings + [Finding(PositionInvalid, place)];
        return;
      }
      OneDimension(raw.value);
      hide Dimensions;
      dims := dims + {|raw.value|};
      if rangeChecks && !InRange(raw.value[0], raw.value[1]) {
        findings := findings + [Finding(CoordinateOutOfRange, place)];
      }
      CountEverywhere(raw.value);
    }

    method CountEverywhere(p: Ordinates)
      requires Valid()
      modifies set s | s in active
      ensures forall s :: s in active ==> s.Seen() == Counted(old(s.Seen()), s.bounds, p)
    {
      hide Counted;
      for k := 0 to |active|
        invariant forall i :: 0 <= i < k ==> active[i].Seen() == Counted(old(active[i].Seen()), active[i].bounds, p)
        invariant forall i :: k <= i < |active| ==> active[i].Seen() == old(active[i].Seen())
      {
        active[k].Count(p);
      }
    }

    /** The entries of a leaf, in order. */
    method ValidateEntries(entries: seq<RawPosition>, place: Place) returns (ok: bool, dims: set<nat>)
      requires Valid() && positionCount <= MAX_POSITIONS
      modifies this`findings, this`positionCount, set s | s in active
      ensures ok <==> old(positionCount) + |entries| <= MAX_POSITIONS
      ensures ok ==>
                && positionCount == old(positionCount) + |entries|
                && findings == old(findings) + EntryFindings(entries, place, rangeChecks)
                && dims == Dimensions(PositionsIn(entries))
                && forall s :: s in active ==> s.Seen() == CountedAll(old(s.Seen()), s.bounds, PositionsIn(entries))
    {
      hide CountEntry, PositionFindings, CountedAll, PositionsIn, PositionsOf, Dimensions;
      ok, dims := true, {};
      NoEntries(place);
      NothingCounted(active);
      for k := 0 to |entries|
        invariant active == old(active) && positionCount == old(positionCount) + k <= MAX_POSITIONS
        invariant findings == old(findings) + EntryFindings(entries[..k], place, rangeChecks)
        invariant ok && dims == Dimensions(PositionsIn(entries[..k]))
        invariant forall s :: s in active ==> s.Seen() == CountedAll(old(s.Seen()), s.bounds, PositionsIn(entries[..k]))
      {
        EntrySnoc(entries, k, place, rangeChecks);
        ghost var ps := PositionsIn(entries[..k]);
        ok, dims := ValidatePosition(entries[k], place, dims);
        if !ok {
          return;
        }
        forall s | s in active ensures s.Seen() == CountedAll(old(s.Seen()), s.bounds, PositionsIn(entries[..k + 1])) {
          CountedSnoc(old(s.Seen()), s.bounds, ps, entries[k]);
        }
      }
      assert entries[..|entries|] == entries;
    }

    /** One geometry: its own scope is open just while its subtree is walked. */
    method ValidateGeometry(g: Geometry, place: Place, depth: nat) returns (ok: bool, dims: set<nat>)
      requires Valid() && positionCount <= MAX_POSITIONS
      modifies this, set s | s in active
      ensures ok <==> !TooDeep(g, depth) && old(positionCount) + Entries(g) <= MAX_POSITIONS
      ensures ok ==>
                && Valid() && active == old(active) && positionCount == old(positionCount) + Entries(g)
                && findings == old(findings) + Findings(g, place, rangeChecks)
                && dims == Dimensions(Positions(g))
                && forall s :: s in active ==> s.Seen() == CountedAll(old(s.Seen()), s.bounds, Positions(g))
      decreases g, 2
    {
      hide OpenBbox, CloseFindings, Dimensions, CountedAll, Entries, TooDeep, BodyFindings, Positions;
      var scope: BboxScope? := null;
      var bbox := BboxOf(g);
      if bbox.Some? {
        scope := OpenBboxScope(bbox.value, place);
      }
      ok, dims := ValidateGeometryBody(g, place, depth);
      if !ok {
        return;
      }
      if scope != null {
        var _, _ := CloseBboxScope(scope, Positions(g));
      }
    }

    method ValidateGeometryBody(g: Geometry, place: Place, depth: nat) returns (ok: bool, dims: set<nat>)
      requires Valid() && positionCount <= MAX_POSITIONS
      modifies this, set s | s in active
      ensures ok <==> !TooDeep(g, depth) && old(positionCount) + Entries(g) <= MAX_POSITIONS
      ensures ok ==>
                && Valid() && active == old(active) && positionCount == old(positionCount) + Entries(g)
                && findings == old(findings) + BodyFindings(g, place, rangeChecks)
                && dims == Dimensions(Positions(g))
                && forall s :: s in active ==> s.Seen() == CountedAll(old(s.Seen()), s.bounds, Positions(g))
      decreases g, 1
    {
      hide Dimensions, CountedAll, EntryFindings, MemberFindings, PositionsIn, SomeMixed;
      NoEntries(place);
      NothingCounted(active);
      match g
      case Leaf(_, entries) =>
        ok, dims := ValidateEntries(entries, place);
        if ok && |dims| > 1 {
          findings := findings + [Finding(CoordinateDimensionMismatch, place)];
        }
      case Collection(_, members) =>
        if depth > MAX_COLLECTION_DEPTH {
          return false, {};
        }
        var mixed;
        ok, dims, mixed := ValidateMembers(g, place, depth);
        if ok && |dims| > 1 && !mixed {
          findings := findings + [Finding(CoordinateDimensionMismatch, place)];
        }
      case MalformedCollection(_) =>
        if depth > MAX_COLLECTION_DEPTH {
          return false, {};
        }
        findings := findings + [Finding(GeometryMalformed, place)];
        ok, dims := true, {};
      case Malformed =>
        findings := findings + [Finding(GeometryMalformed, place)];
        ok, dims := true, {};
    }

    method ValidateMembers(g: Geometry, place: Place, depth: nat) returns (ok: bool, dims: set<nat>, mixed: bool)
      requires Valid() && positionCount <= MAX_POSITIONS && g.Collection? && depth <= MAX_COLLECTION_DEPTH
      modifies this, set s | s in active
      ensures ok <==> !TooDeep(g, depth) && old(positionCount) + MemberEntries(g, |g.members|) <= MAX_POSITIONS
      ensures ok ==>
                && Valid() && active == old(active)
                && positionCount == old(positionCount) + MemberEntries(g, |g.members|)
                && findings == old(findings) + MemberFindings(g, |g.members|, place, rangeChecks)
                && dims == Dimensions(MemberPositions(g, |g.members|)) && mixed == SomeMixed(g, |g.members|)
                && forall s :: s in active ==>
                  s.Seen() == CountedAll(old(s.Seen()), s.bounds, MemberPositions(g, |g.members|))
      decreases g, 0
    {
      hide Dimensions, CountedAll, Findings, Positions, Entries;
      NoEntries(place);
      NothingCounted(active);
      ok, dims, mixed := true, {}, false;
      for k := 0 to |g.members|
        invariant ok && Valid() && active == old(active)
        invariant positionCount == old(positionCount) + MemberEntries(g, k) <= MAX_POSITIONS
        invariant forall i :: 0 <= i < k ==> !TooDeep(g.members[i], depth + 1)
        invariant findings == old(findings) + MemberFindings(g, k, place, rangeChecks)
        invariant dims == Dimensions(MemberPositions(g, k)) && mixed == SomeMixed(g, k)
        invariant forall s :: s in active ==> s.Seen() == CountedAll(old(s.Seen()), s.bounds, MemberPositions(g, k))
      {
        label member:
        EntriesGrow(g, k + 1);
        ghost var ps, qs := MemberPositions(g, k), Positions(g.members[k]);
        var childDims;
        ok, childDims := ValidateGeometry(g.members[k], Inside(place, IntoMember(k)), depth + 1);
        if !ok {
          return;
        }
        if |childDims| > 1 {
          mixed := true;
        }
        dims := dims + childDims;
        DimensionsSum(ps, qs);
        forall s | s in active ensures s.Seen() == CountedAll(old(s.Seen()), s.bounds, MemberPositions(g, k + 1)) {
          CountedThen(old(s.Seen()), s.bounds, ps, qs);
        }
      }
    }

    /** A feature: its box is about the positions of its geometry. */
    method ValidateFeature(f: Feature, index: nat) returns (ok: bool)
      requires Valid() && positionCount <= MAX_POSITIONS
      modifies this, set s | s in active
      ensures ok <==> !FeatureTooDeep(f) && old(positionCount) + FeatureEntries(f) <= MAX_POSITIONS
      ensures ok ==>
                && Valid() && active == old(active) && positionCount == old(positionCount) + FeatureEntries(f)
                && findings == old(findings) + FeatureFindings(f, index, rangeChecks)
                && forall s :: s in active ==> s.Seen() == CountedAll(old(s.Seen()), s.bounds, FeaturePositions(f))
    {
      hide OpenBbox, CloseFindings, CountedAll, Entries, TooDeep, Findings, Positions;
      NothingCounted(active);
      ok := true;
      var place := Place(Some(index), []);
      var scope: BboxScope? := null;
      if f.bbox.Some? {
        scope := OpenBboxScope(f.bbox.value, place);
        if scope != null { NothingCounted(active); }
      }
      if f.geometry.Some? {
        var valid, _ := ValidateGeometry(f.geometry.value, Inside(place, IntoGeometry), 1);
        if !valid {
          return false;
        }
      }
      if scope != null {
        var _, _ := CloseBboxScope(scope, FeaturePositions(f));
      }
    }

    lemma FeaturesExact(bbox: Option<RawBbox>, features: seq<Feature>)
      ensures forall f :: f in features ==> (FeatureTooDeep(f) <==> FifthCollection(f))
      ensures forall f ::
        multiset(CollectionFindings(bbox, features, rangeChecks))[f] == Expected(f, bbox, features, rangeChecks)
    {
      forall f | f in features ensures FeatureTooDeep(f) <==> FifthCollection(f) {
        DepthMeaning(f);
      }
      forall f
        ensures multiset(CollectionFindings(bbox, features, rangeChecks))[f] == Expected(f, bbox, features, rangeChecks)
      {
        FindingsExact(f, bbox, features, rangeChecks);
      }
    }

    /** The whole collection; the root's box is about all positions. It answers whether
        the root's box is valid and whether it encloses, where that can be said. */
    method ValidateCollection(bbox: Option<RawBbox>, features: seq<Feature>)
      returns (ok: bool, declaredValid: Option<bool>, encloses: Option<bool>)
      requires Valid() && active == [] && findings == [] && positionCount == 0
      modifies this
      ensures ok <==> AllEntries(features) <= 100_000 && forall f :: f in features ==> !FifthCollection(f)
      ensures ok ==>
                && active == [] && findings == CollectionFindings(bbox, features, rangeChecks)
                && (declaredValid, encloses) == RootVerdict(bbox, AllPositions(features), rangeChecks)
      ensures ok ==> forall f :: multiset(findings)[f] == Expected(f, bbox, features, rangeChecks)
      ensures ok ==> (declaredValid == Some(false) <==>
                      || BoxWrong(BboxInvalid, bbox, AllPoints(features), rangeChecks)
                      || BoxWrong(BboxOutOfRange, bbox, AllPoints(features), rangeChecks)
                      || BoxWrong(BboxDimensionMismatch, bbox, AllPoints(features), rangeChecks))
      ensures ok ==> (encloses == Some(false) <==>
                      BoxWrong(BboxNotEnclosing, bbox, AllPoints(features), rangeChecks))
      ensures ok ==> (encloses == Some(true) <==>
                      && bbox.Some? && Usable(bbox.value, rangeChecks) && (exists p :: p in AllPoints(features))
                      && forall p :: p in AllPoints(features) ==>
                           !Beyond(bbox.value.value, p) && 2 * |p| == |bbox.value.value|)
    {
      FeaturesExact(bbox, features);
      hide AllPoints, BoxWrong, Usable, Beyond, Expected, FifthCollection;
      hide OpenBbox, ParseBbox, CloseFindings, CountedAll, FeatureEntries, FeatureTooDeep, FeatureFindings;
      hide FeaturePositions, Encloses, Mismatches;
      declaredValid, encloses := None, None;
      var root := Place(None, []);
      var scope: BboxScope? := null;
      if bbox.Some? {
        var bounds := ParseDeclaredBbox(bbox.value);
        declaredValid := Some(bounds.Ok?);
        RootOpens(bbox.value, rangeChecks);
        scope := OpenBboxScope(bbox.value, root);
      }
      NothingCounted(active);
      ok := true;
      for k := 0 to |features|
        invariant ok && Valid() && active == (if scope == null then [] else [scope])
        invariant positionCount == AllEntries(features[..k]) <= MAX_POSITIONS
        invariant forall i :: 0 <= i < k ==> !FeatureTooDeep(features[i])
        invariant findings == OpenFindings(bbox, root, rangeChecks) + AllFindings(features[..k], rangeChecks)
        invariant scope != null ==> scope.Seen() == CountedAll(Nothing(), scope.bounds, AllPositions(features[..k]))
        invariant scope != null ==> fresh(scope) && scope.place == root
      {
        assert features[..k + 1][..k] == features[..k];
        AllEntriesGrow(features, k + 1);
        ok := ValidateFeature(features[k], k);
        if !ok {
          assert features[k] in features;
          return;
        }
        if scope != null {
          CountedThen(Nothing(), scope.bounds, AllPositions(features[..k]), FeaturePositions(features[k]));
        }
      }
      assert features[..|features|] == features;
      if scope != null {
        var valid;
        valid, encloses := CloseBboxScope(scope, AllPositions(features));
        if !valid {
          declaredValid := Some(false);
        }
      }
      assert findings == CollectionFindings(bbox, features, rangeChecks);
      assert (declaredValid, encloses) == RootVerdict(bbox, AllPositions(features), rangeChecks);
      hide RootVerdict, CollectionFindings, OpenFindings, AllFindings, BoxFindings, AllPositions, AllEntries;
      VerdictMeaning(bbox, features, rangeChecks);
    }
  }

  lemma RootOpens(raw: RawBbox, rangeChecks: bool)
    ensures ParseBbox(raw, rangeChecks).Ok?
       <==> OpenBbox(raw, rangeChecks).Ok? || OpenBbox(raw, rangeChecks).error.BboxEnclosureUnverified?
  {
  }

  lemma {:induction false} AllEntriesGrow(fs: seq<Feature>, k: nat)
    requires k <= |fs|
    ensures AllEntries(fs[..k]) <= AllEntries(fs)
    decreases |fs| - k
  {
    hide FeatureEntries;
    if k < |fs| {
      AllEntriesGrow(fs, k + 1);
      assert fs[..k + 1][..k] == fs[..k];
    } else {
      assert fs[..k] == fs;
    }
  }

  lemma {:induction false} EntriesGrow(g: Geometry, k: nat)
    requires g.Collection? && k <= |g.members|
    ensures MemberEntries(g, k) <= MemberEntries(g, |g.members|)
    decreases |g.members| - k
  {
    hide Entries;
    if k < |g.members| {
      EntriesGrow(g, k + 1);
    }
  }

  lemma NoEntries(place: Place)
    ensures forall rc :: EntryFindings([], place, rc) == []
    ensures PositionsIn([]) == [] && Dimensions([]) == {}
  {
  }

  lemma NothingCounted(scopes: seq<BboxScope>)
    requires AllGood(scopes)
    ensures forall s, t :: s in scopes ==> CountedAll(t, s.bounds, []) == t
  {
  }

  lemma EntrySnoc(entries: seq<RawPosition>, k: nat, place: Place, rc: bool)
    requires k < |entries|
    ensures EntryFindings(entries[..k + 1], place, rc)
         == EntryFindings(entries[..k], place, rc) + PositionFindings(entries[k], place, rc)
    ensures var ps := PositionsIn(entries[..k]);
            && PositionsIn(entries[..k + 1]) == ps + PositionsOf(entries[k])
            && Dimensions(PositionsIn(entries[..k + 1])) == Dimensions(ps) + Dimensions(PositionsOf(entries[k]))
  {
    assert entries[..k + 1][..k] == entries[..k];
    DimensionsSum(PositionsIn(entries[..k]), PositionsOf(entries[k]));
    hide PositionFindings, Dimensions;
  }

  lemma CountedSnoc(t: Tally, b: Bounds, ps: seq<Ordinates>, raw: RawPosition)
    requires GoodBounds(b)
    ensures CountedAll(t, b, ps + PositionsOf(raw)) == CountEntry(CountedAll(t, b, ps), b, raw)
  {
    if ValidPosition(raw) {
      assert (ps + [raw.value])[..|ps|] == ps;
    } else {
      assert ps + [] == ps;
    }
    hide Counted;
  }
}
