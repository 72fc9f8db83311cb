/** What each finding about boxes and positions means: which object it is about and what
    is wrong with that object, told from the declared numbers and the positions. */
module BboxFindings {
  import opened Wrappers
  import opened BboxModel

  // ------------------------------------------------------------------ one box

  /** Two numbers or more for either corner, 16 at most. */
  predicate WellShaped(raw: RawBbox) {
    raw.Some? && 4 <= |raw.value| <= 32 && |raw.value| % 2 == 0
  }

  /** Every axis but longitude runs from its least to its greatest value. */
  ghost predicate Ordered(v: Ordinates) {
    forall axis :: 1 <= axis < |v| / 2 ==> v[axis] <= v[|v| / 2 + axis]
  }

  predicate OnEarth(lon: real, lat: real) {
    -180.0 <= lon <= 180.0 && -90.0 <= lat <= 90.0
  }

  ghost predicate CornersOnEarth(v: Ordinates)
    requires |v| >= 4
  {
    OnEarth(v[0], v[1]) && OnEarth(v[|v| / 2], v[|v| / 2 + 1])
  }

  /** The western edge lies east of the eastern one. */
  predicate Wraps(v: Ordinates)
    requires |v| >= 4
  {
    v[0] > v[|v| / 2]
  }

  /** A box that is compared with positions. */
  ghost predicate Usable(raw: RawBbox, rangeChecks: bool) {
    && WellShaped(raw) && Ordered(raw.value)
    && if rangeChecks then CornersOnEarth(raw.value) else !Wraps(raw.value)
  }

  /** The position is beyond the box on one axis of both: outside the plain interval, or,
      where the box wraps, in the gap it leaves. */
  ghost predicate BeyondOn(v: Ordinates, p: Ordinates, axis: nat)
    requires |v| >= 4
  {
    && axis < |v| / 2 && axis < |p|
    && if axis == 0 && Wraps(v) then v[|v| / 2] < p[0] < v[0]
       else p[axis] < v[axis] || p[axis] > v[|v| / 2 + axis]
  }

  ghost predicate Beyond(v: Ordinates, p: Ordinates)
    requires |v| >= 4
  {
    exists axis: nat :: BeyondOn(v, p, axis)
  }

  /** On the arc that runs eastward from one meridian to another, whole turns aside. */
  ghost predicate OnArc(west: real, east: real, lon: real) {
    exists k: int :: west <= Shifted(lon, k) <= east
  }

  function Shifted(lon: real, turns: int): real {
    lon + 360.0 * (turns as real)
  }

  /** A wrapping box holds a longitude exactly when it lies on the eastward arc from the
      western edge to the eastern one, a turn on. */
  lemma WrappingMeaning(v: Ordinates, p: Ordinates)
    requires |v| >= 4 && Wraps(v) && |p| >= 1
    requires -180.0 <= v[0] <= 180.0 && -180.0 <= v[|v| / 2] <= 180.0 && -180.0 <= p[0] <= 180.0
    ensures !BeyondOn(v, p, 0) <==> OnArc(v[0], v[|v| / 2] + 360.0, p[0])
  {
    var west, east := v[0], v[|v| / 2] + 360.0;
    if p[0] >= west {
      assert west <= Shifted(p[0], 0) <= east;
    }
    if p[0] <= v[|v| / 2] {
      assert west <= Shifted(p[0], 1) <= east;
    }
    if OnArc(west, east, p[0]) {
      var k: int :| west <= Shifted(p[0], k) <= east;
      assert -360.0 < 360.0 * (k as real) < 720.0;
      assert k == 0 || k == 1;
    }
  }

  // ------------------------------------------------- the checks of the model, by case

  lemma HalvesOf(v: Ordinates)
    requires |v| >= 4 && |v| % 2 == 0
    ensures var h := |v| / 2;
            && |v[..h]| == |v[h..]| == h >= 2
            && forall i :: 0 <= i < h ==> v[..h][i] == v[i] && v[h..][i] == v[h + i]
  {
  }

  lemma OpenMeaning(raw: RawBbox, rangeChecks: bool)
    ensures OpenBbox(raw, rangeChecks).Ok? <==> Usable(raw, rangeChecks)
    ensures OpenBbox(raw, rangeChecks) == Err(BboxInvalid) <==> !WellShaped(raw) || !Ordered(raw.value)
    ensures OpenBbox(raw, rangeChecks) == Err(BboxOutOfRange) <==>
            WellShaped(raw) && Ordered(raw.value) && rangeChecks && !CornersOnEarth(raw.value)
    ensures OpenBbox(raw, rangeChecks) == Err(BboxEnclosureUnverified) <==>
            WellShaped(raw) && Ordered(raw.value) && !rangeChecks && Wraps(raw.value)
    ensures Usable(raw, rangeChecks) ==>
              var (v, b) := (raw.value, OpenBbox(raw, rangeChecks).value);
              b == Bounds(v[..|v| / 2], v[|v| / 2..], Wraps(v)) && GoodBounds(b)
  {
    if WellShaped(raw) {
      HalvesOf(raw.value);
    }
  }

  lemma EscapeMeaning(raw: RawBbox, rangeChecks: bool, p: Ordinates)
    requires Usable(raw, rangeChecks)
    ensures OpenBbox(raw, rangeChecks).Ok? && GoodBounds(OpenBbox(raw, rangeChecks).value)
    ensures Escapes(OpenBbox(raw, rangeChecks).value, p) <==> Beyond(raw.value, p)
  {
    OpenMeaning(raw, rangeChecks);
    var v, b := raw.value, OpenBbox(raw, rangeChecks).value;
    HalvesOf(v);
    hide OpenBbox, Usable;
    forall axis: nat | axis < |v| / 2 && axis < |p| ensures BeyondOn(v, p, axis) <==> !InsideAxis(b, axis, p[axis]) {
    }
    if Beyond(v, p) {
      var axis: nat :| BeyondOn(v, p, axis);
      assert !InsideAxis(b, axis, p[axis]);
    }
  }

  // --------------------------------------------------------------------- positions

  /** The geometry that some steps into members lead to. */
  function At(g: Geometry, path: seq<Step>): Option<Geometry>
    decreases |path|
  {
    if path == [] then Some(g)
    else if path[0].IntoMember? && g.Collection? && path[0].i < |g.members| then At(g.members[path[0].i], path[1..])
    else None
  }

  predicate GoodEntry(raw: RawPosition) {
    raw.Some? && |raw.value| >= 2
  }

  ghost predicate EntryAt(g: Geometry, path: seq<Step>, k: nat, p: Ordinates) {
    match At(g, path)
    case Some(Leaf(_, entries)) => k < |entries| && entries[k] == Some(p) && |p| >= 2
    case _ => false
  }

  /** Some leaf of the geometry lists the position. */
  ghost predicate HasPosition(g: Geometry, p: Ordinates) {
    exists path: seq<Step>, k: nat :: EntryAt(g, path, k, p)
  }

  lemma {:induction false} PositionsInMeaning(entries: seq<RawPosition>, p: Ordinates)
    ensures p in PositionsIn(entries) <==> Some(p) in entries && |p| >= 2
    decreases |entries|
  {
    if entries != [] {
      var n := |entries| - 1;
      PositionsInMeaning(entries[..n], p);
      assert entries == entries[..n] + [entries[n]];
    }
  }

  lemma LeafHas(g: Geometry, p: Ordinates)
    requires g.Leaf?
    ensures HasPosition(g, p) <==> Some(p) in g.entries && |p| >= 2
  {
    if Some(p) in g.entries && |p| >= 2 {
      var k: nat :| k < |g.entries| && g.entries[k] == Some(p);
      assert EntryAt(g, [], k, p);
    }
    if HasPosition(g, p) {
      var path: seq<Step>, k: nat :| EntryAt(g, path, k, p);
      assert path == [];
    }
  }

  lemma CollectionHas(g: Geometry, p: Ordinates)
    requires g.Collection?
    ensures HasPosition(g, p) <==> exists i :: 0 <= i < |g.members| && HasPosition(g.members[i], p)
  {
    forall i | 0 <= i < |g.members| && HasPosition(g.members[i], p) ensures HasPosition(g, p) {
      var path: seq<Step>, k: nat :| EntryAt(g.members[i], path, k, p);
      var longer := [IntoMember(i)] + path;
      assert longer[1..] == path;
      assert EntryAt(g, longer, k, p);
    }
    if HasPosition(g, p) {
      var path: seq<Step>, k: nat :| EntryAt(g, path, k, p);
      assert EntryAt(g.members[path[0].i], path[1..], k, p);
    }
  }

  /** The positions of a geometry are those that its leaves list. */
  lemma {:induction false} PositionsMeaning(g: Geometry, p: Ordinates)
    ensures p in Positions(g) <==> HasPosition(g, p)
    decreases g, 1
  {
    match g
    case Leaf(_, entries) =>
      PositionsInMeaning(entries, p);
      LeafHas(g, p);
    case Collection(_, members) =>
      MembersMeaning(g, |members|, p);
      CollectionHas(g, p);
    case _ =>
      forall path: seq<Step>, k: nat ensures !EntryAt(g, path, k, p) {
        assert path != [] ==> At(g, path).None?;
      }
  }

  lemma {:induction false} MembersMeaning(g: Geometry, n: nat, p: Ordinates)
    requires g.Collection? && n <= |g.members|
    ensures p in MemberPositions(g, n) <==> exists i :: 0 <= i < n && HasPosition(g.members[i], p)
    decreases g, 0, n
  {
    if n > 0 {
      hide HasPosition, Positions;
      MembersMeaning(g, n - 1, p);
      PositionsMeaning(g.members[n - 1], p);
    }
  }

  /** Two positions of different dimension. */
  ghost predicate Mixed(g: Geometry) {
    exists p, q :: HasPosition(g, p) && HasPosition(g, q) && |p| != |q|
  }

  lemma TwoDimensions(ps: seq<Ordinates>)
    ensures |Dimensions(ps)| > 1 <==> exists p, q :: p in ps && q in ps && |p| != |q|
  {
    var ds := Dimensions(ps);
    if p, q :| p in ps && q in ps && |p| != |q| {
      assert {|p|, |q|} <= ds;
      SubsetSize({|p|, |q|}, ds);
      assert |{|p|, |q|}| == 2;
    } else if ps != [] {
      assert ps[0] in ps;
      assert ds == {|ps[0]|};
    } else {
      assert ds == {};
    }
  }

  lemma {:induction false} SubsetSize(a: set<nat>, b: set<nat>)
    requires a <= b
    ensures |a| <= |b|
  {
    if a != {} {
      var x :| x in a;
      SubsetSize(a - {x}, b - {x});
    }
  }

  lemma MixedMeaning(g: Geometry)
    ensures |Dimensions(Positions(g))| > 1 <==> Mixed(g)
  {
    TwoDimensions(Positions(g));
    forall p ensures p in Positions(g) <==> HasPosition(g, p) {
      PositionsMeaning(g, p);
    }
    hide Positions, HasPosition, Dimensions;
  }

  // ---------------------------------------------------------- what is wrong with what

  ghost function Points(g: Geometry): iset<Ordinates> {
    iset p | HasPosition(g, p)
  }

  ghost function Listed(ps: seq<Ordinates>): iset<Ordinates> {
    iset p | p in ps
  }

  /** What a finding about a box says: what is wrong with its numbers, or that a point of
      its scope is beyond it or of another dimension. */
  ghost predicate BoxWrong(kind: Kind, bbox: Option<RawBbox>, points: iset<Ordinates>, rangeChecks: bool) {
    match kind
    case BboxInvalid => bbox.Some? && (!WellShaped(bbox.value) || !Ordered(bbox.value.value))
    case BboxOutOfRange =>
      && bbox.Some? && WellShaped(bbox.value) && Ordered(bbox.value.value) && rangeChecks
      && !CornersOnEarth(bbox.value.value)
    case BboxEnclosureUnverified =>
      && bbox.Some? && WellShaped(bbox.value) && Ordered(bbox.value.value) && !rangeChecks
      && Wraps(bbox.value.value)
    case BboxNotEnclosing =>
      bbox.Some? && Usable(bbox.value, rangeChecks) && exists p :: p in points && Beyond(bbox.value.value, p)
    case BboxDimensionMismatch =>
      bbox.Some? && Usable(bbox.value, rangeChecks) && exists p :: p in points && 2 * |p| != |bbox.value.value|
    case _ => false
  }

  predicate Far(raw: RawPosition) {
    GoodEntry(raw) && !OnEarth(raw.value[0], raw.value[1])
  }

  ghost function BadEntries(entries: seq<RawPosition>): set<nat> {
    set k | 0 <= k < |entries| && !GoodEntry(entries[k])
  }

  ghost function FarEntries(entries: seq<RawPosition>): set<nat> {
    set k | 0 <= k < |entries| && Far(entries[k])
  }

  /** A collection whose members are each of one dimension, but not of the same. */
  ghost predicate MixedItself(g: Geometry) {
    g.Collection? && Mixed(g) && forall i :: 0 <= i < |g.members| ==> !Mixed(g.members[i])
  }

  /** How many findings of a kind there are about a geometry itself: one for each bad
      entry, one for each entry that is not on Earth, and one of every other kind at most. */
  ghost function Own(kind: Kind, g: Geometry, rangeChecks: bool): nat {
    match kind
    case PositionInvalid => if g.Leaf? then |BadEntries(g.entries)| else 0
    case CoordinateOutOfRange => if g.Leaf? && rangeChecks then |FarEntries(g.entries)| else 0
    case CoordinateDimensionMismatch =>
      if (g.Leaf? && Mixed(g)) || MixedItself(g) then 1 else 0
    case GeometryMalformed => if g.Malformed? || g.MalformedCollection? then 1 else 0
    case _ => if BoxWrong(kind, BboxOf(g), Points(g), rangeChecks) then 1 else 0
  }

  /** How many findings of a kind there are at a place below a geometry. */
  ghost function Share(f: Finding, g: Geometry, place: Place, rangeChecks: bool): nat {
    if f.place.feature == place.feature && place.path <= f.place.path then
      match At(g, f.place.path[|place.path|..])
      case None => 0
      case Some(h) => Own(f.kind, h, rangeChecks)
    else 0
  }

  // ------------------------------------------------------------------- the counting

  lemma OpenCount(f: Finding, bbox: Option<RawBbox>, place: Place, rangeChecks: bool)
    ensures multiset(OpenFindings(bbox, place, rangeChecks))[f] ==
            if f.place == place && f.kind in {BboxInvalid, BboxOutOfRange, BboxEnclosureUnverified}
               && BoxWrong(f.kind, bbox, iset{}, rangeChecks) then 1 else 0
  {
    if bbox.Some? {
      OpenMeaning(bbox.value, rangeChecks);
      OpenKinds(bbox.value, rangeChecks);
      hide OpenBbox, Usable, WellShaped, Ordered;
    }
  }

  lemma OpenKinds(raw: RawBbox, rangeChecks: bool)
    ensures OpenBbox(raw, rangeChecks).Err? ==>
              OpenBbox(raw, rangeChecks).error in {BboxInvalid, BboxOutOfRange, BboxEnclosureUnverified}
  {
  }

  lemma CloseMeansWrong(raw: RawBbox, ps: seq<Ordinates>, rangeChecks: bool)
    requires Usable(raw, rangeChecks)
    ensures OpenBbox(raw, rangeChecks).Ok? && GoodBounds(OpenBbox(raw, rangeChecks).value)
    ensures var b, points := OpenBbox(raw, rangeChecks).value, Listed(ps);
            && (SomeEscape(b, ps) <==> BoxWrong(BboxNotEnclosing, Some(raw), points, rangeChecks))
            && (Mismatches(b, ps) <==> BoxWrong(BboxDimensionMismatch, Some(raw), points, rangeChecks))
  {
    OpenMeaning(raw, rangeChecks);
    var b := OpenBbox(raw, rangeChecks).value;
    assert 2 * |b.mins| == |raw.value| by { HalvesOf(raw.value); }
    forall p ensures Escapes(b, p) <==> Beyond(raw.value, p) {
      EscapeMeaning(raw, rangeChecks, p);
    }
    hide OpenBbox, Usable, Escapes, Beyond;
    forall p | p in ps ensures exists i :: 0 <= i < |ps| && ps[i] == p {
    }
  }

  lemma CloseCount(f: Finding, bbox: Option<RawBbox>, ps: seq<Ordinates>, place: Place, rangeChecks: bool)
    ensures multiset(BoxFindings(bbox, ps, place, rangeChecks))[f] ==
            if f.place == place && f.kind in {BboxNotEnclosing, BboxDimensionMismatch}
               && BoxWrong(f.kind, bbox, Listed(ps), rangeChecks) then 1 else 0
  {
    if bbox.Some? {
      OpenMeaning(bbox.value, rangeChecks);
      if Usable(bbox.value, rangeChecks) {
        CloseMeansWrong(bbox.value, ps, rangeChecks);
      }
      hide OpenBbox, Usable, SomeEscape, Mismatches, Beyond;
    }
  }

  /** The findings about a box, of whichever kind: at most one of each. */
  lemma BoxCount(f: Finding, bbox: Option<RawBbox>, ps: seq<Ordinates>, points: iset<Ordinates>, place: Place,
                 rangeChecks: bool)
    requires forall p :: p in points <==> p in ps
    ensures multiset(OpenFindings(bbox, place, rangeChecks))[f] + multiset(BoxFindings(bbox, ps, place, rangeChecks))[f]
         == if f.place == place && BoxWrong(f.kind, bbox, points, rangeChecks) then 1 else 0
  {
    OpenCount(f, bbox, place, rangeChecks);
    CloseCount(f, bbox, ps, place, rangeChecks);
    assert points == Listed(ps);
    hide OpenFindings, BoxFindings, Usable, WellShaped, Ordered, Beyond;
  }

  lemma Sum(a: seq<Finding>, b: seq<Finding>, f: Finding)
    ensures multiset(a + b)[f] == multiset(a)[f] + multiset(b)[f]
  {
  }

  lemma Single(x: Finding, f: Finding)
    ensures multiset([x])[f] == if f == x then 1 else 0
  {
  }

  lemma OneMoreBad(entries: seq<RawPosition>, n: nat)
    requires n < |entries|
    ensures |BadEntries(entries[..n + 1])| == |BadEntries(entries[..n])| + if GoodEntry(entries[n]) then 0 else 1
  {
    hide GoodEntry;
    var was, now := BadEntries(entries[..n]), BadEntries(entries[..n + 1]);
    forall k: nat ensures k in now <==> k in was || (k == n && !GoodEntry(entries[n])) {
      assert k < n ==> entries[..n + 1][k] == entries[..n][k];
    }
    assert now == was + if GoodEntry(entries[n]) then {} else {n};
    hide BadEntries;
  }

  lemma OneMoreFar(entries: seq<RawPosition>, n: nat)
    requires n < |entries|
    ensures |FarEntries(entries[..n + 1])| == |FarEntries(entries[..n])| + if Far(entries[n]) then 1 else 0
  {
    hide Far;
    var was, now := FarEntries(entries[..n]), FarEntries(entries[..n + 1]);
    forall k: nat ensures k in now <==> k in was || (k == n && Far(entries[n])) {
      assert k < n ==> entries[..n + 1][k] == entries[..n][k];
    }
    assert now == was + if Far(entries[n]) then {n} else {};
    hide FarEntries;
  }

  lemma PositionCount(f: Finding, raw: RawPosition, place: Place, rangeChecks: bool)
    ensures multiset(PositionFindings(raw, place, rangeChecks))[f] ==
            if f.place != place then 0
            else if f.kind.PositionInvalid? then if GoodEntry(raw) then 0 else 1
            else if f.kind.CoordinateOutOfRange? && rangeChecks then if Far(raw) then 1 else 0
            else 0
  {
  }

  lemma EntriesBody(entries: seq<RawPosition>, n: nat, place: Place, rangeChecks: bool)
    requires n < |entries|
    ensures EntryFindings(entries[..n + 1], place, rangeChecks)
         == EntryFindings(entries[..n], place, rangeChecks) + PositionFindings(entries[n], place, rangeChecks)
  {
    assert entries[..n + 1][..n] == entries[..n];
    hide PositionFindings;
  }

  lemma NoEntryFindings(f: Finding, entries: seq<RawPosition>, place: Place, rangeChecks: bool)
    ensures multiset(EntryFindings(entries[..0], place, rangeChecks))[f] == 0
    ensures |BadEntries(entries[..0])| == |FarEntries(entries[..0])| == 0
  {
    assert BadEntries(entries[..0]) == {} && FarEntries(entries[..0]) == {};
  }

  lemma {:induction false} EntryCount(f: Finding, entries: seq<RawPosition>, n: nat, place: Place, rangeChecks: bool)
    requires n <= |entries|
    ensures multiset(EntryFindings(entries[..n], place, rangeChecks))[f] ==
            if f.place != place then 0
            else if f.kind.PositionInvalid? then |BadEntries(entries[..n])|
            else if f.kind.CoordinateOutOfRange? && rangeChecks then |FarEntries(entries[..n])|
            else 0
    decreases n
  {
    hide *;
    if n == 0 {
      NoEntryFindings(f, entries, place, rangeChecks);
    } else {
      EntryCount(f, entries, n - 1, place, rangeChecks);
      OneMoreBad(entries, n - 1);
      OneMoreFar(entries, n - 1);
      EntriesBody(entries, n - 1, place, rangeChecks);
      PositionCount(f, entries[n - 1], place, rangeChecks);
      Sum(EntryFindings(entries[..n - 1], place, rangeChecks), PositionFindings(entries[n - 1], place, rangeChecks), f);
    }
  }

  /** The findings about a geometry itself, other than those about its box. */
  ghost function BodyOwn(kind: Kind, g: Geometry, rangeChecks: bool): nat {
    if kind in {BboxInvalid, BboxOutOfRange, BboxEnclosureUnverified, BboxNotEnclosing, BboxDimensionMismatch} then 0
    else Own(kind, g, rangeChecks)
  }

  ghost function MixedFinding(mixed: bool, place: Place): seq<Finding> {
    if mixed then [Finding(CoordinateDimensionMismatch, place)] else []
  }

  lemma MixedCount(f: Finding, mixed: bool, place: Place)
    ensures multiset(MixedFinding(mixed, place))[f]
         == if f.place == place && f.kind.CoordinateDimensionMismatch? && mixed then 1 else 0
  {
    Single(Finding(CoordinateDimensionMismatch, place), f);
  }

  lemma LeafBody(g: Geometry, place: Place, rangeChecks: bool)
    requires g.Leaf?
    ensures BodyFindings(g, place, rangeChecks)
         == EntryFindings(g.entries, place, rangeChecks) + MixedFinding(Mixed(g), place)
  {
    MixedMeaning(g);
    assert Positions(g) == PositionsIn(g.entries);
    hide EntryFindings, Mixed, Dimensions, PositionsIn, Positions;
  }

  lemma LeafOwn(kind: Kind, g: Geometry, rangeChecks: bool)
    requires g.Leaf?
    ensures BodyOwn(kind, g, rangeChecks) ==
            if kind.PositionInvalid? then |BadEntries(g.entries)|
            else if kind.CoordinateOutOfRange? && rangeChecks then |FarEntries(g.entries)|
            else if kind.CoordinateDimensionMismatch? && Mixed(g) then 1
            else 0
  {
    hide BadEntries, FarEntries, Mixed;
  }

  lemma LeafCount(f: Finding, g: Geometry, place: Place, rangeChecks: bool)
    requires g.Leaf?
    ensures multiset(BodyFindings(g, place, rangeChecks))[f]
         == if f.place == place then BodyOwn(f.kind, g, rangeChecks) else 0
  {
    EntryCount(f, g.entries, |g.entries|, place, rangeChecks);
    assert g.entries[..|g.entries|] == g.entries;
    LeafBody(g, place, rangeChecks);
    MixedCount(f, Mixed(g), place);
    LeafOwn(f.kind, g, rangeChecks);
    hide *;
    Sum(EntryFindings(g.entries, place, rangeChecks), MixedFinding(Mixed(g), place), f);
  }

  /** What the first n members of a collection contribute. */
  ghost function MemberShare(f: Finding, g: Geometry, n: nat, place: Place, rangeChecks: bool): nat
    requires g.Collection? && n <= |g.members|
  {
    if f.place.feature == place.feature && place.path < f.place.path
       && (var step := f.place.path[|place.path|]; step.IntoMember? && step.i < n)
    then Share(f, g.members[f.place.path[|place.path|].i], Inside(place, f.place.path[|place.path|]), rangeChecks)
    else 0
  }

  lemma InsideMember(f: Finding, place: Place, i: nat)
    ensures var inner := Inside(place, IntoMember(i));
            f.place.feature == inner.feature && inner.path <= f.place.path <==>
            f.place.feature == place.feature && place.path < f.place.path
            && f.place.path[|place.path|] == IntoMember(i)
  {
  }

  lemma MemberShareStep(f: Finding, g: Geometry, n: nat, place: Place, rangeChecks: bool)
    requires g.Collection? && n < |g.members|
    ensures MemberShare(f, g, n + 1, place, rangeChecks) == MemberShare(f, g, n, place, rangeChecks)
         + Share(f, g.members[n], Inside(place, IntoMember(n)), rangeChecks)
  {
    InsideMember(f, place, n);
    hide Own, At;
  }

  lemma MembersBody(g: Geometry, n: nat, place: Place, rangeChecks: bool)
    requires g.Collection? && n < |g.members|
    ensures MemberFindings(g, n + 1, place, rangeChecks)
         == MemberFindings(g, n, place, rangeChecks) + Findings(g.members[n], Inside(place, IntoMember(n)), rangeChecks)
  {
    hide Findings;
  }

  lemma NothingOfNone(f: Finding, g: Geometry, place: Place, rangeChecks: bool)
    requires g.Collection?
    ensures MemberShare(f, g, 0, place, rangeChecks) == multiset(MemberFindings(g, 0, place, rangeChecks))[f] == 0
  {
    hide Share;
  }

  lemma {:induction false} MemberCount(f: Finding, g: Geometry, n: nat, place: Place, rangeChecks: bool)
    requires g.Collection? && n <= |g.members|
    ensures multiset(MemberFindings(g, n, place, rangeChecks))[f] == MemberShare(f, g, n, place, rangeChecks)
    decreases g, 0, n
  {
    hide *;
    if n == 0 {
      NothingOfNone(f, g, place, rangeChecks);
    } else {
      var inner := Inside(place, IntoMember(n - 1));
      MembersBody(g, n - 1, place, rangeChecks);
      MemberCount(f, g, n - 1, place, rangeChecks);
      FindingCount(f, g.members[n - 1], inner, rangeChecks);
      MemberShareStep(f, g, n - 1, place, rangeChecks);
      Sum(MemberFindings(g, n - 1, place, rangeChecks), Findings(g.members[n - 1], inner, rangeChecks), f);
    }
  }

  lemma SomeMixedMeaning(g: Geometry)
    requires g.Collection?
    ensures SomeMixed(g, |g.members|) <==> exists i :: 0 <= i < |g.members| && Mixed(g.members[i])
  {
    forall i | 0 <= i < |g.members| ensures |Dimensions(Positions(g.members[i]))| > 1 <==> Mixed(g.members[i]) {
      MixedMeaning(g.members[i]);
    }
    hide Mixed, Dimensions, Positions;
  }

  lemma CollectionBody(g: Geometry, place: Place, rangeChecks: bool)
    requires g.Collection?
    ensures BodyFindings(g, place, rangeChecks)
         == MemberFindings(g, |g.members|, place, rangeChecks) + MixedFinding(MixedItself(g), place)
  {
    MixedMeaning(g);
    SomeMixedMeaning(g);
    assert Positions(g) == MemberPositions(g, |g.members|);
    hide MemberFindings, Mixed, Dimensions, Positions, SomeMixed, MemberPositions;
  }

  lemma NoShareHere(f: Finding, g: Geometry, place: Place, rangeChecks: bool)
    requires g.Collection?
    ensures f.place == place ==> MemberShare(f, g, |g.members|, place, rangeChecks) == 0
  {
    hide Share;
  }

  lemma CollectionOwn(kind: Kind, g: Geometry, rangeChecks: bool)
    requires g.Collection?
    ensures BodyOwn(kind, g, rangeChecks) == if kind.CoordinateDimensionMismatch? && MixedItself(g) then 1 else 0
  {
    hide Mixed;
  }

  lemma CollectionCount(f: Finding, g: Geometry, place: Place, rangeChecks: bool)
    requires g.Collection?
    requires multiset(MemberFindings(g, |g.members|, place, rangeChecks))[f]
          == MemberShare(f, g, |g.members|, place, rangeChecks)
    ensures multiset(BodyFindings(g, place, rangeChecks))[f] ==
            if f.place == place then BodyOwn(f.kind, g, rangeChecks)
            else MemberShare(f, g, |g.members|, place, rangeChecks)
  {
    CollectionBody(g, place, rangeChecks);
    MixedCount(f, MixedItself(g), place);
    NoShareHere(f, g, place, rangeChecks);
    CollectionOwn(f.kind, g, rangeChecks);
    hide *;
    Sum(MemberFindings(g, |g.members|, place, rangeChecks), MixedFinding(MixedItself(g), place), f);
  }

  lemma ShareOf(f: Finding, g: Geometry, place: Place, rangeChecks: bool)
    ensures Share(f, g, place, rangeChecks) ==
            if f.place == place then Own(f.kind, g, rangeChecks)
            else if g.Collection? then MemberShare(f, g, |g.members|, place, rangeChecks) else 0
  {
    hide Own;
    if f.place.feature == place.feature && place.path <= f.place.path {
      var path := f.place.path[|place.path|..];
      if path == [] {
        assert f.place.path == place.path;
      } else if g.Collection? && path[0].IntoMember? && path[0].i < |g.members| {
        InsideMember(f, place, path[0].i);
        assert path[1..] == f.place.path[|place.path| + 1..];
      }
    }
  }

  lemma BodyCount(f: Finding, g: Geometry, place: Place, rangeChecks: bool)
    requires g.Collection? ==>
      multiset(MemberFindings(g, |g.members|, place, rangeChecks))[f]
      == MemberShare(f, g, |g.members|, place, rangeChecks)
    ensures multiset(BodyFindings(g, place, rangeChecks))[f] ==
            if f.place == place then BodyOwn(f.kind, g, rangeChecks)
            else if g.Collection? then MemberShare(f, g, |g.members|, place, rangeChecks) else 0
  {
    if g.Leaf? {
      LeafCount(f, g, place, rangeChecks);
    } else if g.Collection? {
      CollectionCount(f, g, place, rangeChecks);
    }
    hide Mixed;
  }

  /** Just the findings that are called for, in a geometry and everything below it. */
  lemma {:induction false} FindingCount(f: Finding, g: Geometry, place: Place, rangeChecks: bool)
    ensures multiset(Findings(g, place, rangeChecks))[f] == Share(f, g, place, rangeChecks)
    decreases g, 1
  {
    if g.Collection? {
      MemberCount(f, g, |g.members|, place, rangeChecks);
    }
    BodyCount(f, g, place, rangeChecks);
    ShareOf(f, g, place, rangeChecks);
    forall p ensures p in Points(g) <==> p in Positions(g) {
      PositionsMeaning(g, p);
    }
    BoxCount(f, BboxOf(g), Positions(g), Points(g), place, rangeChecks);
    OwnParts(f.kind, g, rangeChecks);
    hide OpenFindings, BodyFindings, BoxFindings, Own, BodyOwn, Share, MemberShare, Points, Positions, BoxWrong;
  }

  lemma OwnParts(kind: Kind, g: Geometry, rangeChecks: bool)
    ensures Own(kind, g, rangeChecks) == BodyOwn(kind, g, rangeChecks)
         + if BoxWrong(kind, BboxOf(g), Points(g), rangeChecks) then 1 else 0
  {
    hide Usable, WellShaped, Ordered, Mixed;
  }

  // --------------------------------------------------------- features and the whole

  ghost function FeaturePoints(f: Feature): iset<Ordinates> {
    if f.geometry.Some? then Points(f.geometry.value) else iset{}
  }

  ghost predicate SomeFeatureHas(fs: seq<Feature>, p: Ordinates) {
    exists i :: 0 <= i < |fs| && p in FeaturePoints(fs[i])
  }

  ghost function AllPoints(fs: seq<Feature>): iset<Ordinates> {
    iset p | SomeFeatureHas(fs, p)
  }

  /** How often a finding is called for by a collection: by its own box, by a feature's
      box, or by a geometry of a feature. */
  ghost function Expected(f: Finding, bbox: Option<RawBbox>, fs: seq<Feature>, rangeChecks: bool): nat {
    match f.place.feature
    case None =>
      if f.place.path == [] && BoxWrong(f.kind, bbox, AllPoints(fs), rangeChecks) then 1 else 0
    case Some(i) => if i < |fs| then FeatureShare(f, fs[i], rangeChecks) else 0
  }

  ghost function FeatureShare(f: Finding, feature: Feature, rangeChecks: bool): nat {
    if f.place.path == [] then
      if BoxWrong(f.kind, feature.bbox, FeaturePoints(feature), rangeChecks) then 1 else 0
    else if f.place.path[0].IntoGeometry? && feature.geometry.Some? then
      match At(feature.geometry.value, f.place.path[1..])
      case None => 0
      case Some(g) => Own(f.kind, g, rangeChecks)
    else 0
  }

  lemma FeatureHas(f: Feature, p: Ordinates)
    ensures p in FeaturePoints(f) <==> p in FeaturePositions(f)
  {
    if f.geometry.Some? {
      PositionsMeaning(f.geometry.value, p);
    }
    hide HasPosition, Positions;
  }

  lemma {:induction false} AllHave(fs: seq<Feature>, p: Ordinates)
    ensures p in AllPoints(fs) <==> p in AllPositions(fs)
    decreases |fs|
  {
    hide FeaturePoints, FeaturePositions;
    if fs != [] {
      var n := |fs| - 1;
      AllHave(fs[..n], p);
      FeatureHas(fs[n], p);
      if p in AllPoints(fs[..n]) {
        var i :| 0 <= i < n && p in FeaturePoints(fs[..n][i]);
        assert fs[i] == fs[..n][i];
      }
      if p in AllPoints(fs) {
        var i :| 0 <= i < |fs| && p in FeaturePoints(fs[i]);
        assert i < n ==> fs[i] == fs[..n][i];
      }
    }
  }

  lemma GeometryShare(f: Finding, g: Geometry, index: nat, rangeChecks: bool)
    ensures Share(f, g, Inside(Place(Some(index), []), IntoGeometry), rangeChecks) ==
            if f.place.feature == Some(index) && f.place.path != [] && f.place.path[0].IntoGeometry?
            then match At(g, f.place.path[1..])
                 case None => 0
                 case Some(h) => Own(f.kind, h, rangeChecks)
            else 0
  {
    hide Own;
    var inner := Inside(Place(Some(index), []), IntoGeometry);
    assert inner.path == [IntoGeometry];
    assert inner.path <= f.place.path <==> f.place.path != [] && f.place.path[0] == IntoGeometry;
  }

  lemma FeatureCount(f: Finding, feature: Feature, index: nat, rangeChecks: bool)
    ensures multiset(FeatureFindings(feature, index, rangeChecks))[f]
         == if f.place.feature == Some(index) then FeatureShare(f, feature, rangeChecks) else 0
  {
    var place := Place(Some(index), []);
    forall p ensures p in FeaturePoints(feature) <==> p in FeaturePositions(feature) {
      FeatureHas(feature, p);
    }
    BoxCount(f, feature.bbox, FeaturePositions(feature), FeaturePoints(feature), place, rangeChecks);
    if feature.geometry.Some? {
      FindingCount(f, feature.geometry.value, Inside(place, IntoGeometry), rangeChecks);
      GeometryShare(f, feature.geometry.value, index, rangeChecks);
    }
    hide OpenFindings, BoxFindings, Findings, FeaturePoints, FeaturePositions, BoxWrong, Own, At, Share;
    assert f.place == place <==> f.place.feature == Some(index) && f.place.path == [];
  }

  lemma {:induction false} FeaturesCount(f: Finding, fs: seq<Feature>, n: nat, rangeChecks: bool)
    requires n <= |fs|
    ensures multiset(AllFindings(fs[..n], rangeChecks))[f] ==
            if f.place.feature.Some? && f.place.feature.value < n
            then FeatureShare(f, fs[f.place.feature.value], rangeChecks) else 0
    decreases n
  {
    hide FeatureFindings, FeatureShare;
    if n > 0 {
      FeaturesCount(f, fs, n - 1, rangeChecks);
      FeatureCount(f, fs[n - 1], n - 1, rangeChecks);
      assert fs[..n][..n - 1] == fs[..n - 1];
    }
  }

  /** The findings of a collection are just those that are called for, each as often. */
  lemma FindingsExact(f: Finding, bbox: Option<RawBbox>, fs: seq<Feature>, rangeChecks: bool)
    ensures multiset(CollectionFindings(bbox, fs, rangeChecks))[f] == Expected(f, bbox, fs, rangeChecks)
  {
    FeaturesCount(f, fs, |fs|, rangeChecks);
    assert fs[..|fs|] == fs;
    forall p ensures p in AllPoints(fs) <==> p in AllPositions(fs) {
      AllHave(fs, p);
    }
    BoxCount(f, bbox, AllPositions(fs), AllPoints(fs), Place(None, []), rangeChecks);
    hide OpenFindings, BoxFindings, AllFindings, FeatureShare, AllPoints, AllPositions, BoxWrong;
    assert f.place == Place(None, []) <==> f.place.feature.None? && f.place.path == [];
  }

  /** The verdict on the collection's own box: valid unless its numbers or a dimension are
      wrong; false where a point is beyond it, true where all are of its dimension and
      within, and nothing otherwise. */
  lemma VerdictMeaning(bbox: Option<RawBbox>, fs: seq<Feature>, rangeChecks: bool)
    ensures var (valid, encloses) := RootVerdict(bbox, AllPositions(fs), rangeChecks);
            && (valid.None? <==> bbox.None?)
            && (valid == Some(false) <==>
                  || BoxWrong(BboxInvalid, bbox, AllPoints(fs), rangeChecks)
                  || BoxWrong(BboxOutOfRange, bbox, AllPoints(fs), rangeChecks)
                  || BoxWrong(BboxDimensionMismatch, bbox, AllPoints(fs), rangeChecks))
            && (encloses == Some(false) <==> BoxWrong(BboxNotEnclosing, bbox, AllPoints(fs), rangeChecks))
            && (encloses == Some(true) <==>
                  && bbox.Some? && Usable(bbox.value, rangeChecks) && (exists p :: p in AllPoints(fs))
                  && forall p :: p in AllPoints(fs) ==> !Beyond(bbox.value.value, p) && 2 * |p| == |bbox.value.value|)
  {
    var ps := AllPositions(fs);
    forall p ensures p in AllPoints(fs) <==> p in ps {
      AllHave(fs, p);
    }
    assert AllPoints(fs) == Listed(ps);
    if bbox.Some? {
      OpenMeaning(bbox.value, rangeChecks);
      OpenKinds(bbox.value, rangeChecks);
      if Usable(bbox.value, rangeChecks) {
        CloseMeansWrong(bbox.value, ps, rangeChecks);
        assert ps != [] ==> ps[0] in Listed(ps);
      }
      hide OpenBbox, Usable, SomeEscape, Mismatches, Beyond, AllPoints, AllPositions;
    }
  }

  // ------------------------------------------------------------------------- limits

  /** A collection, well formed or not, behind some steps. */
  ghost predicate CollectionAt(g: Geometry, path: seq<Step>) {
    At(g, path).Some? && (At(g, path).value.Collection? || At(g, path).value.MalformedCollection?)
  }

  lemma {:induction false} TooDeepMeaning(g: Geometry, depth: nat)
    ensures TooDeep(g, depth) <==> exists path: seq<Step> :: CollectionAt(g, path) && depth + |path| > 4
    decreases g
  {
    if TooDeep(g, depth) {
      if depth > 4 {
        assert CollectionAt(g, []);
      } else {
        var i :| 0 <= i < |g.members| && TooDeep(g.members[i], depth + 1);
        TooDeepMeaning(g.members[i], depth + 1);
        var path: seq<Step> :| CollectionAt(g.members[i], path) && depth + 1 + |path| > 4;
        var longer := [IntoMember(i)] + path;
        assert longer[1..] == path;
        assert CollectionAt(g, longer) && depth + |longer| > 4;
      }
    }
    forall path: seq<Step> | CollectionAt(g, path) && depth + |path| > 4 ensures TooDeep(g, depth) {
      if path != [] {
        TooDeepMeaning(g.members[path[0].i], depth + 1);
        assert CollectionAt(g.members[path[0].i], path[1..]);
      }
    }
  }

  /** A collection in a collection in a collection in a collection in a collection. */
  ghost predicate FifthCollection(f: Feature) {
    f.geometry.Some? && exists path: seq<Step> :: CollectionAt(f.geometry.value, path) && |path| >= 4
  }

  lemma DepthMeaning(f: Feature)
    ensures FeatureTooDeep(f) <==> FifthCollection(f)
  {
    if f.geometry.Some? {
      TooDeepMeaning(f.geometry.value, 1);
    }
    hide TooDeep, CollectionAt;
  }

  /** Every entry of a leaf counts, good or bad, and nothing else does. */
  lemma EntryLaws(bbox: Option<RawBbox>, entries: seq<RawPosition>, members: seq<Geometry>, g: Geometry,
                  fs: seq<Feature>, f: Feature)
    ensures Entries(Leaf(bbox, entries)) == |entries|
    ensures Entries(Malformed) == Entries(MalformedCollection(bbox)) == Entries(Collection(bbox, [])) == 0
    ensures Entries(Collection(bbox, members + [g])) == Entries(Collection(bbox, members)) + Entries(g)
    ensures AllEntries([]) == 0 && AllEntries(fs + [f]) == AllEntries(fs) + FeatureEntries(f)
    ensures FeatureEntries(f) == if f.geometry.Some? then Entries(f.geometry.value) else 0
  {
    assert (fs + [f])[..|fs|] == fs;
    SameEntries(Collection(bbox, members + [g]), Collection(bbox, members), |members|);
  }

  lemma {:induction false} SameEntries(g: Geometry, h: Geometry, n: nat)
    requires g.Collection? && h.Collection? && n <= |g.members| && n <= |h.members|
    requires g.members[..n] == h.members[..n]
    ensures MemberEntries(g, n) == MemberEntries(h, n)
    decreases n
  {
    if n > 0 {
      assert g.members[n - 1] == g.members[..n][n - 1] == h.members[n - 1];
      assert g.members[..n - 1] == g.members[..n][..n - 1] == h.members[..n - 1];
      SameEntries(g, h, n - 1);
    }
  }
}
