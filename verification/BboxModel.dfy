/** Declared bounding boxes over a geometry tree, scope by scope: what each box says
    of the positions in its own subtree (section 5 of RFC 7946). */
module BboxModel {
  import opened Wrappers

  const MAX_BBOX_DIMENSIONS := 16
  const MAX_COLLECTION_DEPTH := 4
  const MAX_POSITIONS := 100_000

  type Ordinates = seq<real>

  /** A coordinate entry: the numbers it holds, if it is a list of numbers. */
  type RawPosition = Option<Ordinates>

  /** A declared bbox: the numbers it holds, if it is a list of finite numbers. */
  type RawBbox = Option<Ordinates>

  /** A geometry. A leaf lists its coordinate entries in the order of the walk. */
  datatype Geometry =
    | Malformed
    | Leaf(bbox: Option<RawBbox>, entries: seq<RawPosition>)
    | Collection(bbox: Option<RawBbox>, members: seq<Geometry>)
    | MalformedCollection(bbox: Option<RawBbox>)

  datatype Feature = Feature(bbox: Option<RawBbox>, geometry: Option<Geometry>)

  datatype Kind =
    | BboxInvalid
    | BboxOutOfRange
    | BboxEnclosureUnverified
    | BboxNotEnclosing
    | BboxDimensionMismatch
    | PositionInvalid
    | CoordinateOutOfRange
    | CoordinateDimensionMismatch
    | GeometryMalformed

  /** A step from a feature into its geometry, or from a collection into a member. */
  datatype Step = IntoGeometry | IntoMember(i: nat)

  /** Where a finding is: the feature, if any, and the steps leading to it. */
  datatype Place = Place(feature: Option<nat>, path: seq<Step>)

  function Inside(place: Place, step: Step): Place {
    place.(path := place.path + [step])
  }

  datatype Finding = Finding(kind: Kind, place: Place)

  // ------------------------------------------------------------------- positions

  predicate ValidPosition(raw: RawPosition) {
    raw.Some? && |raw.value| >= 2
  }

  function PositionsOf(raw: RawPosition): seq<Ordinates> {
    if ValidPosition(raw) then [raw.value] else []
  }

  function PositionsIn(entries: seq<RawPosition>): seq<Ordinates>
    decreases |entries|
  {
    if entries == [] then []
    else
      var n := |entries| - 1;
      PositionsIn(entries[..n]) + PositionsOf(entries[n])
  }

  /** The valid positions of a subtree, in the order of the walk. */
  function Positions(g: Geometry): seq<Ordinates>
    decreases g, 1, 0
  {
    match g
    case Leaf(_, entries) => PositionsIn(entries)
    case Collection(_, members) => MemberPositions(g, |members|)
    case _ => []
  }

  /** Those of the first n members. */
  function MemberPositions(g: Geometry, n: nat): seq<Ordinates>
    requires g.Collection? && n <= |g.members|
    decreases g, 0, n
  {
    if n == 0 then [] else MemberPositions(g, n - 1) + Positions(g.members[n - 1])
  }

  function Dimensions(ps: seq<Ordinates>): set<nat> {
    set i | 0 <= i < |ps| :: |ps[i]|
  }

  // ----------------------------------------------------------------------- boxes

  datatype Bounds = Bounds(mins: Ordinates, maxs: Ordinates, crossing: bool)

  /** The checks on a declared bbox, in order: its structure, the order of every axis
      but longitude, and the ranges of longitude and latitude. */
  function ParseBbox(raw: RawBbox, rangeChecks: bool): Result<Bounds, Kind> {
    if raw.None? || |raw.value| < 4 || |raw.value| % 2 != 0
       || |raw.value| > MAX_BBOX_DIMENSIONS * 2 then Err(BboxInvalid)
    else
      var half := |raw.value| / 2;
      var mins, maxs := raw.value[..half], raw.value[half..];
      if exists axis :: 1 <= axis < half && mins[axis] > maxs[axis] then Err(BboxInvalid)
      else if rangeChecks && !(InRange(mins[0], mins[1]) && InRange(maxs[0], maxs[1])) then Err(BboxOutOfRange)
      else Ok(Bounds(mins, maxs, mins[0] > maxs[0]))
  }

  predicate InRange(lon: real, lat: real) {
    -180.0 <= lon <= 180.0 && -90.0 <= lat <= 90.0
  }

  /** A scope is opened for a good bbox, unless it wraps and longitudes have no range. */
  function OpenBbox(raw: RawBbox, rangeChecks: bool): Result<Bounds, Kind> {
    match ParseBbox(raw, rangeChecks)
    case Err(kind) => Err(kind)
    case Ok(b) => if b.crossing && !rangeChecks then Err(BboxEnclosureUnverified) else Ok(b)
  }

  predicate InsideAxis(b: Bounds, axis: nat, v: real)
    requires axis < |b.mins| && axis < |b.maxs|
  {
    if axis == 0 && b.crossing then v >= b.mins[0] || v <= b.maxs[0]
    else b.mins[axis] <= v <= b.maxs[axis]
  }

  predicate GoodBounds(b: Bounds) {
    |b.mins| == |b.maxs| >= 2
  }

  /** The position leaves the box on an axis that both represent. */
  predicate Escapes(b: Bounds, p: Ordinates)
    requires GoodBounds(b)
  {
    exists axis :: 0 <= axis < |b.mins| && axis < |p| && !InsideAxis(b, axis, p[axis])
  }

  /** What a box says of positions: false if one escapes, true if there are some, all
      of its dimension and all inside, and otherwise nothing. */
  predicate SomeEscape(b: Bounds, ps: seq<Ordinates>)
    requires GoodBounds(b)
  {
    exists i :: 0 <= i < |ps| && Escapes(b, ps[i])
  }

  predicate AllFit(b: Bounds, ps: seq<Ordinates>) {
    forall i :: 0 <= i < |ps| ==> |ps[i]| == |b.mins|
  }

  function Encloses(b: Bounds, ps: seq<Ordinates>): Option<bool>
    requires GoodBounds(b)
  {
    if SomeEscape(b, ps) then Some(false)
    else if ps != [] && AllFit(b, ps) then Some(true)
    else None
  }

  /** A box is at odds with the dimension of some position. */
  predicate Mismatches(b: Bounds, ps: seq<Ordinates>) {
    !AllFit(b, ps)
  }

  function CloseFindings(b: Bounds, ps: seq<Ordinates>, place: Place): seq<Finding>
    requires GoodBounds(b)
  {
    (if SomeEscape(b, ps) then [Finding(BboxNotEnclosing, place)] else [])
    + (if Mismatches(b, ps) then [Finding(BboxDimensionMismatch, place)] else [])
  }

  // ------------------------------------------------------- findings, scope by scope

  function PositionFindings(raw: RawPosition, place: Place, rangeChecks: bool): seq<Finding> {
    if !ValidPosition(raw) then [Finding(PositionInvalid, place)]
    else if rangeChecks && !InRange(raw.value[0], raw.value[1]) then [Finding(CoordinateOutOfRange, place)]
    else []
  }

  function EntryFindings(entries: seq<RawPosition>, place: Place, rangeChecks: bool): seq<Finding>
    decreases |entries|
  {
    if entries == [] then []
    else
      var n := |entries| - 1;
      EntryFindings(entries[..n], place, rangeChecks) + PositionFindings(entries[n], place, rangeChecks)
  }

  function OpenFindings(bbox: Option<RawBbox>, place: Place, rangeChecks: bool): seq<Finding> {
    if bbox.Some? && OpenBbox(bbox.value, rangeChecks).Err?
      then [Finding(OpenBbox(bbox.value, rangeChecks).error, place)] else []
  }

  lemma OpenIsGood(raw: RawBbox, rangeChecks: bool)
    ensures OpenBbox(raw, rangeChecks).Ok? ==> GoodBounds(OpenBbox(raw, rangeChecks).value)
  {
  }

  /** The findings of a box about the positions of its own subtree. */
  function BoxFindings(bbox: Option<RawBbox>, ps: seq<Ordinates>, place: Place, rangeChecks: bool): seq<Finding> {
    if bbox.Some? && OpenBbox(bbox.value, rangeChecks).Ok? then
      OpenIsGood(bbox.value, rangeChecks);
      CloseFindings(OpenBbox(bbox.value, rangeChecks).value, ps, place)
    else []
  }

  /** Some member is itself of mixed dimension. */
  predicate SomeMixed(g: Geometry, n: nat)
    requires g.Collection? && n <= |g.members|
  {
    exists i :: 0 <= i < n && |Dimensions(Positions(g.members[i]))| > 1
  }

  function BodyFindings(g: Geometry, place: Place, rangeChecks: bool): seq<Finding>
    decreases g, 1, 0
  {
    match g
    case Leaf(_, entries) =>
      EntryFindings(entries, place, rangeChecks)
      + if |Dimensions(PositionsIn(entries))| > 1 then [Finding(CoordinateDimensionMismatch, place)] else []
    case Collection(_, members) =>
      MemberFindings(g, |members|, place, rangeChecks)
      + if |Dimensions(MemberPositions(g, |members|))| > 1 && !SomeMixed(g, |members|)
        then [Finding(CoordinateDimensionMismatch, place)] else []
    case _ => [Finding(GeometryMalformed, place)]
  }

  function BboxOf(g: Geometry): Option<RawBbox> {
    if g.Malformed? then None else g.bbox
  }

  /** The findings of a subtree: on opening its box, inside it, and on closing it,
      where only the subtree's own positions count. */
  function Findings(g: Geometry, place: Place, rangeChecks: bool): seq<Finding>
    decreases g, 2, 0
  {
    OpenFindings(BboxOf(g), place, rangeChecks) + BodyFindings(g, place, rangeChecks)
    + BoxFindings(BboxOf(g), Positions(g), place, rangeChecks)
  }

  function MemberFindings(g: Geometry, n: nat, place: Place, rangeChecks: bool): seq<Finding>
    requires g.Collection? && n <= |g.members|
    decreases g, 0, n
  {
    if n == 0 then []
    else MemberFindings(g, n - 1, place, rangeChecks)
         + Findings(g.members[n - 1], Inside(place, IntoMember(n - 1)), rangeChecks)
  }

  // ---------------------------------------------------------------------- limits

  /** How many coordinate entries the walk counts, valid or not. */
  function Entries(g: Geometry): nat
    decreases g, 1, 0
  {
    match g
    case Leaf(_, entries) => |entries|
    case Collection(_, members) => MemberEntries(g, |members|)
    case _ => 0
  }

  function MemberEntries(g: Geometry, n: nat): nat
    requires g.Collection? && n <= |g.members|
    decreases g, 0, n
  {
    if n == 0 then 0 else MemberEntries(g, n - 1) + Entries(g.members[n - 1])
  }

  /** Some collection lies deeper than allowed; the outermost geometry has depth one. */
  predicate TooDeep(g: Geometry, depth: nat) {
    && (g.Collection? || g.MalformedCollection?)
    && (depth > MAX_COLLECTION_DEPTH
        || (g.Collection? && exists i :: 0 <= i < |g.members| && TooDeep(g.members[i], depth + 1)))
  }

  // ------------------------------------------------------------ the whole collection

  function FeaturePositions(f: Feature): seq<Ordinates> {
    if f.geometry.Some? then Positions(f.geometry.value) else []
  }

  function FeatureEntries(f: Feature): nat {
    if f.geometry.Some? then Entries(f.geometry.value) else 0
  }

  predicate FeatureTooDeep(f: Feature) {
    f.geometry.Some? && TooDeep(f.geometry.value, 1)
  }

  function FeatureFindings(f: Feature, index: nat, rangeChecks: bool): seq<Finding> {
    var place := Place(Some(index), []);
    OpenFindings(f.bbox, place, rangeChecks)
    + (if f.geometry.Some? then Findings(f.geometry.value, Inside(place, IntoGeometry), rangeChecks) else [])
    + BoxFindings(f.bbox, FeaturePositions(f), place, rangeChecks)
  }

  function AllPositions(fs: seq<Feature>): seq<Ordinates>
    decreases |fs|
  {
    if fs == [] then [] else AllPositions(fs[..|fs| - 1]) + FeaturePositions(fs[|fs| - 1])
  }

  function AllEntries(fs: seq<Feature>): nat
    decreases |fs|
  {
    if fs == [] then 0 else AllEntries(fs[..|fs| - 1]) + FeatureEntries(fs[|fs| - 1])
  }

  function AllFindings(fs: seq<Feature>, rangeChecks: bool): seq<Finding>
    decreases |fs|
  {
    if fs == [] then []
    else AllFindings(fs[..|fs| - 1], rangeChecks) + FeatureFindings(fs[|fs| - 1], |fs| - 1, rangeChecks)
  }

  /** The findings about boxes and positions, each box read against its own subtree. */
  function CollectionFindings(bbox: Option<RawBbox>, fs: seq<Feature>, rangeChecks: bool): seq<Finding> {
    var root := Place(None, []);
    OpenFindings(bbox, root, rangeChecks) + AllFindings(fs, rangeChecks)
    + BoxFindings(bbox, AllPositions(fs), root, rangeChecks)
  }

  /** Whether the root's box is valid, and whether it encloses all positions. */
  function RootVerdict(bbox: Option<RawBbox>, ps: seq<Ordinates>, rangeChecks: bool): (Option<bool>, Option<bool>) {
    if bbox.None? then (None, None)
    else
      match OpenBbox(bbox.value, rangeChecks)
      case Err(kind) => (Some(kind.BboxEnclosureUnverified?), None)
      case Ok(b) =>
        OpenIsGood(bbox.value, rangeChecks);
        (Some(!Mismatches(b, ps)), Encloses(b, ps))
  }
}
