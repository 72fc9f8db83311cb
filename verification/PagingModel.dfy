/** Reading the pages of a feature query: the ids that match, one page against its
    batch, and the batches. */
module PagingModel {
  import opened Wrappers

  // ------------------------------------------------------------------------- json

  /** A flag of a response: missing, not a boolean, or a boolean. */
  datatype Flag = Absent | NotBoolean | Is(value: bool)

  /** A number that should be an object id. */
  datatype RawId = Unsafe | Safe(id: int)

  datatype IdList = Null | Missing | Ids(ids: seq<RawId>)

  datatype IdsJson = IdsJson(exceeded: Flag, sameField: bool, objectIds: IdList)

  /** A row as it came; content stands for its attributes and geometry. */
  datatype RawRow = BadRow | Row(id: RawId, content: string)

  datatype PageJson = PageJson(exceeded: Flag, rows: Option<seq<RawRow>>)

  datatype PageError =
    | BadExceededFlag
    | IdsExceeded
    | OtherIdField
    | MissingIds
    | UnsafeId
    | DuplicateId
    | MissingRows
    | MalformedRow
    | UnrequestedId
    | DuplicateInBatch
    | OmittedId

  // -------------------------------------------------------------------------- ids

  function Insert(x: int, xs: seq<int>): seq<int> {
    if xs == [] || x < xs[0] then [x] + xs else [xs[0]] + Insert(x, xs[1..])
  }

  function Sort(xs: seq<int>): seq<int> {
    if xs == [] then [] else Insert(xs[0], Sort(xs[1..]))
  }

  predicate Ascending(xs: seq<int>) {
    forall i, j :: 0 <= i < j < |xs| ==> xs[i] < xs[j]
  }

  predicate NoRepeats(xs: seq<int>) {
    forall i, j :: 0 <= i < j < |xs| ==> xs[i] != xs[j]
  }

  lemma {:induction false} InsertAscends(x: int, xs: seq<int>)
    requires Ascending(xs) && x !in xs
    ensures Ascending(Insert(x, xs)) && (forall y :: y in Insert(x, xs) <==> y == x || y in xs)
    ensures |Insert(x, xs)| == |xs| + 1
  {
    if xs != [] && x >= xs[0] {
      var r := Insert(x, xs[1..]);
      InsertAscends(x, xs[1..]);
      assert xs == [xs[0]] + xs[1..];
      forall j | 0 <= j < |r| ensures xs[0] < r[j] {
        assert r[j] in r;
      }
    }
  }

  lemma {:induction false} SortAscends(xs: seq<int>)
    requires NoRepeats(xs)
    ensures Ascending(Sort(xs)) && (forall y :: y in Sort(xs) <==> y in xs) && |Sort(xs)| == |xs|
  {
    hide Insert;
    if xs != [] {
      assert xs == [xs[0]] + xs[1..];
      assert xs[0] !in xs[1..];
      SortAscends(xs[1..]);
      InsertAscends(xs[0], Sort(xs[1..]));
    }
  }

  function IdsIn(raw: seq<RawId>): (r: seq<int>)
    requires forall v :: v in raw ==> v.Safe?
    ensures |r| == |raw| && forall i :: 0 <= i < |raw| ==> r[i] == raw[i].id
  {
    seq(|raw|, i requires 0 <= i < |raw| => raw[i].id)
  }

  /** A list of matched ids is accepted when it says it is complete, names the layer's
      own field, and holds distinct safe integers. */
  predicate GoodIds(json: IdsJson) {
    && (json.exceeded.Absent? || json.exceeded == Is(false)) && json.sameField
    && (json.objectIds.Null?
        || (json.objectIds.Ids? && (forall v :: v in json.objectIds.ids ==> v.Safe?)
            && NoRepeats(IdsIn(json.objectIds.ids))))
  }

  /** What is wrong with a list of matched ids. */
  ghost predicate IdsFault(json: IdsJson, e: PageError) {
    match e
    case BadExceededFlag => json.exceeded.NotBoolean?
    case IdsExceeded => json.exceeded == Is(true)
    case OtherIdField => !json.sameField
    case MissingIds => json.objectIds.Missing?
    case UnsafeId => json.objectIds.Ids? && Unsafe in json.objectIds.ids
    case DuplicateId => json.objectIds.Ids? && exists i, j ::
      0 <= i < j < |json.objectIds.ids| && json.objectIds.ids[i] == json.objectIds.ids[j]
    case _ => false
  }

  /** The matched ids in ascending order. */
  method ValidateObjectIds(json: IdsJson) returns (r: Result<seq<int>, PageError>)
    ensures r.Ok? <==> GoodIds(json)
    ensures r.Err? ==> IdsFault(json, r.error)
    ensures r.Ok? && json.objectIds.Null? ==> r.value == []
    ensures r.Ok? ==> Ascending(r.value)
    ensures r.Ok? && json.objectIds.Ids? ==>
              |r.value| == |json.objectIds.ids| && forall x :: x in r.value <==> x in IdsIn(json.objectIds.ids)
  {
    if json.exceeded.NotBoolean? {
      return Err(BadExceededFlag);
    }
    if json.exceeded == Is(true) {
      return Err(IdsExceeded);
    }
    if !json.sameField {
      return Err(OtherIdField);
    }
    if json.objectIds.Null? {
      return Ok([]);
    }
    if json.objectIds.Missing? {
      return Err(MissingIds);
    }
    var raw := json.objectIds.ids;
    var seen: set<int>, ids: seq<int> := {}, [];
    for k := 0 to |raw|
      invariant (forall v :: v in raw[..k] ==> v.Safe?) && ids == IdsIn(raw[..k]) && NoRepeats(ids)
      invariant forall x :: x in seen <==> x in ids
    {
      if raw[k].Unsafe? {
        assert raw[k] in raw;
        return Err(UnsafeId);
      }
      assert raw[..k + 1] == raw[..k] + [raw[k]];
      if raw[k].id in seen {
        Repeated(raw, k);
        return Err(DuplicateId);
      }
      seen, ids := seen + {raw[k].id}, ids + [raw[k].id];
    }
    assert raw[..|raw|] == raw;
    SortAscends(ids);
    r := Ok(Sort(ids));
  }

  lemma Repeated(raw: seq<RawId>, k: nat)
    requires k < |raw| && raw[k].Safe? && (forall v :: v in raw[..k] ==> v.Safe?) && raw[k].id in IdsIn(raw[..k])
    ensures exists i, j :: 0 <= i < j < |raw| && raw[i] == raw[j]
    ensures !((forall v :: v in raw ==> v.Safe?) && NoRepeats(IdsIn(raw)))
  {
    var i :| 0 <= i < k && IdsIn(raw[..k])[i] == raw[k].id;
    assert raw[..k][i].Safe? && raw[i] == raw[k];
    if forall v :: v in raw ==> v.Safe? {
      assert IdsIn(raw)[i] == IdsIn(raw)[k];
    }
  }

  /** A list is refused exactly when something is wrong with it. */
  lemma GoodOrFaulty(json: IdsJson)
    ensures GoodIds(json) <==> forall e :: !IdsFault(json, e)
  {
    if !GoodIds(json) {
      if json.exceeded.NotBoolean? { assert IdsFault(json, BadExceededFlag); }
      if json.exceeded == Is(true) { assert IdsFault(json, IdsExceeded); }
      if !json.sameField { assert IdsFault(json, OtherIdField); }
      if json.objectIds.Missing? { assert IdsFault(json, MissingIds); }
      if json.objectIds.Ids? {
        var ids := json.objectIds.ids;
        if Unsafe in ids {
          assert IdsFault(json, UnsafeId);
        } else {
          assert forall v :: v in ids ==> v.Safe?;
          if !NoRepeats(IdsIn(ids)) {
            var i, j :| 0 <= i < j < |ids| && IdsIn(ids)[i] == IdsIn(ids)[j];
            assert ids[i] == ids[j];
            assert IdsFault(json, DuplicateId);
          }
        }
      }
    } else if json.objectIds.Ids? {
      var ids := json.objectIds.ids;
      assert forall i :: 0 <= i < |ids| ==> IdsIn(ids)[i] == ids[i].id;
    }
  }

  // ------------------------------------------------------------------------- page

  datatype Page = Exceeded | Complete(features: map<int, string>)

  /** The row with this id, in a list of good rows. */
  ghost predicate Holds(rows: seq<RawRow>, id: int, content: string) {
    Row(Safe(id), content) in rows
  }

  ghost predicate HasRow(rows: seq<RawRow>, x: int) {
    exists i :: 0 <= i < |rows| && rows[i].Row? && rows[i].id == Safe(x)
  }

  ghost predicate RowsFit(rows: seq<RawRow>, batch: seq<int>) {
    && (forall i :: 0 <= i < |rows| ==> rows[i].Row? && rows[i].id.Safe? && rows[i].id.id in batch)
    && forall i, j :: 0 <= i < j < |rows| ==> rows[i].id != rows[j].id
  }

  /** A page fits its batch when it holds each requested id exactly once and nothing
      else. */
  ghost predicate Fits(rows: seq<RawRow>, batch: seq<int>) {
    RowsFit(rows, batch) && forall x {:trigger HasRow(rows, x)} :: x in batch ==> HasRow(rows, x)
  }

  /** What is wrong with a page that does not say it was cut short. */
  ghost predicate PageFault(json: PageJson, batch: seq<int>, e: PageError) {
    match e
    case BadExceededFlag => json.exceeded.NotBoolean?
    case MissingRows => json.rows.None?
    case OmittedId => json.rows.Some? && RowsFit(json.rows.value, batch) && exists x ::
      x in batch && !HasRow(json.rows.value, x)
    case _ => json.rows.Some? && RowsFault(json.rows.value, batch, e)
  }

  ghost predicate RowsFault(rows: seq<RawRow>, batch: seq<int>, e: PageError) {
    match e
    case MalformedRow => BadRow in rows
    case UnsafeId => exists i :: 0 <= i < |rows| && rows[i].Row? && rows[i].id.Unsafe?
    case UnrequestedId => exists i :: 0 <= i < |rows| && rows[i].Row? && rows[i].id.Safe? && rows[i].id.id !in batch
    case DuplicateInBatch => exists i, j ::
      0 <= i < j < |rows| && rows[i].Row? && rows[j].Row? && rows[i].id == rows[j].id
    case _ => false
  }

  method CollectRows(rows: seq<RawRow>, batch: seq<int>) returns (r: Result<map<int, string>, PageError>)
    ensures r.Ok? <==> RowsFit(rows, batch)
    ensures r.Err? ==> RowsFault(rows, batch, r.error)
    ensures r.Ok? ==> forall x :: x in r.value <==> HasRow(rows, x)
    ensures r.Ok? ==> forall x :: x in r.value ==> x in batch && Holds(rows, x, r.value[x])
  {
    var collected: map<int, string> := map[];
    for k := 0 to |rows|
      invariant RowsFit(rows[..k], batch)
      invariant forall x :: x in collected <==> HasRow(rows[..k], x)
      invariant forall x :: x in collected ==> x in batch && Holds(rows, x, collected[x])
    {
      var row := rows[k];
      if row.BadRow? {
        return Err(MalformedRow);
      }
      if row.id.Unsafe? {
        return Err(UnsafeId);
      }
      if row.id.id !in batch {
        return Err(UnrequestedId);
      }
      if row.id.id in collected {
        RepeatedRow(rows, k, row.id.id);
        return Err(DuplicateInBatch);
      }
      RowSnoc(rows, k, batch);
      collected := collected[row.id.id := row.content];
      assert rows[k] in rows;
    }
    assert rows[..|rows|] == rows;
    r := Ok(collected);
  }

  lemma RepeatedRow(rows: seq<RawRow>, k: nat, x: int)
    requires k < |rows| && rows[k].Row? && rows[k].id == Safe(x) && HasRow(rows[..k], x)
    ensures exists i, j :: 0 <= i < j < |rows| && rows[i].Row? && rows[j].Row? && rows[i].id == rows[j].id
  {
    var i :| 0 <= i < k && rows[..k][i].Row? && rows[..k][i].id == Safe(x);
    assert rows[i].id == rows[k].id;
  }

  lemma RowSnoc(rows: seq<RawRow>, k: nat, batch: seq<int>)
    requires k < |rows| && RowsFit(rows[..k], batch) && rows[k].Row? && rows[k].id.Safe? && rows[k].id.id in batch
    requires !HasRow(rows[..k], rows[k].id.id)
    ensures RowsFit(rows[..k + 1], batch)
    ensures forall x :: HasRow(rows[..k + 1], x) <==> HasRow(rows[..k], x) || x == rows[k].id.id
  {
    var before, after := rows[..k], rows[..k + 1];
    assert after[k] == rows[k] && forall i :: 0 <= i < k ==> after[i] == before[i];
    forall i | 0 <= i < k ensures after[i].id != after[k].id {
      assert before[i].Row? && before[i].id.Safe?;
    }
    forall x | HasRow(before, x) ensures HasRow(after, x) {
      var i :| 0 <= i < k && before[i].Row? && before[i].id == Safe(x);
      assert after[i].id == Safe(x);
    }
  }

  /** A page that says nothing was cut off, and fits its batch. */
  ghost predicate PageFits(json: PageJson, batch: seq<int>) {
    (json.exceeded.Absent? || json.exceeded == Is(false)) && json.rows.Some? && Fits(json.rows.value, batch)
  }

  /** Checks a page against exactly the ids that were requested. */
  method ValidateFeaturePage(json: PageJson, batch: seq<int>) returns (r: Result<Page, PageError>)
    ensures r == Ok(Exceeded) <==> json.exceeded == Is(true)
    ensures r.Ok? && r.value.Complete? <==> PageFits(json, batch)
    ensures r.Err? ==> PageFault(json, batch, r.error)
    ensures r.Ok? && r.value.Complete? ==>
              && (forall x :: x in r.value.features <==> x in batch)
              && forall x :: x in r.value.features ==> Holds(json.rows.value, x, r.value.features[x])
  {
    hide RowsFit, HasRow, Holds;
    if json.exceeded.NotBoolean? {
      return Err(BadExceededFlag);
    }
    if json.exceeded == Is(true) {
      return Ok(Exceeded);
    }
    if json.rows.None? {
      return Err(MissingRows);
    }
    var collected := CollectRows(json.rows.value, batch);
    match collected
    case Err(e) => return Err(e);
    case Ok(features) =>
      for k := 0 to |batch|
        invariant forall i :: 0 <= i < k ==> batch[i] in features
      {
        if batch[k] !in features {
          assert batch[k] in batch && !HasRow(json.rows.value, batch[k]);
          return Err(OmittedId);
        }
      }
      r := Ok(Complete(features));
  }

  /** The ids of good rows. */
  function RowIds(rows: seq<RawRow>): (r: seq<int>)
    requires forall i :: 0 <= i < |rows| ==> rows[i].Row? && rows[i].id.Safe?
    ensures |r| == |rows| && forall i :: 0 <= i < |rows| ==> r[i] == rows[i].id.id
  {
    seq(|rows|, i requires 0 <= i < |rows| => rows[i].id.id)
  }

  /** A page fits a batch without repeats exactly when it was not cut short, all its rows
      are good, and their ids are the batch in some order. */
  lemma PageMeaning(json: PageJson, batch: seq<int>)
    requires NoRepeats(batch)
    ensures PageFits(json, batch) <==>
              && (json.exceeded == Absent || json.exceeded == Is(false)) && json.rows.Some?
              && (forall i :: 0 <= i < |json.rows.value| ==> json.rows.value[i].Row? && json.rows.value[i].id.Safe?)
              && multiset(RowIds(json.rows.value)) == multiset(batch)
  {
    if json.rows.Some? {
      var rows := json.rows.value;
      if forall i :: 0 <= i < |rows| ==> rows[i].Row? && rows[i].id.Safe? {
        RowsAsIds(rows, batch);
        SameWithoutRepeats(RowIds(rows), batch);
        hide RowsFit, HasRow;
      }
    }
  }

  lemma RowsAsIds(rows: seq<RawRow>, batch: seq<int>)
    requires forall i :: 0 <= i < |rows| ==> rows[i].Row? && rows[i].id.Safe?
    ensures RowsFit(rows, batch) <==> NoRepeats(RowIds(rows)) && forall x :: x in RowIds(rows) ==> x in batch
    ensures forall x :: HasRow(rows, x) <==> x in RowIds(rows)
  {
    var ids := RowIds(rows);
    assert forall i, j :: 0 <= i < j < |rows| ==> (rows[i].id != rows[j].id <==> ids[i] != ids[j]);
    forall x ensures HasRow(rows, x) <==> x in ids {
      if x in ids {
        var i :| 0 <= i < |ids| && ids[i] == x;
        assert rows[i].id == Safe(x);
      }
    }
    if RowsFit(rows, batch) {
      forall x | x in ids ensures x in batch {
        var i :| 0 <= i < |ids| && ids[i] == x;
        assert rows[i].id.id in batch;
      }
    }
    if forall x :: x in ids ==> x in batch {
      assert forall i :: 0 <= i < |rows| ==> rows[i].id.id == ids[i] && ids[i] in ids;
    }
  }

  lemma {:induction false} CountOf(xs: seq<int>, x: int)
    requires NoRepeats(xs)
    ensures multiset(xs)[x] == if x in xs then 1 else 0
  {
    if xs != [] {
      assert xs == [xs[0]] + xs[1..];
      CountOf(xs[1..], x);
    }
  }

  lemma CountTwice(xs: seq<int>) returns (x: int)
    requires !NoRepeats(xs)
    ensures multiset(xs)[x] > 1
  {
    var i, j :| 0 <= i < j < |xs| && xs[i] == xs[j];
    x := xs[i];
    assert xs == xs[..j] + xs[j..];
    assert xs[..j][i] == x && xs[j..][0] == x;
    assert x in multiset(xs[..j]) && x in multiset(xs[j..]);
  }

  lemma SameWithoutRepeats(xs: seq<int>, ys: seq<int>)
    requires NoRepeats(ys)
    ensures multiset(xs) == multiset(ys) <==> NoRepeats(xs) && forall x :: x in xs <==> x in ys
  {
    forall x ensures multiset(ys)[x] == if x in ys then 1 else 0 {
      CountOf(ys, x);
    }
    if NoRepeats(xs) {
      forall x ensures multiset(xs)[x] == if x in xs then 1 else 0 {
        CountOf(xs, x);
      }
    } else {
      var twice := CountTwice(xs);
    }
    hide NoRepeats;
    if multiset(xs) == multiset(ys) {
      forall x ensures x in xs <==> x in ys {
        assert x in multiset(xs) <==> x in xs;
        assert x in multiset(ys) <==> x in ys;
      }
    }
  }

  // ---------------------------------------------------------------------- batches

  function Flatten(batches: seq<seq<int>>): seq<int> {
    if batches == [] then [] else batches[0] + Flatten(batches[1..])
  }

  predicate NonEmpty(batches: seq<seq<int>>) {
    forall b :: b in batches ==> b != []
  }

  /** Batches are never more than the ids in them. */
  lemma {:induction false} BatchesWithinIds(batches: seq<seq<int>>)
    requires NonEmpty(batches)
    ensures |batches| <= |Flatten(batches)|
  {
    if batches != [] {
      assert batches[0] in batches && forall b :: b in batches[1..] ==> b in batches;
      BatchesWithinIds(batches[1..]);
    }
  }

  /** How many pages of a size hold some ids. */
  function BatchCount(n: nat, pageSize: nat): nat
    requires pageSize > 0
  {
    (n + pageSize - 1) / pageSize
  }

  function Slices(ids: seq<int>, pageSize: nat): seq<seq<int>>
    requires pageSize > 0
    decreases |ids|
  {
    if ids == [] then [] else if |ids| <= pageSize then [ids] else [ids[..pageSize]] + Slices(ids[pageSize..], pageSize)
  }

  lemma {:induction false} SliceBounds(ids: seq<int>, pageSize: nat)
    requires pageSize > 0
    ensures Flatten(Slices(ids, pageSize)) == ids && NonEmpty(Slices(ids, pageSize))
    ensures |ids| <= pageSize * |Slices(ids, pageSize)| < |ids| + pageSize
    ensures forall b :: b in Slices(ids, pageSize) ==> |b| <= pageSize
    decreases |ids|
  {
    if |ids| > pageSize {
      var first, rest := ids[..pageSize], Slices(ids[pageSize..], pageSize);
      assert Slices(ids, pageSize) == [first] + rest;
      SliceBounds(ids[pageSize..], pageSize);
      hide Slices;
      FirstSlice(first, ids[pageSize..], rest, pageSize);
      assert first + ids[pageSize..] == ids;
    } else if ids != [] {
      assert [ids][1..] == [];
    }
  }

  lemma FirstSlice(first: seq<int>, ids: seq<int>, rest: seq<seq<int>>, pageSize: nat)
    requires pageSize > 0 && |first| == pageSize && Flatten(rest) == ids && NonEmpty(rest)
    requires |ids| <= pageSize * |rest| < |ids| + pageSize && forall b :: b in rest ==> |b| <= pageSize
    ensures Flatten([first] + rest) == first + ids && NonEmpty([first] + rest)
    ensures |first + ids| <= pageSize * |[first] + rest| < |first + ids| + pageSize
    ensures forall b :: b in [first] + rest ==> |b| <= pageSize
  {
    assert ([first] + rest)[1..] == rest;
    NextMultiple(pageSize, |rest|);
    assert |[first] + rest| == |rest| + 1;
  }

  /** Slices of the page size spell the ids, each within that size, as few as can be. */
  lemma SlicesMeaning(ids: seq<int>, pageSize: nat)
    requires pageSize > 0
    ensures Flatten(Slices(ids, pageSize)) == ids && NonEmpty(Slices(ids, pageSize))
    ensures |Slices(ids, pageSize)| == BatchCount(|ids|, pageSize)
    ensures forall b :: b in Slices(ids, pageSize) ==> |b| <= pageSize
  {
    SliceBounds(ids, pageSize);
    CeilingOf(|ids|, pageSize, |Slices(ids, pageSize)|);
  }

  /** Every slice but the last is full, and starts where the one before it ends. */
  lemma {:induction false} SlicesAreFull(ids: seq<int>, pageSize: nat, i: nat)
    requires pageSize > 0 && i < |Slices(ids, pageSize)|
    ensures pageSize * i < |ids|
    ensures var end := if pageSize * i + pageSize < |ids| then pageSize * i + pageSize else |ids|;
            Slices(ids, pageSize)[i] == ids[pageSize * i..end]
    decreases i
  {
    if i == 0 {
      assert pageSize * i == 0;
    } else {
      SlicesAreFull(ids[pageSize..], pageSize, i - 1);
      NextMultiple(pageSize, i - 1);
      var from := pageSize * (i - 1);
      var end := if from + pageSize < |ids| - pageSize then from + pageSize else |ids| - pageSize;
      assert ids[pageSize..][from..end] == ids[from + pageSize..end + pageSize];
    }
  }

  /** Consecutive slices of the page size. */
  method Batches(ids: seq<int>, pageSize: nat) returns (pending: seq<seq<int>>)
    requires pageSize > 0
    ensures pending == Slices(ids, pageSize)
    ensures Flatten(pending) == ids && NonEmpty(pending) && |pending| == BatchCount(|ids|, pageSize)
    ensures forall b :: b in pending ==> |b| <= pageSize
  {
    NoSlices(pageSize);
    hide Flatten, NonEmpty, BatchCount, Slices;
    pending := [];
    var start := 0;
    assert ids[0..] == ids;
    while start < |ids|
      invariant 0 <= start
      invariant Slices(ids, pageSize) == pending + Slices(if start <= |ids| then ids[start..] else [], pageSize)
    {
      var end := if start + pageSize <= |ids| then start + pageSize else |ids|;
      NextSlice(ids, start, end, pageSize);
      pending := pending + [ids[start..end]];
      start := start + pageSize;
    }
    SlicesMeaning(ids, pageSize);
  }

  lemma NoSlices(pageSize: nat)
    requires pageSize > 0
    ensures Slices([], pageSize) == []
  {
  }

  lemma NextSlice(ids: seq<int>, start: nat, end: nat, pageSize: nat)
    requires pageSize > 0 && start < |ids| && end == if start + pageSize <= |ids| then start + pageSize else |ids|
    ensures Slices(ids[start..], pageSize) == [ids[start..end]] + Slices(ids[end..], pageSize)
    ensures start + pageSize > |ids| ==> ids[end..] == []
  {
    var rest := ids[start..];
    if |rest| > pageSize {
      assert rest[..pageSize] == ids[start..end] && rest[pageSize..] == ids[end..];
    } else {
      assert ids[start..end] == rest && ids[end..] == [];
    }
  }

  lemma NextMultiple(p: nat, k: nat)
    ensures p * (k + 1) == p * k + p
  {
  }

  lemma CeilingOf(n: nat, p: nat, k: nat)
    requires p > 0 && n <= p * k < n + p
    ensures k == BatchCount(n, p)
  {
    var q := (n + p - 1) / p;
    assert p * q <= n + p - 1 < p * q + p;
    if q < k {
      LessMultiple(p, q, k);
    } else if k < q {
      LessMultiple(p, k, q);
    }
  }

  lemma {:induction false} LessMultiple(p: nat, a: nat, b: nat)
    requires a < b
    ensures p * a + p <= p * b
    decreases b
  {
    NextMultiple(p, b - 1);
    if a < b - 1 {
      LessMultiple(p, a, b - 1);
    }
  }
}
