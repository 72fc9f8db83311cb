/** The canonical JSON text of a value, and a reader that shows the text
    determines the value up to object key order and the sign of zero. */
module CanonicalJson {
  import opened Wrappers
  import opened JsonText
  import opened JsonNumber
  import opened AssocMaps

  datatype JsNumber = NotFinite | Finite(decimal: Decimal)

  /** The values canonicalJson may be given. An object lists its members in
      property order; plain says that its prototype is the standard one or null. */
  datatype JsValue =
    | Undefined
    | Null
    | Bool(b: bool)
    | Number(n: JsNumber)
    | String(s: Text)
    | Array(items: seq<JsValue>)
    | Object(plain: bool, members: seq<Member>)
    | Other

  datatype Member = Member(key: Text, value: JsValue)

  datatype JsonError = NonFiniteNumber | NotPlainObject | UndefinedMember(key: Text) | UnsupportedType

  const COMMA: Unit := 0x2C
  const COLON: Unit := 0x3A
  const OPEN_BRACKET: Unit := 0x5B
  const CLOSE_BRACKET: Unit := 0x5D
  const OPEN_BRACE: Unit := 0x7B
  const CLOSE_BRACE: Unit := 0x7D
  const NULL_TEXT: Text := [0x6E, 0x75, 0x6C, 0x6C]
  const TRUE_TEXT: Text := [0x74, 0x72, 0x75, 0x65]
  const FALSE_TEXT: Text := [0x66, 0x61, 0x6C, 0x73, 0x65]

  // ----------------------------------------------------------- sorting members

  function InsertMember(m: Member, ms: seq<Member>): (r: seq<Member>)
    ensures |r| == |ms| + 1
    ensures forall x :: x in r <==> x == m || x in ms
  {
    if ms == [] || !Less(ms[0].key, m.key) then [m] + ms
    else
      assert ms == [ms[0]] + ms[1..];
      [ms[0]] + InsertMember(m, ms[1..])
  }

  /** Members in the order of their keys. */
  function SortMembers(ms: seq<Member>): (r: seq<Member>)
    ensures |r| == |ms|
    ensures forall x :: x in r <==> x in ms
  {
    if ms == [] then []
    else
      assert ms == [ms[0]] + ms[1..];
      InsertMember(ms[0], SortMembers(ms[1..]))
  }

  ghost predicate UniqueKeys(ms: seq<Member>) {
    forall i, j :: 0 <= i < j < |ms| ==> ms[i].key != ms[j].key
  }

  ghost predicate Ascending(ms: seq<Member>) {
    forall i, j :: 0 <= i < j < |ms| ==> Less(ms[i].key, ms[j].key)
  }

  lemma {:induction false} InsertAscending(m: Member, ms: seq<Member>)
    requires Ascending(ms) && forall x :: x in ms ==> x.key != m.key
    ensures Ascending(InsertMember(m, ms))
  {
    hide Less;
    if ms != [] && Less(ms[0].key, m.key) {
      InsertAscending(m, ms[1..]);
      var r := InsertMember(m, ms[1..]);
      forall j | 0 <= j < |r| ensures Less(ms[0].key, r[j].key) {
        assert r[j] in r;
      }
    } else if ms != [] {
      assert ms[0] in ms;
      LessTotal(ms[0].key, m.key);
      forall j | 0 <= j < |ms| ensures Less(m.key, ms[j].key) {
        if j > 0 { LessTrans(m.key, ms[0].key, ms[j].key); }
      }
    }
  }

  lemma {:induction false} SortAscending(ms: seq<Member>)
    requires UniqueKeys(ms)
    ensures Ascending(SortMembers(ms))
  {
    if ms != [] {
      SortAscending(ms[1..]);
      forall x | x in SortMembers(ms[1..]) ensures x.key != ms[0].key {
        assert x in ms[1..];
      }
      InsertAscending(ms[0], SortMembers(ms[1..]));
    }
  }

  // ------------------------------------------------------------ canonical text

  /** Texts separated by commas. */
  function Join(ts: seq<Text>): Text {
    if ts == [] then []
    else if |ts| == 1 then ts[0]
    else ts[0] + [COMMA] + Join(ts[1..])
  }

  function Canon(v: JsValue): Result<Text, JsonError>
    decreases v
  {
    match v
    case Null => Ok(NULL_TEXT)
    case Bool(b) => Ok(if b then TRUE_TEXT else FALSE_TEXT)
    case String(s) => Ok(Quote(s))
    case Number(NotFinite) => Err(NonFiniteNumber)
    case Number(Finite(d)) => Ok(NumberText(Unsigned(d)))
    case Array(items) =>
      var ts :- CanonItems(items);
      Ok([OPEN_BRACKET] + Join(ts) + [CLOSE_BRACKET])
    case Object(plain, members) =>
      if !plain then Err(NotPlainObject)
      else
        var ts :- CanonMembers(v, SortMembers(members));
        Ok([OPEN_BRACE] + Join(ts) + [CLOSE_BRACE])
    case Undefined => Err(UnsupportedType)
    case Other => Err(UnsupportedType)
  }

  function CanonItems(items: seq<JsValue>): (r: Result<seq<Text>, JsonError>)
    ensures r.Ok? ==> |r.value| == |items|
    decreases items
  {
    if items == [] then Ok([])
    else
      var t :- Canon(items[0]);
      var ts :- CanonItems(items[1..]);
      Ok([t] + ts)
  }

  function CanonMembers(v: JsValue, ms: seq<Member>): (r: Result<seq<Text>, JsonError>)
    requires forall m :: m in ms ==> m.value < v
    ensures r.Ok? ==> |r.value| == |ms|
    decreases v, |ms|
  {
    if ms == [] then Ok([])
    else if ms[0].value.Undefined? then Err(UndefinedMember(ms[0].key))
    else
      var t :- Canon(ms[0].value);
      var ts :- CanonMembers(v, ms[1..]);
      Ok([Quote(ms[0].key) + [COLON] + t] + ts)
  }

  /** What the function accepts: JSON data, with finite numbers and plain objects. */
  ghost predicate Acceptable(v: JsValue)
    decreases v
  {
    match v
    case Number(n) => n.Finite?
    case Array(items) => forall x :: x in items ==> Acceptable(x)
    case Object(plain, members) => plain && forall m :: m in members ==> Acceptable(m.value)
    case Undefined => false
    case Other => false
    case _ => true
  }

  /** Facts every JavaScript value has: an object never has one key twice, and a
      number is given by its shortest digits. */
  ghost predicate WellFormed(v: JsValue)
    decreases v
  {
    match v
    case Number(n) => n.Finite? ==> Shortest(n.decimal)
    case Array(items) => forall x :: x in items ==> WellFormed(x)
    case Object(_, members) => UniqueKeys(members) && forall m :: m in members ==> WellFormed(m.value)
    case _ => true
  }

  // ------------------------------------------------------------ success exactly

  /** Canonicalization succeeds on exactly the acceptable values. */
  lemma {:induction false} CanonAccepts(v: JsValue)
    ensures Canon(v).Ok? <==> Acceptable(v)
    decreases v
  {
    match v
    case Array(items) => CanonItemsAccepts(items);
    case Object(plain, members) => if plain { CanonMembersAccepts(v, SortMembers(members)); }
    case _ =>
  }

  lemma {:induction false} CanonItemsAccepts(items: seq<JsValue>)
    ensures CanonItems(items).Ok? <==> forall x :: x in items ==> Acceptable(x)
    decreases items
  {
    if items != [] {
      CanonAccepts(items[0]);
      CanonItemsAccepts(items[1..]);
      assert items == [items[0]] + items[1..];
    }
  }

  lemma {:induction false} CanonMembersAccepts(v: JsValue, ms: seq<Member>)
    requires forall m :: m in ms ==> m.value < v
    ensures CanonMembers(v, ms).Ok? <==> forall m :: m in ms ==> Acceptable(m.value)
    decreases v, |ms|
  {
    if ms != [] {
      CanonAccepts(ms[0].value);
      CanonMembersAccepts(v, ms[1..]);
      assert ms == [ms[0]] + ms[1..];
    }
  }

  // ------------------------------------------------------------------- meaning

  /** JSON data: objects as maps, one zero. */
  datatype Json =
    | JNull
    | JBool(b: bool)
    | JNumber(n: Decimal)
    | JString(s: Text)
    | JArray(items: seq<Json>)
    | JObject(members: map<Text, Json>)

  ghost function Meaning(v: JsValue): Json
    requires Acceptable(v)
    decreases v
  {
    match v
    case Null => JNull
    case Bool(b) => JBool(b)
    case Number(Finite(d)) => JNumber(Unsigned(d))
    case String(s) => JString(s)
    case Array(items) => JArray(ItemMeanings(items))
    case Object(_, members) => JObject(ToMap(MemberMeanings(v, members)))
  }

  ghost function ItemMeanings(items: seq<JsValue>): (r: seq<Json>)
    requires forall x :: x in items ==> Acceptable(x)
    ensures |r| == |items|
    decreases items
  {
    if items == [] then [] else [Meaning(items[0])] + ItemMeanings(items[1..])
  }

  ghost function MemberMeanings(v: JsValue, ms: seq<Member>): (r: seq<(Text, Json)>)
    requires forall m :: m in ms ==> m.value < v && Acceptable(m.value)
    ensures |r| == |ms| && forall i :: 0 <= i < |ms| ==> r[i] == (ms[i].key, Meaning(ms[i].value))
    decreases v, |ms|
  {
    if ms == [] then [] else [(ms[0].key, Meaning(ms[0].value))] + MemberMeanings(v, ms[1..])
  }

  lemma AscendingDistinct(ms: seq<Member>)
    requires Ascending(ms)
    ensures UniqueKeys(ms)
  {
    hide Less;
    forall i, j | 0 <= i < j < |ms| ensures ms[i].key != ms[j].key {
      LessTotal(ms[i].key, ms[j].key);
    }
  }

  lemma MeaningsDistinct(v: JsValue, ms: seq<Member>)
    requires UniqueKeys(ms) && forall m :: m in ms ==> m.value < v && Acceptable(m.value)
    ensures DistinctKeys(MemberMeanings(v, ms))
  {
  }

  lemma MeaningCarries(v: JsValue, ms: seq<Member>, w: JsValue, ns: seq<Member>, p: (Text, Json))
    requires forall m :: m in ms ==> m in ns
    requires forall m :: m in ms ==> m.value < v && Acceptable(m.value)
    requires forall m :: m in ns ==> m.value < w && Acceptable(m.value)
    requires p in MemberMeanings(v, ms)
    ensures p in MemberMeanings(w, ns)
  {
    hide Acceptable, Meaning;
    var ps, qs := MemberMeanings(v, ms), MemberMeanings(w, ns);
    hide MemberMeanings;
    var i :| 0 <= i < |ps| && ps[i] == p;
    assert ms[i] in ns;
    var j :| 0 <= j < |ns| && ns[j] == ms[i];
    assert qs[j] == p;
  }

  /** What the members mean as a map depends only on which members there are. */
  lemma SameMembersSameMap(v: JsValue, ms: seq<Member>, w: JsValue, ns: seq<Member>)
    requires UniqueKeys(ms) && UniqueKeys(ns) && forall m :: m in ms <==> m in ns
    requires forall m :: m in ms ==> m.value < v && Acceptable(m.value)
    requires forall m :: m in ns ==> m.value < w && Acceptable(m.value)
    ensures ToMap(MemberMeanings(v, ms)) == ToMap(MemberMeanings(w, ns))
  {
    hide Acceptable, Meaning, ToMap;
    MeaningsDistinct(v, ms);
    MeaningsDistinct(w, ns);
    hide UniqueKeys, DistinctKeys;
    var ps, qs := MemberMeanings(v, ms), MemberMeanings(w, ns);
    forall p ensures p in ps <==> p in qs {
      if p in ps { MeaningCarries(v, ms, w, ns, p); }
      if p in qs { MeaningCarries(w, ns, v, ms, p); }
    }
    SamePairsSameMap(ps, qs);
  }

  /** Sorting the members does not change what an object means. */
  lemma SortKeepsMeaning(v: JsValue)
    requires v.Object? && Acceptable(v) && UniqueKeys(v.members)
    ensures forall m :: m in SortMembers(v.members) ==> m.value < v && Acceptable(m.value)
    ensures ToMap(MemberMeanings(v, SortMembers(v.members))) == ToMap(MemberMeanings(v, v.members))
  {
    MembersAcceptable(v);
    hide Acceptable, Ascending, Meaning, MemberMeanings;
    SortAscending(v.members);
    AscendingDistinct(SortMembers(v.members));
    SameMembersSameMap(v, SortMembers(v.members), v, v.members);
  }

  lemma MembersAcceptable(v: JsValue)
    requires v.Object? && Acceptable(v)
    ensures forall m :: m in v.members ==> m.value < v && Acceptable(m.value)
  {
  }

  // -------------------------------------------------------------------- reading

  function ParseValue(t: Text): (r: Option<(Json, Text)>)
    ensures r.Some? ==> |r.value.1| < |t|
    decreases |t|, 0
  {
    if t == [] then None
    else if t[0] == OPEN_BRACE then
      if |t| > 1 && t[1] == CLOSE_BRACE then Some((JObject(map[]), t[2..]))
      else
        match ParseMembers(t[1..])
        case None => None
        case Some((ms, rest)) => Some((JObject(ToMap(ms)), rest))
    else if t[0] == OPEN_BRACKET then
      if |t| > 1 && t[1] == CLOSE_BRACKET then Some((JArray([]), t[2..]))
      else
        match ParseElements(t[1..])
        case None => None
        case Some((xs, rest)) => Some((JArray(xs), rest))
    else if t[0] == QUOTE then
      match ParseUnits(t[1..])
      case None => None
      case Some((s, rest)) => Some((JString(s), rest))
    else if NULL_TEXT <= t then Some((JNull, t[4..]))
    else if TRUE_TEXT <= t then Some((JBool(true), t[4..]))
    else if FALSE_TEXT <= t then Some((JBool(false), t[5..]))
    else
      match ParseNumber(t)
      case None => None
      case Some((n, rest)) => Some((JNumber(n), rest))
  }

  /** The elements of a nonempty array, up to and including its closing bracket. */
  function ParseElements(t: Text): (r: Option<(seq<Json>, Text)>)
    ensures r.Some? ==> |r.value.1| < |t|
    decreases |t|, 1
  {
    match ParseValue(t)
    case None => None
    case Some((x, t1)) =>
      if t1 != [] && t1[0] == CLOSE_BRACKET then Some(([x], t1[1..]))
      else if t1 != [] && t1[0] == COMMA then
        match ParseElements(t1[1..])
        case None => None
        case Some((xs, rest)) => Some(([x] + xs, rest))
      else None
  }

  /** The members of a nonempty object, up to and including its closing brace. */
  function ParseMembers(t: Text): (r: Option<(seq<(Text, Json)>, Text)>)
    ensures r.Some? ==> |r.value.1| < |t|
    decreases |t|, 1
  {
    if t == [] || t[0] != QUOTE then None
    else
      match ParseUnits(t[1..])
      case None => None
      case Some((key, t1)) =>
        if t1 == [] || t1[0] != COLON then None
        else
          match ParseValue(t1[1..])
          case None => None
          case Some((x, t2)) =>
            if t2 != [] && t2[0] == CLOSE_BRACE then Some(([(key, x)], t2[1..]))
            else if t2 != [] && t2[0] == COMMA then
              match ParseMembers(t2[1..])
              case None => None
              case Some((ms, rest)) => Some(([(key, x)] + ms, rest))
            else None
  }

  /** A whole text is one value and nothing after it. */
  function Parse(t: Text): Option<Json> {
    match ParseValue(t)
    case None => None
    case Some((x, rest)) => if rest == [] then Some(x) else None
  }

  // ----------------------------------------------------------------- round trip

  /** A canonical text never starts with a closing bracket. */
  lemma CanonStart(v: JsValue)
    requires Canon(v).Ok?
    ensures Canon(v).value != [] && Canon(v).value[0] != CLOSE_BRACKET
  {
    match v
    case Number(Finite(d)) => if d.digits != [] { MagnitudeStart(d.digits, d.point, []); }
    case _ =>
  }

  ghost predicate Reads(v: JsValue, rest: Text)
    requires Acceptable(v)
  {
    Canon(v).Ok? && ParseValue(Canon(v).value + rest) == Some((Meaning(v), rest))
  }

  lemma ReadsScalar(v: JsValue, rest: Text)
    requires Acceptable(v) && WellFormed(v) && EndsNumber(rest)
    requires v.Null? || v.Bool? || v.String?
    ensures Reads(v, rest)
  {
    hide QuoteUnits, ParseUnits;
    var t := Canon(v).value + rest;
    match v
    case Null => assert NULL_TEXT <= t && t[4..] == rest;
    case Bool(true) => assert TRUE_TEXT <= t && t[4..] == rest;
    case Bool(false) => assert FALSE_TEXT <= t && t[5..] == rest;
    case String(s) =>
      QuoteRoundTrip(s, rest);
      assert t[1..] == QuoteUnits(s) + ([QUOTE] + rest);
  }

  lemma ReadsNumber(v: JsValue, rest: Text)
    requires Acceptable(v) && WellFormed(v) && EndsNumber(rest) && v.Number?
    ensures Reads(v, rest)
  {
    hide ParseNumber, MagnitudeText, EndsNumber;
    var d := Unsigned(v.n.decimal);
    NumberRoundTrip(d, rest);
    var t := NumberText(d) + rest;
    if d.digits != [] {
      MagnitudeStart(d.digits, d.point, rest);
    }
    assert IsDigit(t[0]) || t[0] == MINUS;
    assert t[0] != NULL_TEXT[0] && t[0] != TRUE_TEXT[0] && t[0] != FALSE_TEXT[0];
  }

  ghost predicate ReadsItems(items: seq<JsValue>, rest: Text)
    requires forall x :: x in items ==> Acceptable(x)
  {
    && CanonItems(items).Ok?
    && ParseElements(Join(CanonItems(items).value) + ([CLOSE_BRACKET] + rest)) == Some((ItemMeanings(items), rest))
  }

  ghost predicate ReadsMembers(v: JsValue, ms: seq<Member>, rest: Text)
    requires forall m :: m in ms ==> m.value < v && Acceptable(m.value)
  {
    && CanonMembers(v, ms).Ok?
    && ParseMembers(Join(CanonMembers(v, ms).value) + ([CLOSE_BRACE] + rest)) == Some((MemberMeanings(v, ms), rest))
  }

  /** One more element in front. */
  lemma ReadsItemsStep(items: seq<JsValue>, rest: Text)
    requires items != [] && forall x :: x in items ==> Acceptable(x)
    requires Canon(items[0]).Ok? && CanonItems(items[1..]).Ok?
    requires var t := if |items| == 1 then [] else Join(CanonItems(items[1..]).value);
             Reads(items[0], (if |items| == 1 then [] else [COMMA] + t) + ([CLOSE_BRACKET] + rest))
    requires |items| > 1 ==> ReadsItems(items[1..], rest)
    ensures ReadsItems(items, rest)
  {
    hide ParseValue, Canon, Meaning, Acceptable;
    var first := Canon(items[0]).value;
    assert CanonItems(items).value == [first] + CanonItems(items[1..]).value;
    var ts := CanonItems(items).value;
    if |items| == 1 {
      assert Join(ts) + ([CLOSE_BRACKET] + rest) == first + ([] + ([CLOSE_BRACKET] + rest));
      var t1: Text := [CLOSE_BRACKET] + rest;
      assert [] + t1 == t1;
      assert t1[1..] == rest;
      assert items[1..] == [];
      assert ItemMeanings(items) == [Meaning(items[0])];
    } else {
      assert ts[1..] == CanonItems(items[1..]).value;
      var t1 := [COMMA] + Join(ts[1..]) + ([CLOSE_BRACKET] + rest);
      assert Join(ts) + ([CLOSE_BRACKET] + rest) == first + t1;
      assert t1[1..] == Join(ts[1..]) + ([CLOSE_BRACKET] + rest);
    }
  }

  lemma ParseOneMember(key: Text, first: Text, t2: Text, x: Json)
    requires ParseValue(first + t2) == Some((x, t2))
    ensures ParseMembers(Quote(key) + [COLON] + first + t2) ==
            if t2 != [] && t2[0] == CLOSE_BRACE then Some(([(key, x)], t2[1..]))
            else if t2 != [] && t2[0] == COMMA && ParseMembers(t2[1..]).Some? then
              Some(([(key, x)] + ParseMembers(t2[1..]).value.0, ParseMembers(t2[1..]).value.1))
            else None
  {
    hide ParseValue, ParseUnits, QuoteUnits;
    var t := Quote(key) + [COLON] + first + t2;
    QuoteRoundTrip(key, [COLON] + (first + t2));
    assert t[1..] == QuoteUnits(key) + ([QUOTE] + ([COLON] + (first + t2)));
    assert ([COLON] + (first + t2))[1..] == first + t2;
  }

  lemma ReadsLastMember(v: JsValue, m: Member, rest: Text)
    requires m.value < v && Acceptable(m.value) && Canon(m.value).Ok?
    requires Reads(m.value, [CLOSE_BRACE] + rest)
    ensures ReadsMembers(v, [m], rest)
  {
    NotUndefined(m.value);
    var first, x := Canon(m.value).value, Meaning(m.value);
    assert CanonMembers(v, [m][1..]) == Ok([]);
    var ts := CanonMembers(v, [m]).value;
    assert ts == [Quote(m.key) + [COLON] + first];
    assert Join(ts) == Quote(m.key) + [COLON] + first;
    assert MemberMeanings(v, [m]) == [(m.key, x)];
    hide ParseValue, Canon, Meaning, Quote, ParseMembers, Acceptable, CanonMembers, MemberMeanings;
    ParseOneMember(m.key, first, [CLOSE_BRACE] + rest, x);
    assert ([CLOSE_BRACE] + rest)[1..] == rest;
  }

  lemma Spliced(head: Text, separator: Unit, body: Text, tail: Text)
    ensures head + [separator] + body + tail == head + ([separator] + (body + tail))
    ensures ([separator] + (body + tail))[1..] == body + tail
  {
  }

  /** One more member in front. */
  lemma ReadsNextMember(v: JsValue, ms: seq<Member>, rest: Text)
    requires |ms| > 1 && forall m :: m in ms ==> m.value < v && Acceptable(m.value)
    requires Canon(ms[0].value).Ok? && CanonMembers(v, ms[1..]).Ok?
    requires Reads(ms[0].value, [COMMA] + (Join(CanonMembers(v, ms[1..]).value) + ([CLOSE_BRACE] + rest)))
    requires ReadsMembers(v, ms[1..], rest)
    ensures ReadsMembers(v, ms, rest)
  {
    NotUndefined(ms[0].value);
    var key, first, x := ms[0].key, Canon(ms[0].value).value, Meaning(ms[0].value);
    var more := CanonMembers(v, ms[1..]).value;
    var ts := CanonMembers(v, ms).value;
    assert ts == [Quote(key) + [COLON] + first] + more;
    assert ts[1..] == more;
    var t2 := [COMMA] + (Join(more) + ([CLOSE_BRACE] + rest));
    assert Join(ts) == Quote(key) + [COLON] + first + [COMMA] + Join(more);
    hide ParseValue, Canon, Meaning, Quote, ParseMembers, Acceptable, CanonMembers, Join;
    ParseOneMember(key, first, t2, x);
    Spliced(Quote(key) + [COLON] + first, COMMA, Join(more), [CLOSE_BRACE] + rest);
  }

  lemma NotUndefined(v: JsValue)
    requires Acceptable(v)
    ensures !v.Undefined?
  {
  }

  lemma {:induction false} ReadsBack(v: JsValue, rest: Text)
    requires Acceptable(v) && WellFormed(v) && EndsNumber(rest)
    ensures Reads(v, rest)
    decreases v
  {
    if v.Array? {
      CanonItemsAccepts(v.items);
      if v.items != [] { ItemsReadBack(v.items, rest); }
      ReadsArray(v, rest);
    } else if v.Object? {
      MembersAcceptable(v);
      CanonMembersAccepts(v, SortMembers(v.members));
      if v.members != [] {
        MembersReadBack(v, SortMembers(v.members), rest);
      }
      ReadsObject(v, rest);
    } else if v.Number? {
      ReadsNumber(v, rest);
    } else {
      ReadsScalar(v, rest);
    }
  }

  lemma Bracketed(open: Unit, body: Text, close: Unit, rest: Text)
    ensures ([open] + body + [close] + rest)[1..] == body + ([close] + rest)
    ensures body != [] ==> ([open] + body + [close] + rest)[1] == body[0]
  {
  }

  lemma ReadsArray(v: JsValue, rest: Text)
    requires v.Array? && Acceptable(v) && CanonItems(v.items).Ok?
    requires v.items != [] ==> ReadsItems(v.items, rest)
    ensures Reads(v, rest)
  {
    var ts := CanonItems(v.items).value;
    var t := Canon(v).value + rest;
    assert Canon(v).value == [OPEN_BRACKET] + Join(ts) + [CLOSE_BRACKET];
    hide ParseElements, Acceptable, Canon, CanonItems;
    if v.items == [] {
      assert Meaning(v) == JArray([]);
      assert ts == [];
      assert t[2..] == rest;
    } else {
      Bracketed(OPEN_BRACKET, Join(ts), CLOSE_BRACKET, rest);
      ItemsStart(v.items);
    }
  }

  lemma ItemsStart(items: seq<JsValue>)
    requires items != [] && CanonItems(items).Ok?
    ensures var t := Join(CanonItems(items).value); t != [] && t[0] != CLOSE_BRACKET
  {
    CanonStart(items[0]);
  }

  lemma MembersStart(v: JsValue, ms: seq<Member>)
    requires ms != [] && (forall m :: m in ms ==> m.value < v) && CanonMembers(v, ms).Ok?
    ensures var t := Join(CanonMembers(v, ms).value); t != [] && t[0] == QUOTE
  {
  }

  lemma ReadsObject(v: JsValue, rest: Text)
    requires v.Object? && Acceptable(v) && UniqueKeys(v.members)
    requires forall m :: m in v.members ==> m.value < v && Acceptable(m.value)
    requires CanonMembers(v, SortMembers(v.members)).Ok?
    requires v.members != [] ==> ReadsMembers(v, SortMembers(v.members), rest)
    ensures Reads(v, rest)
  {
    SortKeepsMeaning(v);
    var sorted := SortMembers(v.members);
    var ts := CanonMembers(v, sorted).value;
    var t := Canon(v).value + rest;
    assert Canon(v).value == [OPEN_BRACE] + Join(ts) + [CLOSE_BRACE];
    hide ParseMembers, UniqueKeys, SortMembers, Canon, CanonMembers;
    if v.members == [] {
      assert ts == [];
      assert t[2..] == rest;
    } else {
      Bracketed(OPEN_BRACE, Join(ts), CLOSE_BRACE, rest);
      MembersStart(v, sorted);
    }
  }

  lemma {:induction false} ItemsReadBack(items: seq<JsValue>, rest: Text)
    requires items != [] && forall x :: x in items ==> Acceptable(x) && WellFormed(x)
    ensures ReadsItems(items, rest)
    decreases items
  {
    hide Reads, ReadsItems, EndsNumber, Acceptable, WellFormed;
    CanonAccepts(items[0]);
    assert forall x :: x in items[1..] ==> x in items;
    CanonItemsAccepts(items[1..]);
    if |items| > 1 { ItemsReadBack(items[1..], rest); }
    var t := if |items| == 1 then [] else Join(CanonItems(items[1..]).value);
    var follow: Text := (if |items| == 1 then [] else [COMMA] + t) + ([CLOSE_BRACKET] + rest);
    PunctuationEnds(follow);
    ReadsBack(items[0], follow);
    ReadsItemsStep(items, rest);
  }

  lemma PunctuationEnds(t: Text)
    requires t != [] && (t[0] == COMMA || t[0] == CLOSE_BRACKET || t[0] == CLOSE_BRACE)
    ensures EndsNumber(t)
  {
  }

  lemma {:induction false} MembersReadBack(v: JsValue, ms: seq<Member>, rest: Text)
    requires ms != [] && forall m :: m in ms ==> m.value < v && Acceptable(m.value) && WellFormed(m.value)
    ensures ReadsMembers(v, ms, rest)
    decreases v, |ms|
  {
    hide Reads, ReadsMembers, EndsNumber, Acceptable, WellFormed;
    CanonAccepts(ms[0].value);
    assert forall m :: m in ms[1..] ==> m in ms;
    CanonMembersAccepts(v, ms[1..]);
    var last: Text := [CLOSE_BRACE] + rest;
    if |ms| == 1 {
      PunctuationEnds(last);
      ReadsBack(ms[0].value, last);
      ReadsLastMember(v, ms[0], rest);
      assert ms == [ms[0]];
    } else {
      MembersReadBack(v, ms[1..], rest);
      var follow := [COMMA] + (Join(CanonMembers(v, ms[1..]).value) + last);
      PunctuationEnds(follow);
      ReadsBack(ms[0].value, follow);
      ReadsNextMember(v, ms, rest);
    }
  }

  /** The text of every value reads back as what the value means. */
  lemma ParseCanon(v: JsValue)
    requires Acceptable(v) && WellFormed(v)
    ensures Canon(v).Ok? && Parse(Canon(v).value) == Some(Meaning(v))
  {
    hide ParseValue, Canon, Meaning, Acceptable, WellFormed;
    ReadsBack(v, []);
    assert Canon(v).value + [] == Canon(v).value;
  }

  // ----------------------------------------------------------------- uniqueness

  ghost predicate AscendingPairs(ps: seq<(Text, Json)>) {
    forall i, j :: 0 <= i < j < |ps| ==> Less(ps[i].0, ps[j].0)
  }

  lemma EmptyMap(ps: seq<(Text, Json)>)
    ensures ToMap(ps) == map[] <==> ps == []
  {
    if ps != [] { assert ps[0].0 in ToMap(ps); }
  }

  /** A map has only one listing in ascending key order. */
  lemma {:induction false} AscendingUnique(ps: seq<(Text, Json)>, qs: seq<(Text, Json)>)
    requires AscendingPairs(ps) && AscendingPairs(qs) && ToMap(ps) == ToMap(qs)
    ensures ps == qs
  {
    hide Less;
    EmptyMap(ps);
    EmptyMap(qs);
    if ps != [] && qs != [] {
      HeadIsLeast(ps, qs);
      HeadIsLeast(qs, ps);
      LessTotal(ps[0].0, qs[0].0);
      TailMap(ps);
      TailMap(qs);
      AscendingUnique(ps[1..], qs[1..]);
      assert ps == [ps[0]] + ps[1..] && qs == [qs[0]] + qs[1..];
    }
  }

  lemma HeadIsLeast(ps: seq<(Text, Json)>, qs: seq<(Text, Json)>)
    requires ps != [] && qs != [] && AscendingPairs(qs) && ToMap(ps) == ToMap(qs)
    ensures ps[0].0 == qs[0].0 || Less(qs[0].0, ps[0].0)
  {
    hide Less;
    ToMapKeys(ps);
    ToMapKeys(qs);
    hide ToMap;
    assert HasKey(ps, ps[0].0);
    assert ps[0].0 in ToMap(ps);
    assert ps[0].0 in ToMap(qs);
  }

  lemma AscendingPairsDistinct(ps: seq<(Text, Json)>)
    requires AscendingPairs(ps)
    ensures DistinctKeys(ps)
  {
    hide Less;
    forall i, j | 0 <= i < j < |ps| ensures ps[i].0 != ps[j].0 {
      LessTotal(ps[i].0, ps[j].0);
    }
  }

  lemma TailMap(ps: seq<(Text, Json)>)
    requires ps != [] && AscendingPairs(ps)
    ensures ToMap(ps[1..]) == ToMap(ps) - {ps[0].0}
    ensures ToMap(ps)[ps[0].0] == ps[0].1
  {
    AscendingPairsDistinct(ps);
    TailLacksHead(ps);
    hide AscendingPairs, DistinctKeys;
  }

  lemma {:induction false} SameMeaningSameText(a: JsValue, b: JsValue)
    requires Acceptable(a) && WellFormed(a) && Acceptable(b) && WellFormed(b)
    requires Meaning(a) == Meaning(b)
    ensures Canon(a) == Canon(b)
    decreases a
  {
    match a
    case Array(items) => SameItems(items, b.items);
    case Object(_, ms) =>
      MembersAcceptable(a);
      MembersAcceptable(b);
      SameSortedMembers(a, b);
      SameMembers(a, SortMembers(ms), b, SortMembers(b.members));
    case _ =>
  }

  lemma {:induction false} SameItems(xs: seq<JsValue>, ys: seq<JsValue>)
    requires forall x :: x in xs ==> Acceptable(x) && WellFormed(x)
    requires forall y :: y in ys ==> Acceptable(y) && WellFormed(y)
    requires ItemMeanings(xs) == ItemMeanings(ys)
    ensures CanonItems(xs) == CanonItems(ys)
    decreases xs
  {
    assert |xs| == |ItemMeanings(xs)| == |ys|;
    if xs != [] {
      assert ItemMeanings(xs)[0] == Meaning(xs[0]) && ItemMeanings(xs)[1..] == ItemMeanings(xs[1..]);
      assert ItemMeanings(ys)[0] == Meaning(ys[0]) && ItemMeanings(ys)[1..] == ItemMeanings(ys[1..]);
      SameMeaningSameText(xs[0], ys[0]);
      SameItems(xs[1..], ys[1..]);
    }
  }

  ghost predicate SameMember(v: JsValue, m: Member, w: JsValue, n: Member)
  {
    && m.key == n.key && m.value < v && n.value < w
    && Acceptable(m.value) && WellFormed(m.value) && Acceptable(n.value) && WellFormed(n.value)
    && Meaning(m.value) == Meaning(n.value)
  }

  lemma SortedPairs(v: JsValue)
    requires v.Object? && Acceptable(v) && WellFormed(v)
    ensures forall m :: m in SortMembers(v.members) ==> m.value < v && Acceptable(m.value) && WellFormed(m.value)
    ensures AscendingPairs(MemberMeanings(v, SortMembers(v.members)))
    ensures Meaning(v) == JObject(ToMap(MemberMeanings(v, SortMembers(v.members))))
  {
    SortKeepsMeaning(v);
    SortAscending(v.members);
    assert forall m :: m in v.members ==> WellFormed(m.value);
  }

  /** The same meaning, hence the same keys in the same order with the same values. */
  lemma SameSortedMembers(a: JsValue, b: JsValue)
    requires a.Object? && Acceptable(a) && WellFormed(a) && b.Object? && Acceptable(b) && WellFormed(b)
    requires Meaning(a) == Meaning(b)
    ensures var ms, ns := SortMembers(a.members), SortMembers(b.members);
            |ms| == |ns| && forall i :: 0 <= i < |ms| ==> SameMember(a, ms[i], b, ns[i])
  {
    SortedPairs(a);
    SortedPairs(b);
    hide Acceptable, WellFormed, Meaning, ToMap, AscendingPairs;
    var ms, ns := SortMembers(a.members), SortMembers(b.members);
    var ps, qs := MemberMeanings(a, ms), MemberMeanings(b, ns);
    AscendingUnique(ps, qs);
    forall i | 0 <= i < |ms| ensures SameMember(a, ms[i], b, ns[i]) {
      assert ms[i] in ms && ns[i] in ns;
      assert ps[i] == qs[i];
    }
  }

  lemma {:induction false} SameMembers(v: JsValue, ms: seq<Member>, w: JsValue, ns: seq<Member>)
    requires |ms| == |ns| && forall i :: 0 <= i < |ms| ==> SameMember(v, ms[i], w, ns[i])
    requires forall m :: m in ms ==> m.value < v
    requires forall n :: n in ns ==> n.value < w
    ensures CanonMembers(v, ms) == CanonMembers(w, ns)
    decreases v, |ms|
  {
    if ms != [] {
      assert SameMember(v, ms[0], w, ns[0]);
      SameMeaningSameText(ms[0].value, ns[0].value);
      SameMembers(v, ms[1..], w, ns[1..]);
    }
  }

  /** Two values have the same canonical text exactly when they mean the same:
      the text is unambiguous, and neither key order nor the sign of zero shows. */
  lemma CanonIsCanonical(a: JsValue, b: JsValue)
    requires Acceptable(a) && WellFormed(a) && Acceptable(b) && WellFormed(b)
    ensures Canon(a) == Canon(b) <==> Meaning(a) == Meaning(b)
  {
    hide Canon, Meaning, Parse, Acceptable, WellFormed;
    ParseCanon(a);
    ParseCanon(b);
    if Meaning(a) == Meaning(b) {
      SameMeaningSameText(a, b);
    }
  }

  lemma SameMembersSameMeaning(ms: seq<Member>, ns: seq<Member>)
    requires Acceptable(Object(true, ms)) && UniqueKeys(ms) && UniqueKeys(ns)
    requires forall m :: m in ms <==> m in ns
    ensures Acceptable(Object(true, ns)) && Meaning(Object(true, ms)) == Meaning(Object(true, ns))
  {
    var a, b := Object(true, ms), Object(true, ns);
    assert Acceptable(b);
    MembersAcceptable(a);
    MembersAcceptable(b);
    SameMembersSameMap(a, ms, b, ns);
  }

  /** Listing an object's members in another order keeps its text. */
  lemma MemberOrderIsIrrelevant(ms: seq<Member>, ns: seq<Member>)
    requires Acceptable(Object(true, ms)) && WellFormed(Object(true, ms))
    requires multiset(ms) == multiset(ns)
    ensures Canon(Object(true, ms)) == Canon(Object(true, ns))
  {
    forall m ensures m in ms <==> m in ns {
      assert m in multiset(ms) <==> m in multiset(ns);
    }
    PermutedDistinct(ms, ns);
    assert WellFormed(Object(true, ns));
    SameMembersSameMeaning(ms, ns);
    hide Canon, Acceptable, WellFormed, Meaning;
    SameMeaningSameText(Object(true, ms), Object(true, ns));
  }

  lemma PermutedDistinct(ms: seq<Member>, ns: seq<Member>)
    requires UniqueKeys(ms) && multiset(ms) == multiset(ns)
    ensures UniqueKeys(ns)
  {
    forall i, j | 0 <= i < j < |ns| ensures ns[i].key != ns[j].key {
      var m := ns[i];
      if m == ns[j] {
        assert ns == ns[..i] + [m] + ns[i + 1..j] + [m] + ns[j + 1..];
        assert multiset(ns)[m] >= 2;
        DistinctOnce(ms, m);
        assert false;
      }
      assert m in multiset(ns) && ns[j] in multiset(ns);
      assert m in ms && ns[j] in ms;
    }
  }

  lemma {:induction false} DistinctOnce(ms: seq<Member>, m: Member)
    requires UniqueKeys(ms)
    ensures multiset(ms)[m] <= 1
  {
    if ms != [] {
      DistinctOnce(ms[1..], m);
      assert ms == [ms[0]] + ms[1..];
      if ms[0] == m {
        assert m !in ms[1..];
      }
    }
  }
}
