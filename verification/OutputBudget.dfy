/** The running size of a feature collection's canonical JSON text in bytes of UTF-8,
    kept feature by feature. */
module OutputBudget {
  import opened Wrappers
  import opened JsonText
  import opened CanonicalJson

  // ------------------------------------------------------------------------ UTF-8

  /** How many bytes of UTF-8 a text takes; a surrogate without its partner takes as
      many as the replacement character. */
  function Utf8Length(t: Text): nat {
    if t == [] then 0
    else if IsHigh(t[0]) && |t| > 1 && IsLow(t[1]) then 4 + Utf8Length(t[2..])
    else (if t[0] < 0x80 then 1 else if t[0] < 0x800 then 2 else 3) + Utf8Length(t[1..])
  }

  predicate StartsWhole(t: Text) {
    t == [] || !IsLow(t[0])
  }

  /** The cut leaves no leading surrogate on its left with a trailing one on its right. */
  predicate CleanCut(a: Text, b: Text) {
    a == [] || b == [] || !(0xD800 <= a[|a| - 1] <= 0xDBFF) || !(0xDC00 <= b[0] <= 0xDFFF)
  }

  /** Sizes add up where no surrogate pair is cut. */
  lemma {:induction false} Utf8Joins(a: Text, b: Text)
    requires CleanCut(a, b)
    ensures Utf8Length(a + b) == Utf8Length(a) + Utf8Length(b)
    decreases |a|
  {
    if a == [] {
      assert a + b == b;
    } else if IsHigh(a[0]) && |a| > 1 && IsLow(a[1]) {
      assert (a + b)[2..] == a[2..] + b;
      Utf8Joins(a[2..], b);
    } else {
      assert (a + b)[1..] == a[1..] + b;
      Utf8Joins(a[1..], b);
    }
  }

  lemma Utf8Sum(a: Text, b: Text)
    requires StartsWhole(b)
    ensures Utf8Length(a + b) == Utf8Length(a) + Utf8Length(b)
  {
    Utf8Joins(a, b);
  }

  /** The size of each code unit, and of a pair of surrogates; a surrogate alone is as long
      as the replacement character U+FFFD. */
  lemma Utf8Units(c: Unit, h: Unit, l: Unit)
    requires 0xD800 <= h <= 0xDBFF && 0xDC00 <= l <= 0xDFFF
    ensures Utf8Length([]) == 0 && Utf8Length([h, l]) == 4
    ensures Utf8Length([c]) == if c <= 0x7F then 1 else if c <= 0x7FF then 2 else 3
  {
    assert [h, l][2..] == [] && [c][1..] == [];
  }

  // ----------------------------------------------------------------- literal texts

  predicate PlainText(t: Text) {
    forall i :: 0 <= i < |t| ==> 0x20 <= t[i] < 0x80 && t[i] != QUOTE && t[i] != BACKSLASH
  }

  /** A plain text is quoted as it is, one byte a character. */
  lemma {:induction false} PlainQuotes(t: Text)
    requires PlainText(t)
    ensures QuoteUnits(t) == t && Utf8Length(t) == |t|
  {
    if t != [] {
      PlainQuotes(t[1..]);
      assert t == [t[0]] + t[1..];
    }
  }

  lemma PlainQuoteSize(t: Text)
    requires PlainText(t)
    ensures Utf8Length(Quote(t)) == |t| + 2 && Quote(t)[0] == QUOTE
  {
    PlainQuotes(t);
    hide QuoteUnits;
    Utf8Sum([QUOTE] + QuoteUnits(t), [QUOTE]);
    Utf8Sum([QUOTE], QuoteUnits(t));
    assert Utf8Length([QUOTE]) == 1;
  }

  const FEATURES := Ascii("features")
  const TYPE := Ascii("type")
  const COLLECTION := Ascii("FeatureCollection")

  /** The lengths of the texts around the features. */
  const PREFIX_BYTES: nat := 13
  const SUFFIX_BYTES: nat := 29

  function FeatureCollection(features: seq<JsValue>): JsValue {
    Object(true, [Member(TYPE, String(COLLECTION)), Member(FEATURES, Array(features))])
  }

  lemma KeysAscend()
    ensures Less(FEATURES, TYPE) && !Less(TYPE, FEATURES)
  {
    assert FEATURES[0] == 0x66 && TYPE[0] == 0x74;
  }

  function Head(): Text {
    [OPEN_BRACE] + (Quote(FEATURES) + [COLON]) + [OPEN_BRACKET]
  }

  function Tail(): Text {
    [CLOSE_BRACKET] + [COMMA] + (Quote(TYPE) + [COLON] + Quote(COLLECTION)) + [CLOSE_BRACE]
  }

  lemma SortTwo(m: Member, n: Member)
    requires Less(n.key, m.key)
    ensures SortMembers([m, n]) == [n, m]
  {
    hide Less;
    assert [m, n][1..] == [n] && [n][1..] == [];
    assert SortMembers([n]) == [n];
    assert InsertMember(m, [n]) == [n] + InsertMember(m, []);
  }

  /** The members of an object of two, in the order given. */
  lemma TwoMembers(v: JsValue, m: Member, n: Member)
    requires m.value < v && n.value < v && !m.value.Undefined? && !n.value.Undefined?
    requires Canon(n.value).Ok?
    ensures forall x :: x in [m, n] ==> x.value < v
    ensures if Canon(m.value).Ok?
            then CanonMembers(v, [m, n]) == Ok([Quote(m.key) + [COLON] + Canon(m.value).value,
                                                Quote(n.key) + [COLON] + Canon(n.value).value])
            else CanonMembers(v, [m, n]).Err?
  {
    hide Canon, Quote;
    assert [m, n][1..] == [n] && [n][1..] == [];
    assert CanonMembers(v, []) == Ok([]);
    var last := Quote(n.key) + [COLON] + Canon(n.value).value;
    assert CanonMembers(v, [n]) == Ok([last] + []);
    assert [last] + [] == [last];
    if Canon(m.value).Ok? {
      var first := Quote(m.key) + [COLON] + Canon(m.value).value;
      assert CanonMembers(v, [m, n]) == Ok([first] + [last]);
      assert [first] + [last] == [first, last];
    }
  }

  /** The canonical text of a collection: its features between a fixed head and tail. */
  lemma CollectionText(features: seq<JsValue>)
    ensures var items := CanonItems(features);
            && (items.Ok? <==> Canon(FeatureCollection(features)).Ok?)
            && (items.Ok? ==> Canon(FeatureCollection(features)).value == Head() + (Join(items.value) + Tail()))
  {
    var v, t, f := FeatureCollection(features), Member(TYPE, String(COLLECTION)), Member(FEATURES, Array(features));
    KeysAscend();
    SortTwo(t, f);
    assert v.members == [t, f];
    assert t in v.members && f in v.members;
    TwoMembers(v, f, t);
    ObjectText(v, f, t);
    hide Quote, CanonMembers, SortMembers, CanonItems, Canon;
    var items := CanonItems(features);
    if items.Ok? {
      Around(Quote(FEATURES), Join(items.value), Quote(TYPE) + [COLON] + Quote(COLLECTION));
    }
  }

  lemma ObjectText(v: JsValue, f: Member, t: Member)
    requires v.Object? && v.plain && SortMembers(v.members) == [f, t] && f.value.Array? && t.value.String?
    requires forall x :: x in [f, t] ==> x.value < v
    ensures Canon(t.value) == Ok(Quote(t.value.s))
    ensures Canon(f.value) == match CanonItems(f.value.items)
                              case Ok(ts) => Ok([OPEN_BRACKET] + Join(ts) + [CLOSE_BRACKET])
                              case Err(e) => Err(e)
    ensures Canon(v) == match CanonMembers(v, [f, t])
                        case Ok(ts) => Ok([OPEN_BRACE] + Join(ts) + [CLOSE_BRACE])
                        case Err(e) => Err(e)
    ensures forall x: Text, y: Text :: Join([x, y]) == x + [COMMA] + y
  {
    forall x: Text, y: Text ensures Join([x, y]) == x + [COMMA] + y {
      assert [x, y][1..] == [y];
    }
    hide Quote, CanonMembers, SortMembers, CanonItems, Join;
  }

  lemma Around(key: Text, body: Text, second: Text)
    ensures [OPEN_BRACE] + (key + [COLON] + ([OPEN_BRACKET] + body + [CLOSE_BRACKET]) + [COMMA] + second)
          + [CLOSE_BRACE]
         == [OPEN_BRACE] + (key + [COLON]) + [OPEN_BRACKET]
          + (body + ([CLOSE_BRACKET] + [COMMA] + second + [CLOSE_BRACE]))
  {
  }

  // ------------------------------------------------------------------------ sizes

  lemma PlainLiterals()
    ensures PlainText(FEATURES) && PlainText(TYPE) && PlainText(COLLECTION)
    ensures |FEATURES| == 8 && |TYPE| == 4 && |COLLECTION| == 17
  {
    assert FEATURES == [0x66, 0x65, 0x61, 0x74, 0x75, 0x72, 0x65, 0x73];
    assert TYPE == [0x74, 0x79, 0x70, 0x65];
    assert COLLECTION == [0x46, 0x65, 0x61, 0x74, 0x75, 0x72, 0x65, 0x43, 0x6F, 0x6C, 0x6C, 0x65, 0x63, 0x74, 0x69,
                          0x6F, 0x6E];
  }

  lemma OneByte(u: Unit)
    requires u < 0x80
    ensures Utf8Length([u]) == 1 && StartsWhole([u])
  {
  }

  lemma HeadIs()
    ensures Ascii("{\"features\":[") == [0x7B, 0x22] + FEATURES + [0x22, 0x3A, 0x5B]
  {
  }

  lemma TypeIs()
    ensures Ascii("],\"type\":") == [0x5D, 0x2C, 0x22] + TYPE + [0x22, 0x3A]
  {
  }

  lemma CollectionIs()
    ensures Ascii("\"FeatureCollection\"}") == [0x22] + COLLECTION + [0x22, 0x7D]
  {
  }

  /** The texts around the features. */
  lemma HeadAndTailTexts()
    ensures Head() == Ascii("{\"features\":[") && Tail() == Ascii("],\"type\":") + Ascii("\"FeatureCollection\"}")
  {
    PlainLiterals();
    PlainQuotes(FEATURES);
    PlainQuotes(TYPE);
    PlainQuotes(COLLECTION);
    HeadIs();
    TypeIs();
    CollectionIs();
    hide QuoteUnits, PlainText, Ascii;
    Flatten(FEATURES, TYPE, COLLECTION);
  }

  lemma Flatten(f: Text, t: Text, c: Text)
    ensures [OPEN_BRACE] + ([QUOTE] + f + [QUOTE] + [COLON]) + [OPEN_BRACKET] == [0x7B, 0x22] + f + [0x22, 0x3A, 0x5B]
    ensures [CLOSE_BRACKET] + [COMMA] + ([QUOTE] + t + [QUOTE] + [COLON] + ([QUOTE] + c + [QUOTE])) + [CLOSE_BRACE]
         == [0x5D, 0x2C, 0x22] + t + [0x22, 0x3A] + ([0x22] + c + [0x22, 0x7D])
  {
  }

  lemma HeadAndTailSizes()
    ensures Utf8Length(Head()) == PREFIX_BYTES == 13 && Utf8Length(Tail()) == SUFFIX_BYTES == 29 && StartsWhole(Tail())
  {
    PlainLiterals();
    PlainQuoteSize(FEATURES);
    PlainQuoteSize(TYPE);
    PlainQuoteSize(COLLECTION);
    hide Quote, PlainText, Utf8Length;
    OneByte(OPEN_BRACE);
    OneByte(COLON);
    OneByte(OPEN_BRACKET);
    OneByte(CLOSE_BRACKET);
    OneByte(COMMA);
    OneByte(CLOSE_BRACE);
    var f, t, c := Quote(FEATURES), Quote(TYPE), Quote(COLLECTION);
    Utf8Sum([OPEN_BRACE] + (f + [COLON]), [OPEN_BRACKET]);
    Utf8Sum([OPEN_BRACE], f + [COLON]);
    Utf8Sum(f, [COLON]);
    Utf8Sum([CLOSE_BRACKET] + [COMMA] + (t + [COLON] + c), [CLOSE_BRACE]);
    Utf8Sum([CLOSE_BRACKET] + [COMMA], t + [COLON] + c);
    Utf8Sum([CLOSE_BRACKET], [COMMA]);
    Utf8Sum(t + [COLON], c);
    Utf8Sum(t, [COLON]);
  }

  /** The bytes of the whole canonical text. */
  ghost function FullBytes(features: seq<JsValue>): nat
    requires Canon(FeatureCollection(features)).Ok?
  {
    Utf8Length(Canon(FeatureCollection(features)).value)
  }

  lemma FullBytesAre(features: seq<JsValue>)
    requires CanonItems(features).Ok? && StartsWhole(Join(CanonItems(features).value))
    ensures Canon(FeatureCollection(features)).Ok?
    ensures FullBytes(features) == PREFIX_BYTES + SUFFIX_BYTES + Utf8Length(Join(CanonItems(features).value))
  {
    CollectionText(features);
    HeadAndTailSizes();
    hide Canon, Head, Tail, Utf8Length, Join, CanonItems;
    var body := Join(CanonItems(features).value);
    StartsWholeThen(body, Tail());
    Utf8Sum(Head(), body + Tail());
    Utf8Sum(body, Tail());
  }

  lemma StartsWholeThen(a: Text, b: Text)
    requires StartsWhole(a) && StartsWhole(b)
    ensures StartsWhole(a + b)
  {
  }

  lemma {:induction false} JoinSnoc(ts: seq<Text>, t: Text)
    ensures Join(ts + [t]) == if ts == [] then t else Join(ts) + [COMMA] + t
  {
    if ts == [] {
      assert [] + [t] == [t];
    } else {
      JoinSnoc(ts[1..], t);
      assert (ts + [t])[1..] == ts[1..] + [t] && (ts + [t])[0] == ts[0];
      assert |ts| == 1 ==> ts[1..] == [];
      Regroup(ts[0], Join(ts[1..]), t);
    }
  }

  lemma Regroup(a: Text, b: Text, c: Text)
    ensures a + [COMMA] + (b + [COMMA] + c) == a + [COMMA] + b + [COMMA] + c
  {
  }

  lemma {:induction false} CanonItemsSnoc(vs: seq<JsValue>, v: JsValue)
    requires CanonItems(vs).Ok?
    ensures CanonItems(vs + [v]) == match Canon(v)
                                    case Ok(t) => Ok(CanonItems(vs).value + [t])
                                    case Err(e) => Err(e)
    decreases |vs|
  {
    hide Canon;
    if vs == [] {
      assert [] + [v] == [v] && [v][1..] == [];
      assert CanonItems([]) == Ok([]);
      assert Canon(v).Ok? ==> [Canon(v).value] + [] == [] + [Canon(v).value];
    } else {
      assert (vs + [v])[1..] == vs[1..] + [v] && (vs + [v])[0] == vs[0];
      CanonItemsSnoc(vs[1..], v);
      if Canon(v).Ok? {
        var first, rest, last := [Canon(vs[0]).value], CanonItems(vs[1..]).value, [Canon(v).value];
        assert first + (rest + last) == first + rest + last;
      }
    }
  }

  /** One feature more makes the text longer by its own bytes, and by a comma unless it
      is the first. */
  lemma JoinGrows(ts: seq<Text>, t: Text)
    requires StartsWhole(Join(ts)) && StartsWhole(t)
    ensures StartsWhole(Join(ts + [t]))
    ensures Utf8Length(Join(ts + [t])) == Utf8Length(Join(ts)) + Utf8Length(t) + if ts == [] then 0 else 1
  {
    JoinSnoc(ts, t);
    if ts != [] {
      hide Join, Utf8Length;
      OneByte(COMMA);
      Utf8Sum(Join(ts) + [COMMA], t);
      Utf8Sum(Join(ts), [COMMA]);
    }
  }

  lemma ObjectStartsWhole(v: JsValue)
    requires v.Object? && Canon(v).Ok?
    ensures StartsWhole(Canon(v).value)
  {
    hide CanonMembers, Join, SortMembers;
  }

  // ----------------------------------------------------------------------- budget

  class Budget {
    const limitBytes: nat
    var featureBytes: nat
    var featureCount: nat
    /** The features added so far. */
    ghost var features: seq<JsValue>

    ghost predicate Valid()
      reads this
    {
      && CanonItems(features).Ok? && featureCount == |features|
      && StartsWhole(Join(CanonItems(features).value)) && featureBytes == Utf8Length(Join(CanonItems(features).value))
    }

    constructor (limitBytes: nat)
      ensures Valid() && features == [] && this.limitBytes == limitBytes
    {
      this.limitBytes := limitBytes;
      featureBytes, featureCount := 0, 0;
      features := [];
    }

    method ObservedBytes() returns (n: nat)
      requires Valid()
      ensures Canon(FeatureCollection(features)).Ok? && n == FullBytes(features)
    {
      FullBytesAre(features);
      n := PREFIX_BYTES + SUFFIX_BYTES + featureBytes;
    }

    /** Adds a feature if the canonical text of the collection with it fits. */
    method AddFeature(text: Text, ghost feature: JsValue) returns (ok: bool)
      requires Valid() && feature.Object? && Canon(feature) == Ok(text)
      modifies this
      ensures Canon(FeatureCollection(old(features) + [feature])).Ok?
      ensures ok <==> FullBytes(old(features) + [feature]) <= limitBytes
      ensures Valid() && features == if ok then old(features) + [feature] else old(features)
    {
      ghost var ts := CanonItems(features).value;
      CanonItemsSnoc(features, feature);
      ObjectStartsWhole(feature);
      JoinGrows(ts, text);
      FullBytesAre(features + [feature]);
      hide Canon, Join, Utf8Length, FullBytes;
      var more := Utf8Length(text) + if featureCount > 0 then 1 else 0;
      ok := PREFIX_BYTES + SUFFIX_BYTES + featureBytes + more <= limitBytes;
      if ok {
        featureBytes, featureCount := featureBytes + more, featureCount + 1;
        features := features + [feature];
      }
    }
  }
}
