/** What the canonical text looks like, spelled out: the order of keys, the punctuation,
    and how strings and numbers are written. */
module CanonicalText {
  import opened Wrappers
  import opened JsonText
  import opened JsonNumber
  import opened AssocMaps
  import opened CanonicalJson

  // ------------------------------------------------------------------- key order

  /** The keys as they stand in the text: each comes before the next. */
  ghost predicate KeysInOrder(ps: seq<(Text, Json)>) {
    forall i, j :: 0 <= i < j < |ps| ==> Precedes(ps[i].0, ps[j].0)
  }

  /** Reading the text of an object from behind its brace to its end yields its members
      in the order of their keys, and nothing is left over. */
  lemma MembersStandInOrder(v: JsValue) returns (ps: seq<(Text, Json)>)
    requires Acceptable(v) && WellFormed(v) && v.Object? && v.members != []
    ensures Canon(v).Ok? && Canon(v).value != [] && Canon(v).value[0] == OPEN_BRACE
    ensures ParseMembers(Canon(v).value[1..]) == Some((ps, [])) && KeysInOrder(ps)
    ensures |ps| == |v.members| && Meaning(v) == JObject(ToMap(ps))
    ensures forall i :: 0 <= i < |ps| ==> exists m :: m in v.members && m.key == ps[i].0
  {
    var sorted := SortMembers(v.members);
    MembersAcceptable(v);
    assert forall m :: m in v.members ==> WellFormed(m.value);
    SortedPairs(v);
    ps := MemberMeanings(v, sorted);
    MembersReadBack(v, sorted, []);
    var ts := CanonMembers(v, sorted).value;
    assert Canon(v) == Ok([OPEN_BRACE] + Join(ts) + [CLOSE_BRACE]);
    assert Canon(v).value[1..] == Join(ts) + ([CLOSE_BRACE] + []);
    hide Canon, CanonMembers, ParseMembers, Less, Acceptable, WellFormed, Meaning, Join, ToMap;
    forall i, j | 0 <= i < j < |ps| ensures Precedes(ps[i].0, ps[j].0) {
      LessMeaning(ps[i].0, ps[j].0);
    }
    forall i | 0 <= i < |ps| ensures exists m :: m in v.members && m.key == ps[i].0 {
      assert sorted[i] in sorted && sorted[i] in v.members;
    }
  }

  // ----------------------------------------------------------------- punctuation

  /** The literals of the language, and its empty collections. */
  lemma LiteralTexts()
    ensures Canon(Null) == Ok(Ascii("null")) && Canon(Bool(true)) == Ok(Ascii("true"))
    ensures Canon(Bool(false)) == Ok(Ascii("false"))
    ensures Canon(Array([])) == Ok(Ascii("[]")) && Canon(Object(true, [])) == Ok(Ascii("{}"))
  {
    assert Ascii("null") == [0x6E, 0x75, 0x6C, 0x6C] && Ascii("true") == [0x74, 0x72, 0x75, 0x65];
    assert Ascii("false") == [0x66, 0x61, 0x6C, 0x73, 0x65];
    assert Ascii("[]") == [0x5B, 0x5D] && Ascii("{}") == [0x7B, 0x7D];
    assert CanonItems([]) == Ok([]) && Join([]) == [];
    assert CanonMembers(Object(true, []), SortMembers([])) == Ok([]);
    assert [OPEN_BRACKET] + [] + [CLOSE_BRACKET] == Ascii("[]") && [OPEN_BRACE] + [] + [CLOSE_BRACE] == Ascii("{}");
  }

  /** Texts between brackets are cut open where two collections are put together. */
  function Opened(t: Text): Text {
    if t == [] then [] else t[..|t| - 1]
  }

  function Unopened(t: Text): Text {
    if t == [] then [] else t[1..]
  }

  lemma {:induction false} JoinSplit(ts: seq<Text>, us: seq<Text>)
    requires ts != [] && us != []
    ensures Join(ts + us) == Join(ts) + [COMMA] + Join(us)
  {
    assert (ts + us)[0] == ts[0] && (ts + us)[1..] == ts[1..] + us;
    if |ts| > 1 {
      JoinSplit(ts[1..], us);
      assert ts[0] + [COMMA] + (Join(ts[1..]) + [COMMA] + Join(us))
          == ts[0] + [COMMA] + Join(ts[1..]) + [COMMA] + Join(us);
    } else {
      assert ts[1..] + us == us;
    }
  }

  lemma {:induction false} ItemsSplit(vs: seq<JsValue>, ws: seq<JsValue>)
    requires CanonItems(vs).Ok? && CanonItems(ws).Ok?
    ensures CanonItems(vs + ws) == Ok(CanonItems(vs).value + CanonItems(ws).value)
  {
    hide Canon;
    if vs == [] {
      assert vs + ws == ws && CanonItems([]).value == [];
      assert [] + CanonItems(ws).value == CanonItems(ws).value;
    } else {
      assert (vs + ws)[0] == vs[0] && (vs + ws)[1..] == vs[1..] + ws;
      ItemsSplit(vs[1..], ws);
      var t, ts, us := Canon(vs[0]).value, CanonItems(vs[1..]).value, CanonItems(ws).value;
      assert [t] + (ts + us) == [t] + ts + us;
    }
  }

  lemma Cut(open: Unit, a: Text, b: Text, close: Unit)
    ensures var s, t := [open] + a + [close], [open] + b + [close];
            [open] + (a + [COMMA] + b) + [close] == Opened(s) + [COMMA] + Unopened(t)
  {
    assert Opened([open] + a + [close]) == [open] + a;
    assert Unopened([open] + b + [close]) == b + [close];
  }

  /** An array of one item is its text between square brackets. */
  lemma OneItem(v: JsValue)
    requires Canon(v).Ok?
    ensures Canon(Array([v])) == Ok(Ascii("[") + Canon(v).value + Ascii("]"))
  {
    assert Ascii("[") == [0x5B] && Ascii("]") == [0x5D];
    assert [v][1..] == [] && CanonItems([]) == Ok([]);
    var t := Canon(v).value;
    hide Canon;
    assert CanonItems([v]) == Ok([t] + []);
    assert [t] + [] == [t] && Join([t]) == t;
    ArrayIs([v]);
  }

  lemma ArrayIs(items: seq<JsValue>)
    requires CanonItems(items).Ok?
    ensures Canon(Array(items)) == Ok([OPEN_BRACKET] + Join(CanonItems(items).value) + [CLOSE_BRACKET])
  {
  }

  /** Two nonempty arrays one after the other: a comma where the first one's closing and
      the second one's opening bracket were. */
  lemma ArraysJoin(vs: seq<JsValue>, ws: seq<JsValue>)
    requires vs != [] && ws != [] && Canon(Array(vs)).Ok? && Canon(Array(ws)).Ok?
    ensures Canon(Array(vs + ws))
         == Ok(Opened(Canon(Array(vs)).value) + Ascii(",") + Unopened(Canon(Array(ws)).value))
  {
    assert Ascii(",") == [0x2C];
    CanonItemsAreOk(vs);
    CanonItemsAreOk(ws);
    ItemsSplit(vs, ws);
    ArrayIs(vs);
    ArrayIs(ws);
    ArrayIs(vs + ws);
    hide Canon, CanonItems;
    JoinSplit(CanonItems(vs).value, CanonItems(ws).value);
    Cut(OPEN_BRACKET, Join(CanonItems(vs).value), Join(CanonItems(ws).value), CLOSE_BRACKET);
  }

  lemma CanonItemsAreOk(items: seq<JsValue>)
    requires Canon(Array(items)).Ok?
    ensures CanonItems(items).Ok? && |CanonItems(items).value| == |items|
  {
  }

  lemma ObjectIs(ms: seq<Member>)
    requires CanonMembers(Object(true, ms), SortMembers(ms)).Ok?
    ensures Canon(Object(true, ms))
         == Ok([OPEN_BRACE] + Join(CanonMembers(Object(true, ms), SortMembers(ms)).value) + [CLOSE_BRACE])
  {
  }

  lemma MembersAreOk(ms: seq<Member>)
    requires Canon(Object(true, ms)).Ok?
    ensures CanonMembers(Object(true, ms), SortMembers(ms)).Ok?
    ensures |CanonMembers(Object(true, ms), SortMembers(ms)).value| == |ms|
  {
  }

  /** An object of one member is its key, a colon and its value between braces. */
  lemma OneMember(m: Member)
    requires Canon(m.value).Ok?
    ensures Canon(Object(true, [m])) == Ok(Ascii("{") + Quote(m.key) + Ascii(":") + Canon(m.value).value + Ascii("}"))
  {
    var v, t := Object(true, [m]), Canon(m.value).value;
    assert Ascii("{") == [0x7B] && Ascii("}") == [0x7D] && Ascii(":") == [0x3A];
    assert [m][1..] == [] && SortMembers([]) == [] && SortMembers([m]) == [m];
    assert !m.value.Undefined?;
    assert CanonMembers(v, []) == Ok([]);
    assert m in v.members;
    hide Canon, Quote, SortMembers, Ascii;
    var text := Quote(m.key) + [COLON] + t;
    assert CanonMembers(v, [m]) == Ok([text] + []);
    assert [text] + [] == [text] && Join([text]) == text;
    ObjectIs([m]);
    assert [OPEN_BRACE] + text + [CLOSE_BRACE] == [OPEN_BRACE] + Quote(m.key) + [COLON] + t + [CLOSE_BRACE];
  }

  /** All keys of the first list come before all keys of the second. */
  ghost predicate KeysBefore(ms: seq<Member>, ns: seq<Member>) {
    forall m, n :: m in ms && n in ns ==> Precedes(m.key, n.key)
  }

  lemma {:induction false} InsertBefore(m: Member, ms: seq<Member>, ns: seq<Member>)
    requires KeysBefore([m], ns)
    ensures InsertMember(m, ms + ns) == InsertMember(m, ms) + ns
  {
    hide Less, Precedes;
    if ms == [] {
      assert ms + ns == ns;
      if ns != [] {
        assert m in [m] && ns[0] in ns;
        LessMeaning(m.key, ns[0].key);
        LessTotal(m.key, ns[0].key);
      }
    } else {
      assert (ms + ns)[0] == ms[0] && (ms + ns)[1..] == ms[1..] + ns;
      if Less(ms[0].key, m.key) {
        InsertBefore(m, ms[1..], ns);
        assert [ms[0]] + (InsertMember(m, ms[1..]) + ns) == [ms[0]] + InsertMember(m, ms[1..]) + ns;
      } else {
        assert [m] + (ms + ns) == [m] + ms + ns;
      }
    }
  }

  lemma {:induction false} SortSplit(ms: seq<Member>, ns: seq<Member>)
    requires KeysBefore(ms, ns)
    ensures SortMembers(ms + ns) == SortMembers(ms) + SortMembers(ns)
  {
    hide InsertMember, Precedes;
    if ms == [] {
      assert ms + ns == ns;
    } else {
      assert (ms + ns)[0] == ms[0] && (ms + ns)[1..] == ms[1..] + ns;
      assert forall m :: m in ms[1..] ==> m in ms;
      SortSplit(ms[1..], ns);
      assert KeysBefore([ms[0]], SortMembers(ns));
      InsertBefore(ms[0], SortMembers(ms[1..]), SortMembers(ns));
    }
  }

  lemma MembersStep(v: JsValue, ms: seq<Member>)
    requires ms != [] && forall m :: m in ms ==> m.value < v
    ensures CanonMembers(v, ms).Ok? <==> Canon(ms[0].value).Ok? && CanonMembers(v, ms[1..]).Ok?
    ensures CanonMembers(v, ms).Ok? ==>
      CanonMembers(v, ms).value
      == [Quote(ms[0].key) + [COLON] + Canon(ms[0].value).value] + CanonMembers(v, ms[1..]).value
  {
    if ms[0].value.Undefined? { assert Canon(ms[0].value).Err?; }
    hide Canon, Quote;
  }

  /** What the members are written as does not depend on the object they are part of. */
  lemma {:induction false} MembersSplit(v: JsValue, xs: seq<Member>, a: JsValue, ys: seq<Member>, b: JsValue)
    requires forall m :: m in xs + ys ==> m.value < v
    requires forall m :: m in xs ==> m.value < a
    requires forall m :: m in ys ==> m.value < b
    requires CanonMembers(a, xs).Ok? && CanonMembers(b, ys).Ok?
    ensures CanonMembers(v, xs + ys) == Ok(CanonMembers(a, xs).value + CanonMembers(b, ys).value)
    decreases |xs| + |ys|
  {
    hide Canon, Quote, CanonMembers;
    var all := xs + ys;
    NoMembers(v, a, b);
    if xs != [] {
      assert all[0] == xs[0] && all[1..] == xs[1..] + ys;
      assert forall m :: m in xs[1..] ==> m in xs;
      assert forall m :: m in all[1..] ==> m in all;
      MembersStep(a, xs);
      MembersSplit(v, xs[1..], a, ys, b);
      MembersStep(v, all);
      Grouped([Quote(xs[0].key) + [COLON] + Canon(xs[0].value).value], CanonMembers(a, xs[1..]).value,
              CanonMembers(b, ys).value);
    } else if ys != [] {
      assert all == ys && all[1..] == [] + ys[1..];
      assert forall m :: m in ys[1..] ==> m in ys;
      MembersStep(b, ys);
      MembersSplit(v, [], a, ys[1..], b);
      MembersStep(v, all);
      Grouped([], [], CanonMembers(b, ys).value);
      Grouped([], [], CanonMembers(b, ys[1..]).value);
    } else {
      assert all == [];
    }
  }

  lemma NoMembers(v: JsValue, a: JsValue, b: JsValue)
    ensures CanonMembers(v, []) == Ok([]) == CanonMembers(a, []) == CanonMembers(b, [])
  {
  }

  lemma Grouped(t: seq<Text>, ts: seq<Text>, us: seq<Text>)
    ensures t + (ts + us) == t + ts + us && [] + us == us
  {
  }

  /** Two nonempty objects, the keys of one before those of the other: a comma where the
      one's closing and the other's opening brace were. */
  lemma ObjectsJoin(ms: seq<Member>, ns: seq<Member>)
    requires ms != [] && ns != [] && KeysBefore(ms, ns)
    requires Canon(Object(true, ms)).Ok? && Canon(Object(true, ns)).Ok?
    ensures Canon(Object(true, ms + ns))
         == Ok(Opened(Canon(Object(true, ms)).value) + Ascii(",") + Unopened(Canon(Object(true, ns)).value))
  {
    var a, b, v := Object(true, ms), Object(true, ns), Object(true, ms + ns);
    assert Ascii(",") == [0x2C];
    MembersAreOk(ms);
    MembersAreOk(ns);
    SortSplit(ms, ns);
    assert forall m :: m in ms ==> m.value < a;
    assert forall m :: m in ns ==> m.value < b;
    assert forall m :: m in v.members ==> m.value < v;
    hide Canon, CanonMembers, SortMembers, KeysBefore;
    MembersSplit(v, SortMembers(ms), a, SortMembers(ns), b);
    ObjectIs(ms);
    ObjectIs(ns);
    ObjectIs(ms + ns);
    var ts, us := CanonMembers(a, SortMembers(ms)).value, CanonMembers(b, SortMembers(ns)).value;
    JoinSplit(ts, us);
    Cut(OPEN_BRACE, Join(ts), Join(us), CLOSE_BRACE);
  }

  // --------------------------------------------------------------------- strings

  function Hex(d: int): Text
    requires 0 <= d < 16
  {
    [Ascii("0123456789abcdef")[d]]
  }

  /** How one unit is written between the quotes when it is not one of a pair of
      surrogates. */
  function Spelled(c: Unit): Text {
    if c == 0x22 then Ascii("\\\"")
    else if c == 0x5C then Ascii("\\\\")
    else if c == 0x08 then Ascii("\\b")
    else if c == 0x09 then Ascii("\\t")
    else if c == 0x0A then Ascii("\\n")
    else if c == 0x0C then Ascii("\\f")
    else if c == 0x0D then Ascii("\\r")
    else if c < 0x20 || 0xD800 <= c < 0xE000 then
      Ascii("\\u") + Hex(c / 4096) + Hex(c / 256 % 16) + Hex(c / 16 % 16) + Hex(c % 16)
    else [c]
  }

  /** A pair of surrogates stands across the cut. */
  predicate CutsPair(a: Text, b: Text) {
    a != [] && b != [] && 0xD800 <= a[|a| - 1] < 0xDC00 && 0xDC00 <= b[0] < 0xE000
  }

  predicate StartsPair(s: Text) {
    |s| > 1 && IsHigh(s[0]) && IsLow(s[1])
  }

  lemma FirstUnit(s: Text) returns (front: Text)
    requires s != [] && !StartsPair(s)
    ensures QuoteUnits(s) == front + QuoteUnits(s[1..])
    ensures front == if ShortEscape(s[0]).Some? then [BACKSLASH, ShortEscape(s[0]).value]
                     else if s[0] < 0x20 || IsHigh(s[0]) || IsLow(s[0]) then UnicodeEscape(s[0])
                     else [s[0]]
  {
    hide ShortEscape, UnicodeEscape;
    front := if ShortEscape(s[0]).Some? then [BACKSLASH, ShortEscape(s[0]).value]
             else if s[0] < 0x20 || IsHigh(s[0]) || IsLow(s[0]) then UnicodeEscape(s[0])
             else [s[0]];
  }

  lemma NextUnit(s: Text)
    requires s != [] && !StartsPair(s)
    ensures QuoteUnits(s) == QuoteUnits([s[0]]) + QuoteUnits(s[1..])
  {
    EmptyUnits();
    hide QuoteUnits, ShortEscape, UnicodeEscape;
    var front := FirstUnit(s);
    var alone := FirstUnit([s[0]]);
    assert [s[0]][1..] == [] && alone + [] == alone;
  }

  lemma NextPair(s: Text)
    requires StartsPair(s)
    ensures QuoteUnits(s) == [s[0], s[1]] + QuoteUnits(s[2..])
  {
    hide UnicodeEscape;
  }

  lemma {:induction false} QuoteSplit(a: Text, b: Text)
    requires !CutsPair(a, b)
    ensures QuoteUnits(a + b) == QuoteUnits(a) + QuoteUnits(b)
  {
    EmptyUnits();
    hide QuoteUnits;
    if a == [] {
      assert a + b == b;
    } else if StartsPair(a) {
      assert (a + b)[2..] == a[2..] + b;
      NextPair(a);
      NextPair(a + b);
      QuoteSplit(a[2..], b);
    } else {
      assert (a + b)[1..] == a[1..] + b;
      NextUnit(a);
      NextUnit(a + b);
      QuoteSplit(a[1..], b);
    }
  }

  lemma HexDigits(d: int)
    requires 0 <= d < 16
    ensures [HexDigit(d)] == Hex(d)
  {
    assert Ascii("0123456789abcdef")
        == [0x30, 0x31, 0x32, 0x33, 0x34, 0x35, 0x36, 0x37, 0x38, 0x39, 0x61, 0x62, 0x63, 0x64, 0x65, 0x66];
  }

  lemma UnicodeIs(c: Unit)
    ensures UnicodeEscape(c)
         == Ascii("\\u") + Hex(c / 4096) + Hex(c / 256 % 16) + Hex(c / 16 % 16) + Hex(c % 16)
  {
    assert Ascii("\\u") == [0x5C, 0x75];
    assert c / 16 / 16 / 16 == c / 4096 && c / 16 / 16 % 16 == c / 256 % 16;
    HexDigits(c / 4096);
    HexDigits(c / 256 % 16);
    HexDigits(c / 16 % 16);
    HexDigits(c % 16);
    hide HexDigit;
  }

  lemma Escapes()
    ensures Ascii("\\\"") == [0x5C, 0x22] && Ascii("\\\\") == [0x5C, 0x5C] && Ascii("\\b") == [0x5C, 0x62]
    ensures Ascii("\\t") == [0x5C, 0x74] && Ascii("\\n") == [0x5C, 0x6E] && Ascii("\\f") == [0x5C, 0x66]
    ensures Ascii("\\r") == [0x5C, 0x72]
  {
  }

  lemma OneUnit(c: Unit)
    ensures QuoteUnits([c]) == Spelled(c)
  {
    UnicodeIs(c);
    Escapes();
    assert [c][1..] == [] && QuoteUnits([]) == [];
    hide UnicodeEscape, Hex, Ascii;
  }

  /** Every unit of a string is written on its own, in its place, between two quotes;
      a pair of surrogates stands as it is. */
  lemma StringSpelling(a: Text, c: Unit, b: Text)
    requires !CutsPair(a, [c]) && !CutsPair([c], b)
    ensures QuoteUnits(a + [c] + b) == QuoteUnits(a) + Spelled(c) + QuoteUnits(b)
    ensures Quote(a) == Ascii("\"") + QuoteUnits(a) + Ascii("\"") && QuoteUnits([]) == []
  {
    assert Ascii("\"") == [0x22];
    OneUnit(c);
    hide QuoteUnits, Spelled;
    QuoteSplit(a, [c]);
    QuoteSplit(a + [c], b);
    assert QuoteUnits([]) == [] by { EmptyUnits(); }
  }

  lemma EmptyUnits()
    ensures QuoteUnits([]) == []
  {
  }

  lemma PairSpelling(a: Text, h: Unit, l: Unit, b: Text)
    requires 0xD800 <= h < 0xDC00 <= l < 0xE000
    ensures QuoteUnits(a + [h, l] + b) == QuoteUnits(a) + [h, l] + QuoteUnits(b)
  {
    assert [h, l][2..] == [] && QuoteUnits([h, l]) == [h, l] + QuoteUnits([]);
    EmptyUnits();
    hide QuoteUnits;
    QuoteSplit(a, [h, l]);
    QuoteSplit(a + [h, l], b);
  }

  // --------------------------------------------------------------------- numbers

  lemma {:induction false} DigitsSpelled(ds: seq<Digit>, i: nat)
    requires i < |ds|
    ensures DigitText(ds)[i] == Ascii("0123456789")[ds[i]]
  {
    assert Ascii("0123456789") == [0x30, 0x31, 0x32, 0x33, 0x34, 0x35, 0x36, 0x37, 0x38, 0x39];
    if i > 0 {
      DigitsSpelled(ds[1..], i - 1);
    }
  }

  /** The parts a number is written in. */
  datatype Parts = Parts(whole: seq<Digit>, fraction: seq<Digit>, exponent: Option<int>)

  function FractionText(fraction: seq<Digit>): Text {
    if fraction == [] then [] else Ascii(".") + DigitText(fraction)
  }

  function ScaleText(exponent: Option<int>): Text {
    match exponent
    case None => []
    case Some(e) => (if e >= 0 then Ascii("e+") else Ascii("e-")) + DigitText(NatDigits(if e >= 0 then e else -e))
  }

  function Written(neg: bool, p: Parts): Text {
    (if neg then Ascii("-") else []) + (DigitText(p.whole) + FractionText(p.fraction) + ScaleText(p.exponent))
  }

  /** Where the point goes: an exponent is written exactly for numbers from 1e21 on and
      below 1e-6, after one digit; otherwise all places up to the units are, and as many
      digits after the point as there are left. */
  ghost predicate Laid(ds: seq<Digit>, point: int, p: Parts) {
    if -6 < point <= 21 then
      && p.exponent.None?
      && |p.whole| == (if point > 0 then point else 1)
      && |p.fraction| == (if |ds| > point then |ds| - point else 0)
    else
      p.exponent == Some(point - 1) && |p.whole| == 1 && |p.fraction| == |ds| - 1
  }

  lemma Signs()
    ensures Ascii("-") == [MINUS] && Ascii(".") == [DOT] && Ascii("0") == [0x30]
    ensures Ascii("e+") == [LOWER_E, PLUS] && Ascii("e-") == [LOWER_E, MINUS]
  {
  }

  lemma NoFraction()
    ensures FractionText([]) == [] && ScaleText(None) == []
  {
  }

  lemma SomeFraction(fraction: seq<Digit>)
    requires fraction != []
    ensures FractionText(fraction) == [DOT] + DigitText(fraction)
  {
    Signs();
    hide DigitText;
  }

  lemma NothingMore(a: Text, b: Text)
    ensures a + [] + [] == a && a + ([DOT] + b) + [] == a + [DOT] + b
  {
  }

  lemma PlainBody(whole: seq<Digit>, fraction: seq<Digit>)
    ensures DigitText(whole) + FractionText([]) + ScaleText(None) == DigitText(whole)
    ensures fraction != [] ==>
      DigitText(whole) + FractionText(fraction) + ScaleText(None) == DigitText(whole) + [DOT] + DigitText(fraction)
  {
    NoFraction();
    hide DigitText, FractionText, ScaleText;
    if fraction != [] {
      SomeFraction(fraction);
    }
    NothingMore(DigitText(whole), DigitText(fraction));
  }

  lemma ScaleIs(e: int)
    ensures ScaleText(Some(e)) == ExponentText(e)
  {
    Signs();
    hide DigitText, NatDigits;
  }

  lemma ZeroDigit()
    ensures DigitText([0]) == [0x30]
  {
    assert DigitText([0]) == [0x30] + DigitText([0][1..]);
  }

  lemma SmallBody(ds: seq<Digit>, n: int)
    requires ds != [] && -6 < n <= 0
    ensures MagnitudeText(ds, n) == DigitText([0]) + FractionText(Zeros(-n) + ds) + ScaleText(None)
  {
    hide DigitText, Zeros, FractionText, ScaleText;
    ZeroDigit();
    PlainBody([0], Zeros(-n) + ds);
    ZeroAndPoint(DigitText(Zeros(-n) + ds));
  }

  lemma ZeroAndPoint(t: Text)
    ensures [0x30, DOT] + t == [0x30] + [DOT] + t
  {
  }

  lemma ScientificBody(ds: seq<Digit>, n: int)
    requires ds != [] && !(-6 < n <= 21)
    ensures MagnitudeText(ds, n) == DigitText(ds[..1]) + FractionText(ds[1..]) + ScaleText(Some(n - 1))
  {
    Signs();
    ScaleIs(n - 1);
    hide DigitText, ExponentText, ScaleText;
    if |ds| == 1 {
      assert ds[..1] == ds && ds[1..] == [];
      assert DigitText(ds) + [] == DigitText(ds);
    } else {
      assert DigitText(ds[..1]) + [DOT] + DigitText(ds[1..]) == DigitText(ds[..1]) + ([DOT] + DigitText(ds[1..]));
    }
  }

  /** The digits before and after the point, and the exponent, of a magnitude. */
  function PartsOf(ds: seq<Digit>, n: int): Parts
    requires ds != []
  {
    if |ds| <= n <= 21 then Parts(ds + Zeros(n - |ds|), [], None)
    else if 0 < n <= 21 then Parts(ds[..n], ds[n..], None)
    else if -6 < n <= 0 then Parts([0], Zeros(-n) + ds, None)
    else Parts(ds[..1], ds[1..], Some(n - 1))
  }

  lemma MagnitudeWritten(ds: seq<Digit>, n: int)
    requires ds != []
    ensures var p := PartsOf(ds, n);
            MagnitudeText(ds, n) == DigitText(p.whole) + FractionText(p.fraction) + ScaleText(p.exponent)
  {
    if -6 < n <= 0 {
      SmallBody(ds, n);
    } else if !(-6 < n <= 21) {
      ScientificBody(ds, n);
    } else {
      hide DigitText, Zeros, ScaleText, FractionText;
      if |ds| <= n {
        PlainBody(ds + Zeros(n - |ds|), []);
      } else {
        PlainBody(ds[..n], ds[n..]);
      }
    }
  }

  /** Every finite number is written with the sign, digits, point and exponent that its
      magnitude calls for; that it is read back as itself leaves no choice of digits. */
  lemma NumberSpelling(d: Decimal) returns (p: Parts)
    requires Shortest(d)
    ensures if d.digits == [] then NumberText(d) == Ascii("0")
            else NumberText(d) == Written(d.neg, p) && Laid(d.digits, d.point, p)
    ensures ParseNumber(NumberText(d)) == Some((Unsigned(d), []))
  {
    Signs();
    NumberRoundTrip(d, []);
    assert NumberText(d) + [] == NumberText(d);
    p := Parts([], [], None);
    hide ParseNumber, DigitText, ScaleText, FractionText, MagnitudeText;
    if d.digits != [] {
      p := PartsOf(d.digits, d.point);
      MagnitudeWritten(d.digits, d.point);
    }
  }

  lemma {:induction false} ExponentDigits(n: nat)
    ensures DigitsValue(NatDigits(n)) == n && (NatDigits(n)[0] == 0 ==> n == 0) && (n < 10 ==> |NatDigits(n)| == 1)
  {
    NatDigitsValue(n);
    if n >= 10 {
      ExponentDigits(n / 10);
    }
  }

  // ---------------------------------------------------------------------- errors

  /** Values that are no JSON data themselves. */
  lemma OwnErrors(members: seq<Member>)
    ensures Canon(Number(NotFinite)) == Err(NonFiniteNumber)
    ensures Canon(Undefined) == Canon(Other) == Err(UnsupportedType)
    ensures Canon(Object(false, members)) == Err(NotPlainObject)
  {
  }

  lemma {:induction false} ItemsError(items: seq<JsValue>, e: JsonError) returns (k: nat)
    requires CanonItems(items) == Err(e)
    ensures k < |items| && Canon(items[k]) == Err(e) && forall i :: 0 <= i < k ==> Canon(items[i]).Ok?
  {
    hide Canon;
    k := 0;
    if Canon(items[0]).Ok? {
      k := ItemsError(items[1..], e);
      k := k + 1;
    }
  }

  /** The error of an array is that of its first item that has one. */
  lemma ArrayError(items: seq<JsValue>, e: JsonError) returns (k: nat)
    requires Canon(Array(items)) == Err(e)
    ensures k < |items| && Canon(items[k]) == Err(e) && forall i :: 0 <= i < k ==> Acceptable(items[i])
  {
    assert CanonItems(items) == Err(e);
    k := ItemsError(items, e);
    forall i | 0 <= i < k ensures Acceptable(items[i]) {
      CanonAccepts(items[i]);
    }
  }

  ghost predicate MemberFails(m: Member, e: JsonError) {
    if m.value.Undefined? then e == UndefinedMember(m.key) else Canon(m.value) == Err(e)
  }

  lemma {:induction false} MembersError(v: JsValue, ms: seq<Member>, e: JsonError) returns (k: nat)
    requires (forall m :: m in ms ==> m.value < v) && CanonMembers(v, ms) == Err(e)
    ensures k < |ms| && MemberFails(ms[k], e) && forall i :: 0 <= i < k ==> Canon(ms[i].value).Ok?
    decreases |ms|
  {
    k := 0;
    if !ms[0].value.Undefined? && Canon(ms[0].value).Ok? {
      hide Canon;
      assert forall m :: m in ms[1..] ==> m in ms;
      k := MembersError(v, ms[1..], e);
      k := k + 1;
    }
  }

  /** The error of a plain object is that of the first of its members, by key, that has
      one; an undefined value is named by its key. */
  lemma ObjectError(ms: seq<Member>, e: JsonError) returns (m: Member)
    requires Canon(Object(true, ms)) == Err(e) && UniqueKeys(ms)
    ensures m in ms && MemberFails(m, e)
    ensures forall n :: n in ms && Precedes(n.key, m.key) ==> Acceptable(n.value)
  {
    var v, sorted := Object(true, ms), SortMembers(ms);
    assert CanonMembers(v, sorted) == Err(e);
    SortAscending(ms);
    hide Canon, CanonMembers, SortMembers, Less, Precedes, MemberFails, Acceptable;
    var k := MembersError(v, sorted, e);
    m := sorted[k];
    forall n | n in ms && Precedes(n.key, m.key) ensures Acceptable(n.value) {
      var i :| 0 <= i < |sorted| && sorted[i] == n;
      LessMeaning(n.key, m.key);
      if i >= k {
        LessTotal(n.key, m.key);
      }
      CanonAccepts(n.value);
    }
  }
}
