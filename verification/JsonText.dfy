/** Texts as sequences of UTF-16 code units, their order, and how a JSON string
    literal spells one. */
module JsonText {
  import opened Wrappers

  type Unit = u: int | 0 <= u < 0x1_0000
  type Text = seq<Unit>

  const QUOTE: Unit := 0x22
  const BACKSLASH: Unit := 0x5C
  const SLASH: Unit := 0x2F
  const LOWER_U: Unit := 0x75

  /** Letters of a literal as code units. */
  function Ascii(s: string): (t: Text)
    ensures |t| == |s|
  {
    seq(|s|, i requires 0 <= i < |s| => if s[i] < '\U{80}' then s[i] as int else 0)
  }

  // --------------------------------------------------------------------- order

  /** The order of the < operator on strings: by code unit, prefixes first. */
  predicate Less(a: Text, b: Text) {
    if b == [] then false
    else if a == [] then true
    else a[0] < b[0] || (a[0] == b[0] && Less(a[1..], b[1..]))
  }

  lemma {:induction false} LessTotal(a: Text, b: Text)
    ensures a == b || Less(a, b) || Less(b, a)
    ensures Less(a, b) ==> a != b && !Less(b, a)
  {
    if a != [] && b != [] {
      LessTotal(a[1..], b[1..]);
      assert a == [a[0]] + a[1..] && b == [b[0]] + b[1..];
    }
  }

  lemma {:induction false} LessTrans(a: Text, b: Text, c: Text)
    requires Less(a, b) && Less(b, c)
    ensures Less(a, c)
  {
    if a != [] && a[0] == b[0] == c[0] {
      LessTrans(a[1..], b[1..], c[1..]);
    }
  }

  /** Code unit by code unit, the first difference decides; a text comes after every
      proper prefix of it. */
  ghost predicate Precedes(a: Text, b: Text) {
    exists k: nat :: FirstDifference(a, b, k)
  }

  ghost predicate FirstDifference(a: Text, b: Text, k: nat) {
    && k <= |a| && k <= |b| && a[..k] == b[..k]
    && ((k == |a| && k < |b|) || (k < |a| && k < |b| && a[k] < b[k]))
  }

  lemma {:induction false} LessMeaning(a: Text, b: Text)
    ensures Less(a, b) <==> Precedes(a, b)
  {
    if a == [] || b == [] {
      if b != [] { assert FirstDifference(a, b, 0); }
    } else if a[0] != b[0] {
      if a[0] < b[0] { assert FirstDifference(a, b, 0); }
    } else {
      LessMeaning(a[1..], b[1..]);
      assert a == [a[0]] + a[1..] && b == [b[0]] + b[1..];
      if Precedes(a[1..], b[1..]) {
        var k: nat :| FirstDifference(a[1..], b[1..], k);
        assert a[..k + 1] == [a[0]] + a[1..][..k] && b[..k + 1] == [b[0]] + b[1..][..k];
        assert FirstDifference(a, b, k + 1);
      }
      if Precedes(a, b) {
        var k: nat :| FirstDifference(a, b, k);
        assert k != 0;
        assert a[1..][..k - 1] == a[..k][1..] && b[1..][..k - 1] == b[..k][1..];
        assert FirstDifference(a[1..], b[1..], k - 1);
      }
    }
  }

  // -------------------------------------------------------------- hex escapes

  function HexDigit(d: int): Unit
    requires 0 <= d < 16
  {
    if d < 10 then 0x30 + d else 0x61 + (d - 10)
  }

  function UnHexDigit(c: Unit): Option<int> {
    if 0x30 <= c <= 0x39 then Some(c - 0x30)
    else if 0x61 <= c <= 0x66 then Some(c - 0x61 + 10)
    else if 0x41 <= c <= 0x46 then Some(c - 0x41 + 10)
    else None
  }

  function Hex4(u: Unit): Text {
    [HexDigit(u / 16 / 16 / 16), HexDigit(u / 16 / 16 % 16), HexDigit(u / 16 % 16), HexDigit(u % 16)]
  }

  function UnHex4(t: Text): Option<Unit>
    requires |t| >= 4
  {
    match (UnHexDigit(t[0]), UnHexDigit(t[1]), UnHexDigit(t[2]), UnHexDigit(t[3]))
    case (Some(a), Some(b), Some(c), Some(d)) =>
      var u := 0x1000 * a + 0x100 * b + 16 * c + d;
      if 0 <= u < 0x1_0000 then Some(u) else None
    case _ => None
  }

  lemma HexRoundTrip(u: Unit, rest: Text)
    ensures UnHex4(Hex4(u) + rest) == Some(u)
  {
    var q1 := u / 16;
    var q2 := q1 / 16;
    var q3 := q2 / 16;
    assert u == 16 * q1 + u % 16 && q1 == 16 * q2 + q1 % 16 && q2 == 16 * q3 + q2 % 16;
    var t := Hex4(u) + rest;
    assert UnHexDigit(t[0]) == Some(q3) && UnHexDigit(t[1]) == Some(q2 % 16);
    assert UnHexDigit(t[2]) == Some(q1 % 16) && UnHexDigit(t[3]) == Some(u % 16);
  }

  // ----------------------------------------------------------- string literals

  predicate IsHigh(c: Unit) { 0xD800 <= c < 0xDC00 }
  predicate IsLow(c: Unit) { 0xDC00 <= c < 0xE000 }

  /** The two-unit escapes: the escape letter for a unit that has one. */
  function ShortEscape(c: Unit): Option<Unit> {
    if c == 0x08 then Some(0x62)
    else if c == 0x09 then Some(0x74)
    else if c == 0x0A then Some(0x6E)
    else if c == 0x0C then Some(0x66)
    else if c == 0x0D then Some(0x72)
    else if c == QUOTE then Some(QUOTE)
    else if c == BACKSLASH then Some(BACKSLASH)
    else None
  }

  function UnescapeShort(c: Unit): Option<Unit> {
    if c == 0x62 then Some(0x08)
    else if c == 0x74 then Some(0x09)
    else if c == 0x6E then Some(0x0A)
    else if c == 0x66 then Some(0x0C)
    else if c == 0x72 then Some(0x0D)
    else if c == QUOTE || c == BACKSLASH || c == SLASH then Some(c)
    else None
  }

  function UnicodeEscape(c: Unit): Text {
    [BACKSLASH, LOWER_U] + Hex4(c)
  }

  /** JSON.stringify of a string, between the quotes: short escapes, hex escapes
      for other control units and for surrogates without a partner, and every
      other unit as itself. */
  function QuoteUnits(s: Text): Text {
    if s == [] then []
    else if ShortEscape(s[0]).Some? then [BACKSLASH, ShortEscape(s[0]).value] + QuoteUnits(s[1..])
    else if s[0] < 0x20 then UnicodeEscape(s[0]) + QuoteUnits(s[1..])
    else if IsHigh(s[0]) && |s| > 1 && IsLow(s[1]) then [s[0], s[1]] + QuoteUnits(s[2..])
    else if IsHigh(s[0]) || IsLow(s[0]) then UnicodeEscape(s[0]) + QuoteUnits(s[1..])
    else [s[0]] + QuoteUnits(s[1..])
  }

  function Quote(s: Text): Text {
    [QUOTE] + QuoteUnits(s) + [QUOTE]
  }

  /** Reads a string literal after its opening quote, following section 7 of
      RFC 8259; returns the string and the text after the closing quote. */
  function ParseUnits(t: Text): (r: Option<(Text, Text)>)
    ensures r.Some? ==> |r.value.1| < |t|
  {
    if t == [] || t[0] < 0x20 then None
    else if t[0] == QUOTE then Some(([], t[1..]))
    else if t[0] != BACKSLASH then Prepend(t[0], ParseUnits(t[1..]))
    else if |t| < 2 then None
    else if t[1] != LOWER_U then
      if UnescapeShort(t[1]).None? then None else Prepend(UnescapeShort(t[1]).value, ParseUnits(t[2..]))
    else if |t| < 6 || UnHex4(t[2..]).None? then None
    else Prepend(UnHex4(t[2..]).value, ParseUnits(t[6..]))
  }

  function Prepend(c: Unit, r: Option<(Text, Text)>): Option<(Text, Text)> {
    if r.None? then None else Some(([c] + r.value.0, r.value.1))
  }

  lemma ParseEscaped(c: Unit, tail: Text)
    ensures ParseUnits(UnicodeEscape(c) + tail) == Prepend(c, ParseUnits(tail))
  {
    var t := UnicodeEscape(c) + tail;
    HexRoundTrip(c, tail);
    assert t[2..] == Hex4(c) + tail;
    assert t[6..] == tail;
  }

  lemma ParseShort(c: Unit, tail: Text)
    requires ShortEscape(c).Some?
    ensures ParseUnits([BACKSLASH, ShortEscape(c).value] + tail) == Prepend(c, ParseUnits(tail))
  {
    var t := [BACKSLASH, ShortEscape(c).value] + tail;
    assert t[2..] == tail;
  }

  lemma ParsePlain(c: Unit, tail: Text)
    requires c >= 0x20 && c != QUOTE && c != BACKSLASH
    ensures ParseUnits([c] + tail) == Prepend(c, ParseUnits(tail))
  {
    var t := [c] + tail;
    assert t[1..] == tail;
  }

  /** The literal of a nonempty string starts with the spelling of its first unit. */
  lemma QuoteFirst(s: Text, tail: Text)
    requires |s| > 0 && !(s[0] >= 0x20 && IsHigh(s[0]) && |s| > 1 && IsLow(s[1]))
    ensures ParseUnits(QuoteUnits(s) + tail) == Prepend(s[0], ParseUnits(QuoteUnits(s[1..]) + tail))
  {
    hide ParseUnits, Hex4, Prepend;
    var rest := QuoteUnits(s[1..]) + tail;
    if ShortEscape(s[0]).Some? {
      ParseShort(s[0], rest);
      assert QuoteUnits(s) + tail == [BACKSLASH, ShortEscape(s[0]).value] + rest;
    } else if s[0] < 0x20 || IsHigh(s[0]) || IsLow(s[0]) {
      ParseEscaped(s[0], rest);
      assert QuoteUnits(s) + tail == UnicodeEscape(s[0]) + rest;
    } else {
      ParsePlain(s[0], rest);
      assert QuoteUnits(s) + tail == [s[0]] + rest;
    }
  }

  lemma QuotePair(s: Text, tail: Text)
    requires |s| > 1 && IsHigh(s[0]) && IsLow(s[1])
    ensures ParseUnits(QuoteUnits(s) + tail) == Prepend(s[0], Prepend(s[1], ParseUnits(QuoteUnits(s[2..]) + tail)))
  {
    var more := QuoteUnits(s[2..]);
    assert QuoteUnits(s) == [s[0], s[1]] + more;
    hide ParseUnits, QuoteUnits;
    var rest := more + tail;
    ParsePlain(s[0], [s[1]] + rest);
    ParsePlain(s[1], rest);
    PairFront(s[0], s[1], more, tail);
  }

  lemma PairFront(a: Unit, b: Unit, more: Text, tail: Text)
    ensures [a, b] + more + tail == [a] + ([b] + (more + tail))
  {
  }

  lemma QuoteEmpty(rest: Text)
    ensures ParseUnits(QuoteUnits([]) + ([QUOTE] + rest)) == Some(([], rest))
  {
    assert QuoteUnits([]) + ([QUOTE] + rest) == [QUOTE] + rest;
    assert ([QUOTE] + rest)[1..] == rest;
  }

  /** Every string is recovered from its literal, whatever follows it. */
  lemma {:induction false} QuoteRoundTrip(s: Text, rest: Text)
    ensures ParseUnits(QuoteUnits(s) + ([QUOTE] + rest)) == Some((s, rest))
  {
    hide ParseUnits, QuoteUnits;
    if s == [] {
      QuoteEmpty(rest);
    } else if |s| > 1 && IsHigh(s[0]) && IsLow(s[1]) {
      QuotePair(s, [QUOTE] + rest);
      QuoteRoundTrip(s[2..], rest);
      assert [s[0]] + ([s[1]] + s[2..]) == s;
    } else {
      QuoteFirst(s, [QUOTE] + rest);
      QuoteRoundTrip(s[1..], rest);
      assert [s[0]] + s[1..] == s;
    }
  }
}
