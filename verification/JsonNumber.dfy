/** Number texts: the shortest-decimal rendering that JSON.stringify uses for a
    finite number, and a reader for the number grammar of section 6 of RFC 8259. */
module JsonNumber {
  import opened Wrappers
  import opened JsonText

  type Digit = d: int | 0 <= d < 10

  /** The number 0.d1d2...dk times ten to the power point, negated when neg. */
  datatype Decimal = Decimal(neg: bool, digits: seq<Digit>, point: int)

  /** Shortest digits neither start nor end with a zero; zero has no digits. */
  predicate Shortest(d: Decimal) {
    if d.digits == [] then d.point == 0 else d.digits[0] != 0 && d.digits[|d.digits| - 1] != 0
  }

  const MINUS: Unit := 0x2D
  const PLUS: Unit := 0x2B
  const DOT: Unit := 0x2E
  const LOWER_E: Unit := 0x65
  const UPPER_E: Unit := 0x45

  predicate IsDigit(c: Unit) { 0x30 <= c <= 0x39 }

  function DigitText(ds: seq<Digit>): (t: Text)
    ensures |t| == |ds|
  {
    if ds == [] then [] else [0x30 + (ds[0] as int)] + DigitText(ds[1..])
  }

  function Zeros(n: nat): (z: seq<Digit>)
    ensures |z| == n
  {
    if n == 0 then [] else [0] + Zeros(n - 1)
  }

  function NatDigits(n: nat): (ds: seq<Digit>)
    ensures ds != []
  {
    if n < 10 then [n] else NatDigits(n / 10) + [n % 10]
  }

  function DigitsValue(ds: seq<Digit>): nat {
    if ds == [] then 0 else 10 * DigitsValue(ds[..|ds| - 1]) + ds[|ds| - 1]
  }

  /** The exponent part: always signed. */
  function ExponentText(e: int): Text {
    [LOWER_E, if e >= 0 then PLUS else MINUS] + DigitText(NatDigits(if e >= 0 then e else -e))
  }

  /** Number::toString of ECMA-262 for a nonzero magnitude. */
  function MagnitudeText(ds: seq<Digit>, n: int): Text
    requires ds != []
  {
    var k := |ds|;
    if k <= n <= 21 then DigitText(ds + Zeros(n - k))
    else if 0 < n <= 21 then DigitText(ds[..n]) + [DOT] + DigitText(ds[n..])
    else if -6 < n <= 0 then [0x30, DOT] + DigitText(Zeros(-n) + ds)
    else if k == 1 then DigitText(ds) + ExponentText(n - 1)
    else DigitText(ds[..1]) + [DOT] + DigitText(ds[1..]) + ExponentText(n - 1)
  }

  /** JSON.stringify of a finite number; both zeros print as 0. */
  function NumberText(d: Decimal): Text {
    if d.digits == [] then [0x30]
    else (if d.neg then [MINUS] else []) + MagnitudeText(d.digits, d.point)
  }

  // -------------------------------------------------------------------- reading

  function TakeDigits(t: Text): (r: (seq<Digit>, Text))
    ensures |r.1| + |r.0| == |t|
  {
    if t == [] || !IsDigit(t[0]) then ([], t)
    else
      var (ds, rest) := TakeDigits(t[1..]);
      ([(t[0] as int) - 0x30] + ds, rest)
  }

  function TakeFraction(t: Text): (r: Option<(seq<Digit>, Text)>)
    ensures r.Some? ==> |r.value.1| <= |t|
  {
    if t == [] || t[0] != DOT then Some(([], t))
    else
      var (ds, rest) := TakeDigits(t[1..]);
      if ds == [] then None else Some((ds, rest))
  }

  function TakeExponent(t: Text): (r: Option<(int, Text)>)
    ensures r.Some? ==> |r.value.1| <= |t|
  {
    if t == [] || (t[0] != LOWER_E && t[0] != UPPER_E) then Some((0, t))
    else if |t| > 1 && (t[1] == PLUS || t[1] == MINUS) then
      var (ds, rest) := TakeDigits(t[2..]);
      if ds == [] then None else Some((if t[1] == MINUS then 0 - (DigitsValue(ds) as int) else DigitsValue(ds) as int,
                                       rest))
    else
      var (ds, rest) := TakeDigits(t[1..]);
      if ds == [] then None else Some((DigitsValue(ds), rest))
  }

  /** The shortest digits of 0.ds times ten to the power point. */
  function Normalize(neg: bool, ds: seq<Digit>, point: int): Decimal
    decreases |ds|
  {
    if ds == [] then Decimal(neg, [], 0)
    else if ds[0] == 0 then Normalize(neg, ds[1..], point - 1)
    else if ds[|ds| - 1] == 0 then Normalize(neg, ds[..|ds| - 1], point)
    else Decimal(neg, ds, point)
  }

  function ParseMagnitude(neg: bool, t: Text): (r: Option<(Decimal, Text)>)
    ensures r.Some? ==> |r.value.1| < |t|
  {
    var (whole, t1) := TakeDigits(t);
    if whole == [] || (|whole| > 1 && whole[0] == 0) then None
    else
      match TakeFraction(t1)
      case None => None
      case Some((frac, t2)) =>
        match TakeExponent(t2)
        case None => None
        case Some((e, t3)) => Some((Normalize(neg, whole + frac, |whole| + e), t3))
  }

  function ParseNumber(t: Text): (r: Option<(Decimal, Text)>)
    ensures r.Some? ==> |r.value.1| < |t|
  {
    if t != [] && t[0] == MINUS then ParseMagnitude(true, t[1..]) else ParseMagnitude(false, t)
  }

  // ----------------------------------------------------------------- round trip

  /** What may follow a number without being read as part of it. */
  predicate EndsNumber(rest: Text) {
    rest == [] || (!IsDigit(rest[0]) && rest[0] != DOT && rest[0] != LOWER_E && rest[0] != UPPER_E)
  }

  predicate EndsDigits(rest: Text) {
    rest == [] || !IsDigit(rest[0])
  }

  lemma {:induction false} TakeDigitText(ds: seq<Digit>, rest: Text)
    requires EndsDigits(rest)
    ensures TakeDigits(DigitText(ds) + rest) == (ds, rest)
  {
    if ds == [] {
      assert DigitText(ds) + rest == rest;
    } else {
      TakeDigitText(ds[1..], rest);
      var tail := DigitText(ds[1..]);
      var c: Unit := 0x30 + (ds[0] as int);
      var t := [c] + tail + rest;
      assert t[1..] == tail + rest;
      assert [ds[0]] + ds[1..] == ds;
    }
  }

  lemma {:induction false} NatDigitsValue(n: nat)
    ensures DigitsValue(NatDigits(n)) == n
  {
    if n < 10 {
      assert [n as Digit][..0] == [];
    } else {
      NatDigitsValue(n / 10);
      var ds := NatDigits(n);
      assert ds[..|ds| - 1] == NatDigits(n / 10);
    }
  }

  lemma TakeExponentText(e: int, rest: Text)
    requires EndsDigits(rest)
    ensures TakeExponent(ExponentText(e) + rest) == Some((e, rest))
  {
    var m := if e >= 0 then e else -e;
    var t := ExponentText(e) + rest;
    assert t[2..] == DigitText(NatDigits(m)) + rest;
    TakeDigitText(NatDigits(m), rest);
    NatDigitsValue(m);
  }

  lemma {:induction false} NormalizeLeading(neg: bool, i: nat, ds: seq<Digit>, point: int)
    ensures Normalize(neg, Zeros(i) + ds, point) == Normalize(neg, ds, point - i)
  {
    if i == 0 {
      assert Zeros(i) + ds == ds;
    } else {
      assert (Zeros(i) + ds)[1..] == Zeros(i - 1) + ds;
      NormalizeLeading(neg, i - 1, ds, point - 1);
    }
  }

  lemma {:induction false} ZerosSnoc(j: nat)
    requires j > 0
    ensures Zeros(j) == Zeros(j - 1) + [0]
  {
    if j > 1 { ZerosSnoc(j - 1); }
  }

  lemma {:induction false} NormalizeTrailing(neg: bool, ds: seq<Digit>, j: nat, point: int)
    requires ds != [] && ds[0] != 0 && ds[|ds| - 1] != 0
    ensures Normalize(neg, ds + Zeros(j), point) == Decimal(neg, ds, point)
  {
    if j == 0 {
      assert ds + Zeros(j) == ds;
    } else {
      ZerosSnoc(j);
      var all := ds + Zeros(j);
      assert all[..|all| - 1] == ds + Zeros(j - 1);
      NormalizeTrailing(neg, ds, j - 1, point);
    }
  }

  /** The pieces a magnitude text is made of, put together again. */
  lemma ParsePieces(neg: bool, whole: seq<Digit>, point: Text, frac: seq<Digit>, exponent: Text, e: int, rest: Text)
    requires whole != [] && (|whole| > 1 ==> whole[0] != 0)
    requires point == (if frac == [] then [] else [DOT])
    requires (exponent == [] && e == 0) || exponent == ExponentText(e)
    requires EndsNumber(rest)
    ensures ParseMagnitude(neg, DigitText(whole) + (point + (DigitText(frac) + (exponent + rest)))) ==
            Some((Normalize(neg, whole + frac, |whole| + e), rest))
  {
    hide Normalize, NatDigits, DigitsValue;
    var t2 := exponent + rest;
    var t1 := point + (DigitText(frac) + t2);
    TakeDigitText(whole, t1);
    TakeDigitText(frac, t2);
    if frac == [] {
      assert t1 == t2;
    } else {
      assert t1[1..] == DigitText(frac) + t2;
    }
    assert TakeFraction(t1) == Some((frac, t2));
    if exponent == [] {
      assert t2 == rest;
    } else {
      TakeExponentText(e, rest);
    }
  }

  ghost predicate ReadsAs(neg: bool, ds: seq<Digit>, n: int, rest: Text) {
    ds != [] && ParseMagnitude(neg, MagnitudeText(ds, n) + rest) == Some((Decimal(neg, ds, n), rest))
  }

  ghost predicate Nonzero(ds: seq<Digit>) {
    ds != [] && ds[0] != 0 && ds[|ds| - 1] != 0
  }

  lemma NormalizeShortest(neg: bool, ds: seq<Digit>, n: int)
    requires Nonzero(ds)
    ensures Normalize(neg, ds, n) == Decimal(neg, ds, n)
  {
  }

  lemma WholeRoundTrip(neg: bool, ds: seq<Digit>, n: int, rest: Text)
    requires Nonzero(ds) && EndsNumber(rest) && |ds| <= n <= 21
    ensures ReadsAs(neg, ds, n, rest)
  {
    hide ParseMagnitude, Normalize, ExponentText, EndsNumber;
    var whole := ds + Zeros(n - |ds|);
    ParsePieces(neg, whole, [], [], [], 0, rest);
    NormalizeTrailing(neg, ds, n - |ds|, n);
    assert MagnitudeText(ds, n) + rest == DigitText(whole) + ([] + (DigitText([]) + ([] + rest)));
    assert whole + [] == whole;
  }

  lemma PointedRoundTrip(neg: bool, ds: seq<Digit>, n: int, rest: Text)
    requires Nonzero(ds) && EndsNumber(rest) && 0 < n < |ds| && n <= 21
    ensures ReadsAs(neg, ds, n, rest)
  {
    hide ParseMagnitude, Normalize, ExponentText, EndsNumber;
    ParsePieces(neg, ds[..n], [DOT], ds[n..], [], 0, rest);
    NormalizeShortest(neg, ds, n);
    assert MagnitudeText(ds, n) + rest == DigitText(ds[..n]) + ([DOT] + (DigitText(ds[n..]) + ([] + rest)));
    assert ds[..n] + ds[n..] == ds;
  }

  lemma SmallText(ds: seq<Digit>, n: int, rest: Text)
    requires ds != [] && -6 < n <= 0
    ensures var frac := Zeros(-n) + ds;
            MagnitudeText(ds, n) + rest == DigitText([0]) + ([DOT] + (DigitText(frac) + ([] + rest)))
  {
    hide Zeros;
    var frac := Zeros(-n) + ds;
    assert DigitText([0]) == [0x30] + DigitText([0][1..]);
    assert MagnitudeText(ds, n) == [0x30, DOT] + DigitText(frac);
    assert [0x30, DOT] + DigitText(frac) + rest == [0x30] + ([DOT] + (DigitText(frac) + ([] + rest)));
  }

  lemma SmallRoundTrip(neg: bool, ds: seq<Digit>, n: int, rest: Text)
    requires Nonzero(ds) && EndsNumber(rest) && -6 < n <= 0
    ensures ReadsAs(neg, ds, n, rest)
  {
    hide ParseMagnitude, Normalize, ExponentText, EndsNumber, DigitText, MagnitudeText;
    var frac := Zeros(-n) + ds;
    SmallText(ds, n, rest);
    ParsePieces(neg, [0], [DOT], frac, [], 0, rest);
    NormalizeShortest(neg, ds, n);
    assert [0] + frac == Zeros(1 - n) + ds;
    NormalizeLeading(neg, 1 - n, ds, 1);
  }

  lemma Regroup(a: Text, b: Text, c: Text, d: Text, e: Text)
    ensures a + b + c + d + e == a + (b + (c + (d + e)))
  {
  }

  lemma ScientificRoundTrip(neg: bool, ds: seq<Digit>, n: int, rest: Text)
    requires Nonzero(ds) && EndsNumber(rest) && !(-6 < n <= 21)
    ensures ReadsAs(neg, ds, n, rest)
  {
    hide ParseMagnitude, Normalize, ExponentText, EndsNumber, DigitText;
    NormalizeShortest(neg, ds, n);
    var e := ExponentText(n - 1);
    if |ds| == 1 {
      ParsePieces(neg, ds, [], [], e, n - 1, rest);
      assert |DigitText([])| == 0;
      assert MagnitudeText(ds, n) + rest == DigitText(ds) + ([] + (DigitText([]) + (e + rest)));
      assert ds + [] == ds;
    } else {
      ParsePieces(neg, ds[..1], [DOT], ds[1..], e, n - 1, rest);
      Regroup(DigitText(ds[..1]), [DOT], DigitText(ds[1..]), e, rest);
      assert ds[..1] + ds[1..] == ds;
    }
  }

  lemma MagnitudeRoundTrip(neg: bool, ds: seq<Digit>, n: int, rest: Text)
    requires Nonzero(ds) && EndsNumber(rest)
    ensures ReadsAs(neg, ds, n, rest)
  {
    hide ReadsAs;
    if n <= -6 || n > 21 {
      ScientificRoundTrip(neg, ds, n, rest);
    } else if n <= 0 {
      SmallRoundTrip(neg, ds, n, rest);
    } else if n < |ds| {
      PointedRoundTrip(neg, ds, n, rest);
    } else {
      WholeRoundTrip(neg, ds, n, rest);
    }
  }

  /** The number read back: negative zero has become zero. */
  function Unsigned(d: Decimal): Decimal {
    if d.digits == [] then Decimal(false, [], 0) else d
  }

  lemma NumberRoundTrip(d: Decimal, rest: Text)
    requires Shortest(d) && EndsNumber(rest)
    ensures ParseNumber(NumberText(d) + rest) == Some((Unsigned(d), rest))
  {
    if d.digits == [] {
      ParsePieces(false, [0], [], [], [], 0, rest);
      assert DigitText([0]) == [0x30];
      assert NumberText(d) + rest == DigitText([0]) + ([] + (DigitText([]) + ([] + rest)));
      NormalizeLeading(false, 1, [], 1);
      assert Zeros(1) + [] == [0] + [];
    } else {
      MagnitudeRoundTrip(d.neg, d.digits, d.point, rest);
      var m := MagnitudeText(d.digits, d.point) + rest;
      if d.neg {
        assert NumberText(d) + rest == [MINUS] + m;
        assert ([MINUS] + m)[1..] == m;
      } else {
        assert NumberText(d) + rest == m;
        MagnitudeStart(d.digits, d.point, rest);
      }
    }
  }

  lemma MagnitudeStart(ds: seq<Digit>, n: int, rest: Text)
    requires ds != []
    ensures MagnitudeText(ds, n) != [] && IsDigit(MagnitudeText(ds, n)[0])
  {
  }
}
