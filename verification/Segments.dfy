/** The segment-intersection test of the ring check, over exact coordinates, and the
    loop that looks for the first pair of crossing segments of a ring. */
module Segments {
  datatype Point = Point(x: real, y: real)

  function Cross(a: Point, b: Point, c: Point): real {
    (b.x - a.x) * (c.y - a.y) - (b.y - a.y) * (c.x - a.x)
  }

  function Sign(v: real): int {
    if v > 0.0 then 1 else if v < 0.0 then -1 else 0
  }

  function Orientation(a: Point, b: Point, c: Point): int {
    Sign(Cross(a, b, c))
  }

  function Min(a: real, b: real): real { if a < b then a else b }

  function Max(a: real, b: real): real { if a < b then b else a }

  /** The point lies in the box around the two others. */
  predicate OnSegment(a: Point, b: Point, p: Point) {
    Min(a.x, b.x) <= p.x <= Max(a.x, b.x) && Min(a.y, b.y) <= p.y <= Max(a.y, b.y)
  }

  predicate SegmentsIntersect(p1: Point, p2: Point, p3: Point, p4: Point) {
    var o1, o2 := Orientation(p1, p2, p3), Orientation(p1, p2, p4);
    var o3, o4 := Orientation(p3, p4, p1), Orientation(p3, p4, p2);
    || (o1 != o2 && o3 != o4)
    || (o1 == 0 && OnSegment(p1, p2, p3))
    || (o2 == 0 && OnSegment(p1, p2, p4))
    || (o3 == 0 && OnSegment(p3, p4, p1))
    || (o4 == 0 && OnSegment(p3, p4, p2))
  }

  // ------------------------------------------------------------------- meaning

  /** The point of a segment at a fraction of its length. */
  function Along(a: Point, b: Point, t: real): Point {
    Point(a.x + t * (b.x - a.x), a.y + t * (b.y - a.y))
  }

  /** The point belongs to the closed segment. */
  ghost predicate On(a: Point, b: Point, p: Point) {
    exists t :: 0.0 <= t <= 1.0 && p == Along(a, b, t)
  }

  ghost predicate SharePoint(p1: Point, p2: Point, p3: Point, p4: Point) {
    exists p :: On(p1, p2, p) && On(p3, p4, p)
  }

  lemma OnAt(a: Point, b: Point, t: real)
    requires 0.0 <= t <= 1.0
    ensures On(a, b, Along(a, b, t))
  {
  }

  lemma Scaled(t: real, d: real)
    requires 0.0 <= t
    ensures (d >= 0.0 ==> t * d >= 0.0) && (d <= 0.0 ==> t * d <= 0.0)
  {
  }

  lemma Between(a: real, b: real, t: real)
    requires 0.0 <= t <= 1.0
    ensures Min(a, b) <= a + t * (b - a) <= Max(a, b)
  {
    Scaled(t, b - a);
    Scaled(1.0 - t, b - a);
    assert (1.0 - t) * (b - a) == (b - a) - t * (b - a);
  }

  lemma OnInBox(a: Point, b: Point, t: real)
    requires 0.0 <= t <= 1.0
    ensures OnSegment(a, b, Along(a, b, t))
  {
    Between(a.x, b.x, t);
    Between(a.y, b.y, t);
  }

  lemma Fraction(d: real, e: real)
    requires d != 0.0 && (0.0 <= e <= d || d <= e <= 0.0)
    ensures 0.0 <= e / d <= 1.0 && (e / d) * d == e
  {
    var q := e / d;
    assert q * d == e;
    assert (q - 1.0) * d == q * d - d;
  }

  /** A point in the box of a segment that is in line with it belongs to it. */
  lemma BoxInLine(a: Point, b: Point, p: Point)
    requires Cross(a, b, p) == 0.0 && OnSegment(a, b, p)
    ensures On(a, b, p)
  {
    var t := InLine(b.x - a.x, b.y - a.y, p.x - a.x, p.y - a.y);
    hide Cross, OnSegment;
    assert Along(a, b, t) == p;
  }

  /** A vector in line with another, and between it and zero on either axis, is a
      fraction of it. */
  lemma InLine(ux: real, uy: real, wx: real, wy: real) returns (t: real)
    requires ux * wy == uy * wx
    requires (0.0 <= wx <= ux || ux <= wx <= 0.0) && (0.0 <= wy <= uy || uy <= wy <= 0.0)
    ensures 0.0 <= t <= 1.0 && t * ux == wx && t * uy == wy
  {
    if ux != 0.0 {
      t := wx / ux;
      Fraction(ux, wx);
      Proportion(ux, uy, wx, wy, t);
    } else if uy != 0.0 {
      t := wy / uy;
      Fraction(uy, wy);
      assert wx == 0.0;
    } else {
      t := 0.0;
    }
  }

  lemma Proportion(ux: real, uy: real, wx: real, wy: real, t: real)
    requires ux != 0.0 && ux * wy == uy * wx && t * ux == wx
    ensures t * uy == wy
  {
    assert ux * wy == uy * (t * ux);
    assert uy * (t * ux) == ux * (t * uy);
    assert ux * (wy - t * uy) == 0.0;
    if wy - t * uy != 0.0 {
      NoZeroDivisor(ux, wy - t * uy);
    }
  }

  lemma NoZeroDivisor(a: real, b: real)
    requires a != 0.0 && b != 0.0
    ensures a * b != 0.0
  {
  }

  // ---------------------------------------------------------------- the two lines

  /** The cross products of two segments in terms of their difference. */
  lemma CrossDifferences(p1: Point, p2: Point, p3: Point, p4: Point)
    ensures var d := (p2.x - p1.x) * (p4.y - p3.y) - (p2.y - p1.y) * (p4.x - p3.x);
            && Cross(p1, p2, p4) - Cross(p1, p2, p3) == d
            && Cross(p3, p4, p2) - Cross(p3, p4, p1) == -d
  {
  }

  /** Where two lines cross, as fractions of both segments. */
  lemma Crossing(p1: Point, p2: Point, p3: Point, p4: Point, s: real, t: real)
    requires var d := Cross(p1, p2, p4) - Cross(p1, p2, p3);
             d != 0.0 && s * d == Cross(p3, p4, p1) && t * d == -Cross(p1, p2, p3)
    ensures Along(p1, p2, s) == Along(p3, p4, t)
  {
    var ux, uy, vx, vy := p2.x - p1.x, p2.y - p1.y, p4.x - p3.x, p4.y - p3.y;
    var wx, wy := p3.x - p1.x, p3.y - p1.y;
    var d := Cross(p1, p2, p4) - Cross(p1, p2, p3);
    CrossDifferences(p1, p2, p3, p4);
    assert d == ux * vy - uy * vx;
    assert s * d == wx * vy - wy * vx;
    assert t * d == wx * uy - wy * ux;
    hide Cross, Along;
    Cramer(ux, uy, vx, vy, wx, wy, d, s, t);
    MeetPoints(p1, p2, p3, p4, ux, uy, vx, vy, wx, wy, s, t);
  }

  lemma MeetPoints(p1: Point, p2: Point, p3: Point, p4: Point,
                   ux: real, uy: real, vx: real, vy: real, wx: real, wy: real, s: real, t: real)
    requires ux == p2.x - p1.x && uy == p2.y - p1.y && vx == p4.x - p3.x && vy == p4.y - p3.y
    requires wx == p3.x - p1.x && wy == p3.y - p1.y
    ensures wx + t * vx == s * ux && wy + t * vy == s * uy <==> Along(p1, p2, s) == Along(p3, p4, t)
  {
    Meet(p1.x, p2.x, p3.x, p4.x, s, t);
    Meet(p1.y, p2.y, p3.y, p4.y, s, t);
  }

  lemma Meet(x1: real, x2: real, x3: real, x4: real, s: real, t: real)
    ensures x3 - x1 + t * (x4 - x3) == s * (x2 - x1) <==> x1 + s * (x2 - x1) == x3 + t * (x4 - x3)
  {
  }

  lemma Cramer(ux: real, uy: real, vx: real, vy: real, wx: real, wy: real, d: real, s: real, t: real)
    requires d != 0.0 && d == ux * vy - uy * vx && s * d == wx * vy - wy * vx && t * d == wx * uy - wy * ux
    ensures wx + t * vx == s * ux && wy + t * vy == s * uy
  {
    var ex, ey := wx + t * vx - s * ux, wy + t * vy - s * uy;
    assert d * ex == d * wx + vx * (t * d) - ux * (s * d);
    assert d * ey == d * wy + vy * (t * d) - uy * (s * d);
    assert d * ex == 0.0 && d * ey == 0.0;
    if ex != 0.0 { NoZeroDivisor(d, ex); }
    if ey != 0.0 { NoZeroDivisor(d, ey); }
  }

  // ------------------------------------------------------------------- soundness

  /** Lines whose ends lie on different sides of each other cross. */
  lemma DifferentSides(p1: Point, p2: Point, p3: Point, p4: Point)
    requires Orientation(p1, p2, p3) != Orientation(p1, p2, p4) && Orientation(p3, p4, p1) != Orientation(p3, p4, p2)
    ensures SharePoint(p1, p2, p3, p4)
  {
    var d1, d2, d3, d4 := Cross(p1, p2, p3), Cross(p1, p2, p4), Cross(p3, p4, p1), Cross(p3, p4, p2);
    CrossDifferences(p1, p2, p3, p4);
    assert d2 - d1 == d3 - d4;
    hide Cross;
    var s, t := Sides(d1, d2, d3, d4);
    Crossing(p1, p2, p3, p4, s, t);
    OnAt(p1, p2, s);
    OnAt(p3, p4, t);
  }

  lemma Sides(d1: real, d2: real, d3: real, d4: real) returns (s: real, t: real)
    requires Sign(d1) != Sign(d2) && Sign(d3) != Sign(d4) && d2 - d1 == d3 - d4
    ensures d2 - d1 != 0.0 && 0.0 <= s <= 1.0 && 0.0 <= t <= 1.0 && s * (d2 - d1) == d3 && t * (d2 - d1) == -d1
  {
    Fraction(d2 - d1, d3);
    Fraction(d2 - d1, -d1);
    s, t := d3 / (d2 - d1), -d1 / (d2 - d1);
  }

  lemma OnEnd(a: Point, b: Point)
    ensures On(a, b, a) && On(a, b, b)
  {
    assert Along(a, b, 0.0) == a && Along(a, b, 1.0) == b;
  }

  lemma IntersectSound(p1: Point, p2: Point, p3: Point, p4: Point)
    requires SegmentsIntersect(p1, p2, p3, p4)
    ensures SharePoint(p1, p2, p3, p4)
  {
    hide Cross, On, OnSegment;
    OnEnd(p1, p2);
    OnEnd(p3, p4);
    if Orientation(p1, p2, p3) != Orientation(p1, p2, p4) && Orientation(p3, p4, p1) != Orientation(p3, p4, p2) {
      DifferentSides(p1, p2, p3, p4);
    } else if Orientation(p1, p2, p3) == 0 && OnSegment(p1, p2, p3) {
      BoxInLine(p1, p2, p3);
    } else if Orientation(p1, p2, p4) == 0 && OnSegment(p1, p2, p4) {
      BoxInLine(p1, p2, p4);
    } else if Orientation(p3, p4, p1) == 0 && OnSegment(p3, p4, p1) {
      BoxInLine(p3, p4, p1);
    } else {
      BoxInLine(p3, p4, p2);
    }
  }

  // ---------------------------------------------------------------- completeness

  /** At a shared point, the cross products are the fractions times the difference. */
  lemma CrossAtShared(p1: Point, p2: Point, p3: Point, p4: Point, s: real, t: real)
    requires Along(p1, p2, s) == Along(p3, p4, t)
    ensures var d := Cross(p1, p2, p4) - Cross(p1, p2, p3);
            && Cross(p1, p2, p3) == -(t * d) && Cross(p1, p2, p4) == (1.0 - t) * d
            && Cross(p3, p4, p1) == s * d && Cross(p3, p4, p2) == -((1.0 - s) * d)
  {
    var ux, uy, vx, vy := p2.x - p1.x, p2.y - p1.y, p4.x - p3.x, p4.y - p3.y;
    var wx, wy := p3.x - p1.x, p3.y - p1.y;
    CrossDifferences(p1, p2, p3, p4);
    MeetPoints(p1, p2, p3, p4, ux, uy, vx, vy, wx, wy, s, t);
    SharedProducts(ux, uy, vx, vy, wx, wy, s, t);
    var d := ux * vy - uy * vx;
    assert Cross(p1, p2, p3) == -(t * d) && Cross(p3, p4, p1) == s * d;
    hide Cross, Along;
    assert (1.0 - t) * d == d - t * d && (1.0 - s) * d == d - s * d;
  }

  lemma SharedProducts(ux: real, uy: real, vx: real, vy: real, wx: real, wy: real, s: real, t: real)
    requires wx + t * vx == s * ux && wy + t * vy == s * uy
    ensures ux * wy - uy * wx == -(t * (ux * vy - uy * vx))
    ensures wx * vy - wy * vx == s * (ux * vy - uy * vx)
  {
    var a, b := s * ux, s * uy;
    var tx, ty := t * vx, t * vy;
    assert wx == a - tx && wy == b - ty;
    assert ux * b == uy * a;
    assert ux * ty - uy * tx == t * (ux * vy - uy * vx);
    assert ux * wy == ux * b - ux * ty && uy * wx == uy * a - uy * tx;
    assert tx * vy == ty * vx;
    assert a * vy - b * vx == s * (ux * vy - uy * vx);
    assert wx * vy == a * vy - tx * vy && wy * vx == b * vx - ty * vx;
  }

  /** Opposite fractions of a difference lie on different sides of zero. */
  lemma SignsDiffer(d: real, t: real, low: real, high: real)
    requires d != 0.0 && 0.0 <= t <= 1.0 && low == -(t * d) && high == (1.0 - t) * d
    ensures Sign(low) != Sign(high)
  {
    Scaled(t, d);
    Scaled(1.0 - t, d);
    assert high - low == d;
  }

  /** On one line, two segments that share a point have an end of one on the other. */
  lemma EndOnOther(p1: Point, p2: Point, p3: Point, p4: Point, s: real, t: real)
    requires 0.0 <= s <= 1.0 && 0.0 <= t <= 1.0 && Along(p1, p2, s) == Along(p3, p4, t)
    requires Cross(p1, p2, p4) == Cross(p1, p2, p3)
    ensures OnSegment(p1, p2, p3) || OnSegment(p1, p2, p4) || OnSegment(p3, p4, p1) || OnSegment(p3, p4, p2)
  {
    var ux, uy, vx, vy := p2.x - p1.x, p2.y - p1.y, p4.x - p3.x, p4.y - p3.y;
    CrossDifferences(p1, p2, p3, p4);
    assert ux * vy == uy * vx;
    if ux == 0.0 && uy == 0.0 {
      assert Along(p3, p4, t) == p1;
      OnInBox(p3, p4, t);
    } else {
      var k := if ux != 0.0 then vx / ux else vy / uy;
      assert k * ux == vx && k * uy == vy by { Multiple(ux, uy, vx, vy); }
      EndsAlong(p1, p2, p3, p4, s, t, k);
    }
  }

  lemma Multiple(ux: real, uy: real, vx: real, vy: real)
    requires ux * vy == uy * vx
    ensures ux != 0.0 ==> (vx / ux) * ux == vx && (vx / ux) * uy == vy
    ensures ux == 0.0 && uy != 0.0 ==> (vy / uy) * ux == vx && (vy / uy) * uy == vy
  {
    if ux != 0.0 {
      assert (vx / ux) * ux == vx;
      Proportion(ux, uy, vx, vy, vx / ux);
    } else if uy != 0.0 {
      assert (vy / uy) * uy == vy;
      if vx != 0.0 { NoZeroDivisor(uy, vx); }
    }
  }

  lemma EndsAlong(p1: Point, p2: Point, p3: Point, p4: Point, s: real, t: real, k: real)
    requires 0.0 <= s <= 1.0 && 0.0 <= t <= 1.0 && Along(p1, p2, s) == Along(p3, p4, t)
    requires k * (p2.x - p1.x) == p4.x - p3.x && k * (p2.y - p1.y) == p4.y - p3.y
    ensures OnSegment(p1, p2, p3) || OnSegment(p1, p2, p4) || OnSegment(p3, p4, p1) || OnSegment(p3, p4, p2)
  {
    var a, b := s - t * k, s + (1.0 - t) * k;
    EndsAt(p1, p2, p3, p4, s, t, k);
    hide OnSegment, Along;
    if 0.0 <= a <= 1.0 {
      OnInBox(p1, p2, a);
    } else if 0.0 <= b <= 1.0 {
      OnInBox(p1, p2, b);
    } else {
      Straddles(s, t, k);
      Fraction(k, -a);
      StartAt(p1, p2, p3, p4, a, k, -a / k);
      OnInBox(p3, p4, -a / k);
    }
  }

  lemma EndsAt(p1: Point, p2: Point, p3: Point, p4: Point, s: real, t: real, k: real)
    requires Along(p1, p2, s) == Along(p3, p4, t)
    requires k * (p2.x - p1.x) == p4.x - p3.x && k * (p2.y - p1.y) == p4.y - p3.y
    ensures Along(p1, p2, s - t * k) == p3 && Along(p1, p2, s + (1.0 - t) * k) == p4
  {
    AlongBy(p1.x, p2.x, p3.x, p4.x, s, t, k);
    AlongBy(p1.y, p2.y, p3.y, p4.y, s, t, k);
  }

  lemma StartAt(p1: Point, p2: Point, p3: Point, p4: Point, a: real, k: real, f: real)
    requires Along(p1, p2, a) == p3 && f * k == -a
    requires k * (p2.x - p1.x) == p4.x - p3.x && k * (p2.y - p1.y) == p4.y - p3.y
    ensures Along(p3, p4, f) == p1
  {
    BackTo(p1.x, p2.x, p3.x, p4.x, a, k, f);
    BackTo(p1.y, p2.y, p3.y, p4.y, a, k, f);
  }

  lemma AlongBy(x1: real, x2: real, x3: real, x4: real, s: real, t: real, k: real)
    requires x1 + s * (x2 - x1) == x3 + t * (x4 - x3) && k * (x2 - x1) == x4 - x3
    ensures x1 + (s - t * k) * (x2 - x1) == x3
    ensures x1 + (s + (1.0 - t) * k) * (x2 - x1) == x4
  {
    var u := x2 - x1;
    assert (s - t * k) * u == s * u - t * (k * u);
    assert (s + (1.0 - t) * k) * u == s * u + (k * u) - t * (k * u);
  }

  lemma Straddles(s: real, t: real, k: real)
    requires 0.0 <= s <= 1.0 && 0.0 <= t <= 1.0
    requires !(0.0 <= s - t * k <= 1.0) && !(0.0 <= s + (1.0 - t) * k <= 1.0)
    ensures k != 0.0 && (0.0 <= -(s - t * k) <= k || k <= -(s - t * k) <= 0.0)
  {
    Scaled(t, k);
    Scaled(1.0 - t, k);
    assert (1.0 - t) * k == k - t * k;
  }

  lemma BackTo(x1: real, x2: real, x3: real, x4: real, a: real, k: real, f: real)
    requires x1 + a * (x2 - x1) == x3 && k * (x2 - x1) == x4 - x3 && f * k == -a
    ensures x3 + f * (x4 - x3) == x1
  {
    assert f * (k * (x2 - x1)) == (f * k) * (x2 - x1);
    assert (f * k) * (x2 - x1) == -(a * (x2 - x1));
  }

  lemma IntersectComplete(p1: Point, p2: Point, p3: Point, p4: Point)
    requires SharePoint(p1, p2, p3, p4)
    ensures SegmentsIntersect(p1, p2, p3, p4)
  {
    var p :| On(p1, p2, p) && On(p3, p4, p);
    var s :| 0.0 <= s <= 1.0 && p == Along(p1, p2, s);
    var t :| 0.0 <= t <= 1.0 && p == Along(p3, p4, t);
    hide SegmentsIntersect, On;
    CompleteAt(p1, p2, p3, p4, s, t);
  }

  lemma CompleteAt(p1: Point, p2: Point, p3: Point, p4: Point, s: real, t: real)
    requires 0.0 <= s <= 1.0 && 0.0 <= t <= 1.0 && Along(p1, p2, s) == Along(p3, p4, t)
    ensures SegmentsIntersect(p1, p2, p3, p4)
  {
    hide Cross, OnSegment, Along;
    var d := Cross(p1, p2, p4) - Cross(p1, p2, p3);
    CrossAtShared(p1, p2, p3, p4, s, t);
    if d != 0.0 {
      SignsDiffer(d, t, Cross(p1, p2, p3), Cross(p1, p2, p4));
      SignsDiffer(d, s, -Cross(p3, p4, p1), -Cross(p3, p4, p2));
    } else {
      EndOnOther(p1, p2, p3, p4, s, t);
      ZeroProducts(s, t, d);
    }
  }

  lemma ZeroProducts(s: real, t: real, d: real)
    requires d == 0.0
    ensures t * d == 0.0 && s * d == 0.0 && (1.0 - t) * d == 0.0 && (1.0 - s) * d == 0.0
  {
  }

  /** The test answers exactly whether the closed segments share a point, touching,
      overlapping and zero-length segments included. */
  lemma IntersectMeaning(p1: Point, p2: Point, p3: Point, p4: Point)
    ensures SegmentsIntersect(p1, p2, p3, p4) <==> SharePoint(p1, p2, p3, p4)
  {
    hide SegmentsIntersect, SharePoint;
    if SegmentsIntersect(p1, p2, p3, p4) { IntersectSound(p1, p2, p3, p4); }
    if SharePoint(p1, p2, p3, p4) { IntersectComplete(p1, p2, p3, p4); }
  }

  // -------------------------------------------------------------------- the ring

  /** Segments i and j of a ring of n segments that do not follow each other; the last
      one is followed by the first. */
  predicate Apart(i: int, j: int, n: int) {
    0 <= i && i + 2 <= j < n && !(i == 0 && j == n - 1)
  }

  predicate Crosses(points: seq<Point>, i: int, j: int)
    requires 0 <= i < |points| - 1 && 0 <= j < |points| - 1
  {
    SegmentsIntersect(points[i], points[i + 1], points[j], points[j + 1])
  }

  /** Two segments are apart when they have no end in common: segment i leads from place i to
      the next, and the last one back to the first. */
  lemma ApartMeaning(i: int, j: int, n: int)
    requires 0 <= i < j < n
    ensures Apart(i, j, n) <==> {i, (i + 1) % n} !! {j, (j + 1) % n}
  {
    assert (i + 1) % n == i + 1;
    assert (j + 1) % n == if j == n - 1 then 0 else j + 1;
  }

  const MAX_SEGMENTS := 512

  datatype RingCheck = Skipped | Simple | SelfIntersects(i: int, j: int)

  /** The bounded pairwise check: it skips long rings, and stops at the first pair that
      crosses. */
  method CheckRing(points: seq<Point>) returns (r: RingCheck)
    requires |points| >= 1
    ensures r.Skipped? <==> |points| - 1 > 512
    ensures r.Simple? ==> forall i, j :: Apart(i, j, |points| - 1) ==> !Crosses(points, i, j)
    ensures r.SelfIntersects? ==> Apart(r.i, r.j, |points| - 1) && Crosses(points, r.i, r.j)
    ensures r.SelfIntersects? ==> forall i, j :: Apart(i, j, |points| - 1) && Crosses(points, i, j) ==>
              r.i < i || (r.i == i && r.j <= j)
  {
    hide SegmentsIntersect;
    var segmentCount := |points| - 1;
    if segmentCount > MAX_SEGMENTS {
      return Skipped;
    }
    for i := 0 to segmentCount
      invariant forall a, b :: Apart(a, b, segmentCount) && a < i ==> !Crosses(points, a, b)
    {
      var j := i + 2;
      while j < segmentCount
        invariant i + 2 <= j
        invariant forall b :: Apart(i, b, segmentCount) && b < j ==> !Crosses(points, i, b)
      {
        if !(i == 0 && j == segmentCount - 1) {
          if SegmentsIntersect(points[i], points[i + 1], points[j], points[j + 1]) {
            return SelfIntersects(i, j);
          }
        }
        j := j + 1;
      }
    }
    r := Simple;
  }

  /** So a ring that is checked is reported exactly when two of its segments that do not
      follow each other share a point. */
  lemma ReportedMeaning(points: seq<Point>)
    requires |points| >= 1
    ensures (exists i, j :: Apart(i, j, |points| - 1) && Crosses(points, i, j))
       <==> exists i, j :: Apart(i, j, |points| - 1) && SharePoint(points[i], points[i + 1], points[j], points[j + 1])
  {
    hide SegmentsIntersect, SharePoint;
    forall i, j | Apart(i, j, |points| - 1)
      ensures Crosses(points, i, j) <==> SharePoint(points[i], points[i + 1], points[j], points[j + 1])
    {
      IntersectMeaning(points[i], points[i + 1], points[j], points[j + 1]);
    }
  }
}
