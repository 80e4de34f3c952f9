/**
  The integer segment test of src/drc_agent/actions/candidates.py and its meaning over real points.

  The code decides with integer orientations and bounding boxes whether two segments meet. Meet says
  what that should mean: some real parameters in [0, 1] name the same point on both segments. The two
  are proved equivalent for all integer end points, zero-length segments included.
 */
module Segments {
  import opened Basics

  datatype Point = Point(x: int, y: int)

  datatype RealPoint = RealPoint(x: real, y: real)

  /** The signed double area the code tests; its sign is the orientation. */
  function OrientationValue(a: Point, b: Point, c: Point): int {
    (b.y - a.y) * (c.x - b.x) - (b.x - a.x) * (c.y - b.y)
  }

  function Orientation(a: Point, b: Point, c: Point): int {
    Sign(OrientationValue(a, b, c))
  }

  function Sign(value: int): int {
    if value == 0 then 0 else if value > 0 then 1 else -1
  }

  predicate OnSegment(a: Point, b: Point, c: Point) {
    && Min(a.x, c.x) <= b.x <= Max(a.x, c.x)
    && Min(a.y, c.y) <= b.y <= Max(a.y, c.y)
  }

  predicate SegmentsIntersect(a: Point, b: Point, c: Point, d: Point) {
    var o1, o2 := Orientation(a, b, c), Orientation(a, b, d);
    var o3, o4 := Orientation(c, d, a), Orientation(c, d, b);
    || (o1 != o2 && o3 != o4)
    || (o1 == 0 && OnSegment(a, c, b))
    || (o2 == 0 && OnSegment(a, d, b))
    || (o3 == 0 && OnSegment(c, a, d))
    || (o4 == 0 && OnSegment(c, b, d))
  }

  // ----- Real points of a segment

  function ToReal(p: Point): RealPoint { RealPoint(p.x as real, p.y as real) }

  /** The point of segment a-b at parameter s: a + s (b - a). */
  function At(a: Point, b: Point, s: real): RealPoint {
    RealPoint(a.x as real + s * (b.x - a.x) as real, a.y as real + s * (b.y - a.y) as real)
  }

  ghost predicate Unit(s: real) { 0.0 <= s <= 1.0 }

  /** Segments a-b and c-d share a real point. */
  ghost predicate Meet(a: Point, b: Point, c: Point, d: Point) {
    exists s: real, t: real :: Unit(s) && Unit(t) && At(a, b, s) == At(c, d, t)
  }

  ghost predicate Contains(a: Point, b: Point, p: Point) {
    exists s: real :: Unit(s) && At(a, b, s) == ToReal(p)
  }

  // ----- One point against one segment

  /** The parameter at which the line a-b passes through a collinear point p. */
  lemma Parameter(a: Point, b: Point, p: Point) returns (s: real)
    requires a != b && OrientationValue(a, b, p) == 0
    ensures At(a, b, s) == ToReal(p)
    ensures OnSegment(a, p, b) ==> Unit(s)
  {
    var ux, uy, px, py := b.x - a.x, b.y - a.y, p.x - a.x, p.y - a.y;
    assert uy * px == ux * py;
    if ux != 0 {
      s := Ratio(ux, uy, px, py);
    } else {
      s := Ratio(uy, ux, py, px);
    }
  }

  /** If (p, q) is parallel to (u, v) and u is not zero, one real scales (u, v) to (p, q). */
  lemma Ratio(u: int, v: int, p: int, q: int) returns (s: real)
    requires u != 0 && v * p == u * q
    ensures s * u as real == p as real && s * v as real == q as real
    ensures Min(0, u) <= p <= Max(0, u) ==> Unit(s)
  {
    s := p as real / u as real;
    ProductAsReal(v, p);
    ProductAsReal(u, q);
    ScaledRatio(p as real, u as real, v as real, q as real);
    UnitRatio(p, u, s);
  }

  lemma ProductAsReal(m: int, n: int)
    ensures (m * n) as real == m as real * n as real
  {}

  lemma ScaledRatio(p: real, u: real, v: real, q: real)
    requires u != 0.0 && v * p == u * q
    ensures p / u * u == p && p / u * v == q
  {
    assert p / u * u == p;
    calc {
      p / u * v;
      p * v / u;
      u * q / u;
      q;
    }
  }

  lemma UnitRatio(p: int, u: int, s: real)
    requires u != 0 && s == p as real / u as real
    ensures (Min(0, u) <= p <= Max(0, u)) ==> Unit(s)
  {
    if u > 0 && 0 <= p <= u {
      assert 0.0 <= s <= 1.0;
    } else if u < 0 && u <= p <= 0 {
      assert s == (-p) as real / (-u) as real;
    }
  }

  /** The one-point test of the code is exact: collinear and inside the bounding box. */
  lemma OnSegmentIsContains(a: Point, b: Point, p: Point)
    ensures (Orientation(a, b, p) == 0 && OnSegment(a, p, b)) <==> Contains(a, b, p)
  {
    if Orientation(a, b, p) == 0 && OnSegment(a, p, b) {
      if a == b {
        assert Unit(0.0) && At(a, b, 0.0) == ToReal(p);
      } else {
        var s := Parameter(a, b, p);
        assert Unit(s) && At(a, b, s) == ToReal(p);
      }
    }
    if Contains(a, b, p) {
      var s: real :| Unit(s) && At(a, b, s) == ToReal(p);
      Between(a.x, b.x, p.x, s);
      Between(a.y, b.y, p.y, s);
      CollinearAt(a, b, p, s);
    }
  }

  lemma Between(a: int, b: int, p: int, s: real)
    requires Unit(s) && a as real + s * (b - a) as real == p as real
    ensures Min(a, b) <= p <= Max(a, b)
  {
    ScaledDown(s, (b - a) as real);
  }

  /** A unit factor takes a number towards zero. */
  lemma ScaledDown(s: real, u: real)
    requires Unit(s)
    ensures if u >= 0.0 then 0.0 <= s * u <= u else u <= s * u <= 0.0
  {
    var size := if u >= 0.0 then u else -u;
    NonNegative(s, size);
    NonNegative(1.0 - s, size);
    assert (1.0 - s) * size == size - s * size;
    assert s * -size == -(s * size);
  }

  lemma NonNegative(x: real, y: real)
    requires 0.0 <= x && 0.0 <= y
    ensures 0.0 <= x * y
  {}

  lemma CollinearAt(a: Point, b: Point, p: Point, s: real)
    requires At(a, b, s) == ToReal(p)
    ensures OrientationValue(a, b, p) == 0
  {
    var ux, uy := b.x - a.x, b.y - a.y;
    assert (p.x - a.x) as real == s * ux as real && (p.y - a.y) as real == s * uy as real;
    assert uy as real * (p.x - a.x) as real == ux as real * (p.y - a.y) as real;
    ProductAsReal(uy, p.x - a.x);
    ProductAsReal(ux, p.y - a.y);
    assert uy * (p.x - a.x) == ux * (p.y - a.y);
    assert OrientationValue(a, b, p) == uy * (p.x - a.x) - ux * (p.y - a.y);
  }

  // ----- Two segments

  /** Strict case of the code: each segment's end points lie on different sides of the other's line. */
  lemma CrossingMeets(a: Point, b: Point, c: Point, d: Point)
    requires Orientation(a, b, c) != Orientation(a, b, d)
    requires Orientation(c, d, a) != Orientation(c, d, b)
    ensures Meet(a, b, c, d)
  {
    var ux, uy, wx, wy := b.x - a.x, b.y - a.y, d.x - c.x, d.y - c.y;
    var ex, ey := a.x - c.x, a.y - c.y;
    var n, k, m := Cramer(a, b, c, d);
    var s, t := Solve(ux, uy, wx, wy, ex, ey, n, k, m);
    MeetAt(a, b, c, d, s, t, ux, uy, wx, wy, ex, ey);
  }

  lemma MeetAt(a: Point, b: Point, c: Point, d: Point, s: real, t: real, ux: int, uy: int, wx: int, wy: int, ex: int,
               ey: int)
    requires ux == b.x - a.x && uy == b.y - a.y && wx == d.x - c.x && wy == d.y - c.y
    requires ex == a.x - c.x && ey == a.y - c.y && Unit(s) && Unit(t)
    requires ex as real + s * ux as real == t * wx as real && ey as real + s * uy as real == t * wy as real
    ensures Meet(a, b, c, d)
  {
    assert At(a, b, s) == At(c, d, t);
  }

  lemma Bracket(v: int, w: int)
    requires Sign(v) != Sign(w)
    ensures v != w && Min(0, v - w) <= v <= Max(0, v - w)
  {}

  /** Cramer's rule for the two unknown parameters n / m and k / m, cleared of denominators. */
  lemma Cramer(a: Point, b: Point, c: Point, d: Point) returns (n: int, k: int, m: int)
    requires Orientation(a, b, c) != Orientation(a, b, d)
    requires Orientation(c, d, a) != Orientation(c, d, b)
    ensures m != 0 && Min(0, m) <= n <= Max(0, m) && Min(0, m) <= k <= Max(0, m)
    ensures m * (a.x - c.x) + n * (b.x - a.x) == k * (d.x - c.x)
    ensures m * (a.y - c.y) + n * (b.y - a.y) == k * (d.y - c.y)
  {
    var ux, uy, wx, wy := b.x - a.x, b.y - a.y, d.x - c.x, d.y - c.y;
    var ex, ey := a.x - c.x, a.y - c.y;
    m := ux * wy - uy * wx;
    n := -(wy * ex - wx * ey);
    k := ux * ey - uy * ex;
    Identity(ux, uy, wx, wy, ex, ey);
    CrossValues(a, b, c, d);
    Bracket(OrientationValue(a, b, c), OrientationValue(a, b, d));
    Bracket(-OrientationValue(c, d, a), -OrientationValue(c, d, b));
  }

  /** The four orientation values in terms of the two direction vectors and the offset between them. */
  lemma CrossValues(a: Point, b: Point, c: Point, d: Point)
    ensures OrientationValue(a, b, c) == (b.x - a.x) * (a.y - c.y) - (b.y - a.y) * (a.x - c.x)
    ensures OrientationValue(c, d, a) == (d.y - c.y) * (a.x - c.x) - (d.x - c.x) * (a.y - c.y)
    ensures OrientationValue(a, b, c) - OrientationValue(a, b, d)
         == (b.x - a.x) * (d.y - c.y) - (b.y - a.y) * (d.x - c.x)
    ensures OrientationValue(c, d, b) - OrientationValue(c, d, a)
         == (b.x - a.x) * (d.y - c.y) - (b.y - a.y) * (d.x - c.x)
  {}

  lemma Identity(ux: int, uy: int, wx: int, wy: int, ex: int, ey: int)
    ensures (ux * wy - uy * wx) * ex + -(wy * ex - wx * ey) * ux == (ux * ey - uy * ex) * wx
    ensures (ux * wy - uy * wx) * ey + -(wy * ex - wx * ey) * uy == (ux * ey - uy * ex) * wy
  {}

  /** Two unit parameters with e + s u == t w, given the solution in fractions. */
  lemma Solve(ux: int, uy: int, wx: int, wy: int, ex: int, ey: int, n: int, k: int, m: int)
    returns (s: real, t: real)
    requires m != 0 && Min(0, m) <= n <= Max(0, m) && Min(0, m) <= k <= Max(0, m)
    requires m * ex + n * ux == k * wx && m * ey + n * uy == k * wy
    ensures Unit(s) && Unit(t)
    ensures ex as real + s * ux as real == t * wx as real
    ensures ey as real + s * uy as real == t * wy as real
  {
    s := Fraction(n, m);
    t := Fraction(k, m);
    FractionsAgree(ex, n, ux, k, wx, m, s, t);
    FractionsAgree(ey, n, uy, k, wy, m, s, t);
  }

  lemma Fraction(n: int, m: int) returns (s: real)
    requires m != 0 && Min(0, m) <= n <= Max(0, m)
    ensures s * m as real == n as real && Unit(s)
  {
    s := n as real / m as real;
    UnitRatio(n, m, s);
  }

  lemma FractionsAgree(e: int, n: int, u: int, k: int, w: int, m: int, s: real, t: real)
    requires m != 0 && m * e + n * u == k * w
    requires s * m as real == n as real && t * m as real == k as real
    ensures e as real + s * u as real == t * w as real
  {
    var M, E, U, W := m as real, e as real, u as real, w as real;
    ProductAsReal(m, e);
    ProductAsReal(n, u);
    ProductAsReal(k, w);
    assert M * E + (s * M) * U == (t * M) * W;
    assert M * (E + s * U) == M * (t * W);
  }

  /** Along c-d the signed area against a-b changes linearly, and it vanishes at a common point. */
  lemma VanishesAtCommonPoint(a: Point, b: Point, c: Point, d: Point, s: real, t: real)
    requires At(a, b, s) == At(c, d, t)
    ensures (1.0 - t) * OrientationValue(a, b, c) as real + t * OrientationValue(a, b, d) as real == 0.0
  {
    var v1, v2 := OrientationValue(a, b, c), OrientationValue(a, b, d);
    AreaIsScaled(a, b, c, d, s, t, v1, v1 - v2);
    MixVanishes(v1 as real, v2 as real, (v1 - v2) as real, t);
  }

  lemma AreaIsScaled(a: Point, b: Point, c: Point, d: Point, s: real, t: real, area: int, cross: int)
    requires At(a, b, s) == At(c, d, t)
    requires area == OrientationValue(a, b, c) && cross == area - OrientationValue(a, b, d)
    ensures area as real == t * cross as real
  {
    var ux, uy, wx, wy := b.x - a.x, b.y - a.y, d.x - c.x, d.y - c.y;
    var ex, ey := a.x - c.x, a.y - c.y;
    CommonOffsets(a, b, c, d, s, t, ux, uy, wx, wy, ex, ey);
    CrossValues(a, b, c, d);
    AreaAtCommonPoint(ux, uy, wx, wy, ex, ey, s, t, area, cross);
  }

  lemma CommonOffsets(a: Point, b: Point, c: Point, d: Point, s: real, t: real, ux: int, uy: int, wx: int, wy: int,
                      ex: int, ey: int)
    requires At(a, b, s) == At(c, d, t)
    requires ux == b.x - a.x && uy == b.y - a.y && wx == d.x - c.x && wy == d.y - c.y
    requires ex == a.x - c.x && ey == a.y - c.y
    ensures ex as real + s * ux as real == t * wx as real && ey as real + s * uy as real == t * wy as real
  {
    CommonOffset(a.x, c.x, ux, wx, s, t);
    CommonOffset(a.y, c.y, uy, wy, s, t);
  }

  lemma AreaAtCommonPoint(ux: int, uy: int, wx: int, wy: int, ex: int, ey: int, s: real, t: real, area: int, cross: int)
    requires ex as real + s * ux as real == t * wx as real && ey as real + s * uy as real == t * wy as real
    requires area == ux * ey - uy * ex && cross == ux * wy - uy * wx
    ensures area as real == t * cross as real
  {
    CrossAsReal(ux, ey, uy, ex);
    CrossAsReal(ux, wy, uy, wx);
    LinearCombination(ux as real, uy as real, wx as real, wy as real, ex as real, ey as real, s, t);
  }

  lemma CommonOffset(a: int, c: int, u: int, w: int, s: real, t: real)
    requires a as real + s * u as real == c as real + t * w as real
    ensures (a - c) as real + s * u as real == t * w as real
  {}

  lemma MixVanishes(v1: real, v2: real, cross: real, t: real)
    requires v1 == t * cross && v2 == v1 - cross
    ensures (1.0 - t) * v1 + t * v2 == 0.0
  {
    assert t * v2 == t * v1 - t * cross;
    assert (1.0 - t) * v1 == v1 - t * v1;
  }

  lemma CrossAsReal(p: int, q: int, r: int, w: int)
    ensures (p * q - r * w) as real == p as real * q as real - r as real * w as real
  {
    ProductAsReal(p, q);
    ProductAsReal(r, w);
  }

  lemma LinearCombination(ux: real, uy: real, wx: real, wy: real, ex: real, ey: real, s: real, t: real)
    requires ex + s * ux == t * wx && ey + s * uy == t * wy
    ensures ux * ey - uy * ex == t * (ux * wy - uy * wx)
  {
    calc {
      t * (ux * wy - uy * wx);
      ux * (t * wy) - uy * (t * wx);
      ux * (ey + s * uy) - uy * (ex + s * ux);
      ux * ey - uy * ex;
    }
  }

  /** Equal orientations at a common point can only be zero. */
  lemma EqualOrientationsVanish(a: Point, b: Point, c: Point, d: Point, s: real, t: real)
    requires Unit(t) && At(a, b, s) == At(c, d, t)
    requires Orientation(a, b, c) == Orientation(a, b, d)
    ensures Orientation(a, b, c) == 0
  {
    VanishesAtCommonPoint(a, b, c, d, s, t);
    SignedMix(OrientationValue(a, b, c) as real, OrientationValue(a, b, d) as real, t, 0.0);
  }

  /** A weighted mean of two numbers of one strict sign keeps that sign. */
  lemma SignedMix(v1: real, v2: real, t: real, mix: real)
    requires Unit(t) && mix == (1.0 - t) * v1 + t * v2
    ensures v1 > 0.0 && v2 > 0.0 ==> mix > 0.0
    ensures v1 < 0.0 && v2 < 0.0 ==> mix < 0.0
  {
    if v1 > 0.0 && v2 > 0.0 && t < 1.0 {
      assert (1.0 - t) * v1 > 0.0 && t * v2 >= 0.0;
    } else if v1 < 0.0 && v2 < 0.0 && t < 1.0 {
      assert (1.0 - t) * v1 < 0.0 && t * v2 <= 0.0;
    }
  }

  /** Collinear segments that share a point: an end of one of them lies on the other. */
  lemma CollinearOverlap(a: Point, b: Point, c: Point, d: Point)
    requires Orientation(a, b, c) == 0 && Orientation(a, b, d) == 0 && Meet(a, b, c, d)
    ensures Contains(a, b, c) || Contains(a, b, d) || Contains(c, d, a)
  {
    var s: real, t: real :| Unit(s) && Unit(t) && At(a, b, s) == At(c, d, t);
    if a == b {
      AtSamePoint(a, s);
      assert At(c, d, t) == ToReal(a);
    } else {
      var sc := Parameter(a, b, c);
      var sd := Parameter(a, b, d);
      assert s == sc + t * (sd - sc) by { ParameterIsAffine(a, b, c, d, s, t, sc, sd); }
      if !Unit(sc) && !Unit(sd) {
        StraddlesZero(s, t, sc, sd);
        var r := -sc / (sd - sc);
        RatioUnit(-sc, sd - sc);
        assert At(c, d, r) == ToReal(a) by { AffineAtZero(a, b, c, d, sc, sd, r); }
      }
    }
  }

  lemma AtSamePoint(a: Point, s: real)
    ensures At(a, a, s) == ToReal(a)
  {
    assert s * 0.0 == 0.0;
  }

  lemma StraddlesZero(s: real, t: real, sc: real, sd: real)
    requires Unit(s) && Unit(t) && s == sc + t * (sd - sc) && !Unit(sc) && !Unit(sd)
    ensures (sc < 0.0 && sd > 1.0) || (sd < 0.0 && sc > 1.0)
  {
    SignedMix(sc, sd, t, s);
    SignedMix(sc - 1.0, sd - 1.0, t, s - 1.0);
  }

  lemma RatioUnit(n: real, m: real)
    requires (0.0 < n <= m) || (m <= n < 0.0)
    ensures Unit(n / m) && n / m * m == n
  {
    if m < 0.0 {
      assert n / m == (-n) / (-m);
    }
  }

  lemma ParameterIsAffine(a: Point, b: Point, c: Point, d: Point, s: real, t: real, sc: real, sd: real)
    requires a != b && At(a, b, s) == At(c, d, t)
    requires At(a, b, sc) == ToReal(c) && At(a, b, sd) == ToReal(d)
    ensures s == sc + t * (sd - sc)
  {
    if a.x != b.x {
      Cancel((b.x - a.x) as real, c.x as real, d.x as real, a.x as real, s, t, sc, sd);
    } else {
      Cancel((b.y - a.y) as real, c.y as real, d.y as real, a.y as real, s, t, sc, sd);
    }
  }

  lemma Cancel(u: real, c: real, d: real, a: real, s: real, t: real, sc: real, sd: real)
    requires u != 0.0 && a + s * u == c + t * (d - c) && a + sc * u == c && a + sd * u == d
    ensures s == sc + t * (sd - sc)
  {
    assert d - c == (sd - sc) * u;
    assert s * u == sc * u + t * ((sd - sc) * u);
    assert (s - (sc + t * (sd - sc))) * u == 0.0;
  }

  lemma AffineAtZero(a: Point, b: Point, c: Point, d: Point, sc: real, sd: real, r: real)
    requires At(a, b, sc) == ToReal(c) && At(a, b, sd) == ToReal(d) && sc + r * (sd - sc) == 0.0
    ensures At(c, d, r) == ToReal(a)
  {
    BackToStart((b.x - a.x) as real, c.x as real, d.x as real, a.x as real, r, sc, sd);
    BackToStart((b.y - a.y) as real, c.y as real, d.y as real, a.y as real, r, sc, sd);
  }

  lemma BackToStart(u: real, c: real, d: real, a: real, r: real, sc: real, sd: real)
    requires a + sc * u == c && a + sd * u == d && sc + r * (sd - sc) == 0.0
    ensures c + r * (d - c) == a
  {
    assert d - c == (sd - sc) * u;
    assert c + r * (d - c) == a + (sc + r * (sd - sc)) * u;
  }

  lemma ContainsGivesMeet(a: Point, b: Point, c: Point, d: Point)
    ensures Contains(a, b, c) ==> Meet(a, b, c, d)
    ensures Contains(a, b, d) ==> Meet(a, b, c, d)
    ensures Meet(c, d, a, b) ==> Meet(a, b, c, d)
  {
    if Contains(a, b, c) {
      var s: real :| Unit(s) && At(a, b, s) == ToReal(c);
      assert Unit(0.0) && At(c, d, 0.0) == ToReal(c);
    }
    if Contains(a, b, d) {
      var s: real :| Unit(s) && At(a, b, s) == ToReal(d);
      assert Unit(1.0) && At(c, d, 1.0) == ToReal(d);
    }
  }

  /** The integer test is exact over the real points of the two closed segments. */
  lemma SegmentsIntersectIsExact(a: Point, b: Point, c: Point, d: Point)
    ensures SegmentsIntersect(a, b, c, d) <==> Meet(a, b, c, d)
  {
    OnSegmentIsContains(a, b, c);
    OnSegmentIsContains(a, b, d);
    OnSegmentIsContains(c, d, a);
    OnSegmentIsContains(c, d, b);
    ContainsGivesMeet(a, b, c, d);
    ContainsGivesMeet(c, d, a, b);
    if Orientation(a, b, c) != Orientation(a, b, d) && Orientation(c, d, a) != Orientation(c, d, b) {
      CrossingMeets(a, b, c, d);
    } else if Meet(a, b, c, d) {
      var s: real, t: real :| Unit(s) && Unit(t) && At(a, b, s) == At(c, d, t);
      if Orientation(a, b, c) == Orientation(a, b, d) {
        EqualOrientationsVanish(a, b, c, d, s, t);
        CollinearOverlap(a, b, c, d);
      } else {
        EqualOrientationsVanish(c, d, a, b, t, s);
        assert Meet(c, d, a, b);
        CollinearOverlap(c, d, a, b);
      }
    }
  }
}
