/**
  The level-3 geometry checks of src/drc_agent/actions/candidates.py: when is an edited polygon legal?

  The reference notion is SimpleClosedCurve: walking once around the polygon, over real parameters, never
  visits a point twice. The code only looks at integer vertices and at pairs of non-adjacent edges.
 */
module Polygons {
  import opened Basics
  import opened Segments

  // ----- Edges and the closed curve

  /** (i + 1) % n for an index i below n. */
  function Next(i: nat, n: nat): (j: nat)
    requires i < n
    ensures j < n
  {
    if i + 1 == n then 0 else i + 1
  }

  function CurvePoint(p: seq<Point>, i: nat, s: real): RealPoint
    requires i < |p|
  {
    At(p[i], p[Next(i, |p|)], s)
  }

  ghost predicate HalfOpen(s: real) { 0.0 <= s < 1.0 }

  /** The closed curve is injective: no crossing, no touching, no fold-back, no repeated vertex. */
  ghost predicate SimpleClosedCurve(p: seq<Point>) {
    forall i: nat, j: nat, s: real, t: real ::
      i < |p| && j < |p| && HalfOpen(s) && HalfOpen(t) && CurvePoint(p, i, s) == CurvePoint(p, j, t)
      ==> i == j && s == t
  }

  predicate Adjacent(i: nat, j: nat, n: nat)
    requires i < n && j < n
  {
    i == j || j == Next(i, n) || i == Next(j, n)
  }

  ghost predicate EdgesMeet(p: seq<Point>, i: nat, j: nat)
    requires i < |p| && j < |p|
  {
    Meet(p[i], p[Next(i, |p|)], p[j], p[Next(j, |p|)])
  }

  predicate EdgesIntersect(p: seq<Point>, i: nat, j: nat)
    requires i < |p| && j < |p|
  {
    SegmentsIntersect(p[i], p[Next(i, |p|)], p[j], p[Next(j, |p|)])
  }

  predicate Distinct(p: seq<Point>) {
    forall i, j :: 0 <= i < j < |p| ==> p[i] != p[j]
  }

  /** Distinct vertices, and closed edges that are not neighbours share no real point. */
  ghost predicate ApartExceptNeighbours(p: seq<Point>) {
    && Distinct(p)
    && forall i: nat, j: nat :: i < |p| && j < |p| && !Adjacent(i, j, |p|) ==> !EdgesMeet(p, i, j)
  }

  // ----- Area

  function ShoelaceFrom(p: seq<Point>, i: nat): int
    requires i <= |p|
    decreases |p| - i
  {
    if i == |p| then 0
    else
      var j := Next(i, |p|);
      p[i].x * p[j].y - p[j].x * p[i].y + ShoelaceFrom(p, i + 1)
  }

  function PolygonArea2(p: seq<Point>): nat { Abs(ShoelaceFrom(p, 0)) }

  /** A triangle whose corners are collinear has no area. */
  lemma CollinearTriangle(p: seq<Point>)
    requires |p| == 3
    ensures PolygonArea2(p) == Abs(OrientationValue(p[0], p[1], p[2]))
    ensures OrientationValue(p[1], p[2], p[0]) == OrientationValue(p[0], p[1], p[2])
    ensures OrientationValue(p[2], p[0], p[1]) == OrientationValue(p[0], p[1], p[2])
  {
    assert ShoelaceFrom(p, 3) == 0;
    assert ShoelaceFrom(p, 2) == p[2].x * p[0].y - p[0].x * p[2].y;
    assert ShoelaceFrom(p, 1) == p[1].x * p[2].y - p[2].x * p[1].y + ShoelaceFrom(p, 2);
  }

  /** The signed triangles p[0], p[i], p[i + 1] from i on: a reference that never looks at the closing edge. */
  ghost function FanFrom(p: seq<Point>, i: nat): int
    requires 1 <= i < |p|
    decreases |p| - i
  {
    if i == |p| - 1 then 0 else OrientationValue(p[0], p[i], p[i + 1]) + FanFrom(p, i + 1)
  }

  function Cross(a: Point, b: Point): int { a.x * b.y - b.x * a.y }

  lemma TriangleByCrosses(a: Point, b: Point, c: Point)
    ensures OrientationValue(a, b, c) == -(Cross(a, b) + Cross(b, c) + Cross(c, a))
  {}

  /** From vertex i on, the fan and the shoelace sum differ by the triangle's side from p[0] to p[i]. */
  lemma {:induction false} FanAgainstShoelace(p: seq<Point>, i: nat)
    requires 1 <= i < |p|
    ensures FanFrom(p, i) == -(Cross(p[0], p[i]) + ShoelaceFrom(p, i))
    decreases |p| - i
  {
    if i == |p| - 1 {
      assert ShoelaceFrom(p, |p|) == 0;
      assert ShoelaceFrom(p, i) == Cross(p[i], p[0]);
    } else {
      FanAgainstShoelace(p, i + 1);
      TriangleByCrosses(p[0], p[i], p[i + 1]);
      assert ShoelaceFrom(p, i) == Cross(p[i], p[i + 1]) + ShoelaceFrom(p, i + 1);
    }
  }

  /** The area test measures the polygon's fan of triangles, whatever the number of corners. */
  lemma AreaIsFan(p: seq<Point>)
    requires |p| >= 3
    ensures PolygonArea2(p) == Abs(FanFrom(p, 1))
  {
    FanAgainstShoelace(p, 1);
    assert ShoelaceFrom(p, 0) == Cross(p[0], p[1]) + ShoelaceFrom(p, 1);
  }

  // ----- Fold-backs of neighbouring edges

  /** Edges a-b and b-c that meet anywhere but in b: one of them runs back along the other. */
  lemma FoldBack(a: Point, b: Point, c: Point, s: real, t: real)
    requires a != b && b != c && HalfOpen(s) && Unit(t) && At(a, b, s) == At(b, c, t)
    ensures Contains(b, c, a) || Contains(a, b, c)
  {
    var alpha, beta := 1.0 - s, t;
    Scaled(alpha, beta, (a.x - b.x) as real, (c.x - b.x) as real, a.x as real, b.x as real, c.x as real, s, t);
    Scaled(alpha, beta, (a.y - b.y) as real, (c.y - b.y) as real, a.y as real, b.y as real, c.y as real, s, t);
    if alpha <= beta {
      RatioUnit(alpha, beta);
      // a - b is a larger multiple of the shared direction than c - b
      assert Unit(1.0 - alpha / beta) && At(a, b, 1.0 - alpha / beta) == ToReal(c);
    } else {
      if beta != 0.0 {
        RatioUnit(beta, alpha);
      }
      assert Unit(beta / alpha) && At(b, c, beta / alpha) == ToReal(a);
    }
  }

  lemma Scaled(alpha: real, beta: real, u: real, w: real, a: real, b: real, c: real, s: real, t: real)
    requires alpha == 1.0 - s > 0.0 && beta == t >= 0.0 && u == a - b && w == c - b
    requires a + s * (b - a) == b + t * (c - b)
    ensures 0.0 < alpha <= beta ==> a + (1.0 - alpha / beta) * (b - a) == c
    ensures beta < alpha ==> b + beta / alpha * (c - b) == a
  {
    assert alpha * u == beta * w;
    if alpha <= beta {
      Quotient(alpha, beta, u, w);
      assert (1.0 - alpha / beta) * (b - a) == -u + alpha / beta * u;
    } else {
      Quotient(beta, alpha, w, u);
    }
  }

  lemma Quotient(n: real, m: real, u: real, w: real)
    requires m != 0.0 && n * u == m * w
    ensures n / m * u == w
  {
    assert n / m * u == (n * u) / m;
  }

  /** Neighbouring edges of an accepted polygon share only their common vertex. */
  lemma NeighboursShareOnlyVertex(p: seq<Point>, i: nat, s: real, t: real)
    requires |p| >= 3 && PolygonArea2(p) != 0 && ApartExceptNeighbours(p)
    requires i < |p| && HalfOpen(s) && Unit(t)
    ensures CurvePoint(p, i, s) != CurvePoint(p, Next(i, |p|), t)
  {
    var n := |p|;
    var j := Next(i, n);
    var k := Next(j, n);
    var h := if i == 0 then n - 1 else i - 1;
    var a, b, c := p[i], p[j], p[k];
    if CurvePoint(p, i, s) == CurvePoint(p, j, t) {
      FoldBack(a, b, c, s, t);
      if n == 3 {
        OnSegmentIsContains(b, c, a);
        OnSegmentIsContains(a, b, c);
        CollinearTriangle(p);
        assert false;
      } else if Contains(a, b, c) {
        ContainsGivesMeet(a, b, c, p[Next(k, n)]);
        assert EdgesMeet(p, i, k);
        assert false;
      } else {
        ContainsGivesMeet(b, c, p[h], a);
        assert EdgesMeet(p, j, h);
        assert false;
      }
    }
  }

  lemma EdgeIsInjective(a: Point, b: Point, s: real, t: real)
    requires a != b && At(a, b, s) == At(a, b, t)
    ensures s == t
  {
    if a.x != b.x {
      CancelFactor(s, t, (b.x - a.x) as real);
    } else {
      CancelFactor(s, t, (b.y - a.y) as real);
    }
  }

  lemma CancelFactor(s: real, t: real, u: real)
    requires u != 0.0 && s * u == t * u
    ensures s == t
  {
    assert (s - t) * u == 0.0;
  }

  // ----- The acceptance test against the curve

  lemma SharedPointMeets(p: seq<Point>, i: nat, j: nat, s: real, t: real)
    requires i < |p| && j < |p| && Unit(s) && Unit(t) && CurvePoint(p, i, s) == CurvePoint(p, j, t)
    ensures EdgesMeet(p, i, j)
  {}

  lemma AcceptedIsSimple(p: seq<Point>)
    requires |p| >= 3 && PolygonArea2(p) != 0 && ApartExceptNeighbours(p)
    ensures SimpleClosedCurve(p)
  {
    forall i: nat, j: nat, s: real, t: real |
      i < |p| && j < |p| && HalfOpen(s) && HalfOpen(t) && CurvePoint(p, i, s) == CurvePoint(p, j, t)
      ensures i == j && s == t
    {
      if i == j {
        EdgeIsInjective(p[i], p[Next(i, |p|)], s, t);
      } else if j == Next(i, |p|) {
        NeighboursShareOnlyVertex(p, i, s, t);
      } else if i == Next(j, |p|) {
        NeighboursShareOnlyVertex(p, j, t, s);
      } else {
        SharedPointMeets(p, i, j, s, t);
        assert false;
      }
    }
  }

  /** The end of one edge is the start of the next, so every point of the closed edge is on the curve. */
  lemma OnCurve(p: seq<Point>, i: nat, s: real) returns (j: nat, t: real)
    requires i < |p| && Unit(s)
    ensures j < |p| && HalfOpen(t) && CurvePoint(p, i, s) == CurvePoint(p, j, t)
    ensures if s == 1.0 then j == Next(i, |p|) && t == 0.0 else j == i && t == s
  {
    if s == 1.0 {
      j, t := Next(i, |p|), 0.0;
    } else {
      j, t := i, s;
    }
  }

  lemma SimpleIsAccepted(p: seq<Point>)
    requires SimpleClosedCurve(p)
    ensures ApartExceptNeighbours(p)
  {
    forall i: nat, j: nat | i < j < |p|
      ensures p[i] != p[j]
    {
      assert HalfOpen(0.0) && CurvePoint(p, i, 0.0) == ToReal(p[i]) && CurvePoint(p, j, 0.0) == ToReal(p[j]);
    }
    forall i: nat, j: nat | i < |p| && j < |p| && !Adjacent(i, j, |p|)
      ensures !EdgesMeet(p, i, j)
    {
      if EdgesMeet(p, i, j) {
        var s: real, t: real :| Unit(s) && Unit(t) && CurvePoint(p, i, s) == CurvePoint(p, j, t);
        var i', s' := OnCurve(p, i, s);
        var j', t' := OnCurve(p, j, t);
        assert false;
      }
    }
  }

  /** What the level-3 polygon test decides: a simple closed curve with area. */
  lemma AcceptedIffSimple(p: seq<Point>)
    requires |p| >= 3 && PolygonArea2(p) != 0
    ensures ApartExceptNeighbours(p) <==> SimpleClosedCurve(p)
  {
    if ApartExceptNeighbours(p) {
      AcceptedIsSimple(p);
    }
    if SimpleClosedCurve(p) {
      SimpleIsAccepted(p);
    }
  }
}
