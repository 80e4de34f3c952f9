/**
  Distances and overlaps of boxes in src/drc_agent/regions/topology.py: integers computed from the
  corners, stated against all real points of the boxes.
 */
module Separation {
  import opened Basics
  import opened Boxes

  /** Integer square root, as math.isqrt. */
  function Isqrt(n: nat): (r: nat)
    ensures r * r <= n < (r + 1) * (r + 1)
  {
    if n == 0 then 0
    else
      var r := Isqrt(n - 1);
      if (r + 1) * (r + 1) <= n then r + 1 else r
  }

  function OutwardGap(a: Box, b: Box): nat {
    var squared := GapSquared(a, b);
    var root := Isqrt(squared);
    if root * root == squared then root else root + 1
  }

  // ----- Real points

  ghost predicate Holds(box: Box, x: real, y: real) {
    box.x1 as real <= x <= box.x2 as real && box.y1 as real <= y <= box.y2 as real
  }

  ghost predicate HoldsInside(box: Box, x: real, y: real) {
    (box.x1 as real) < x < (box.x2 as real) && (box.y1 as real) < y < (box.y2 as real)
  }

  function DistanceSquared(px: real, py: real, qx: real, qy: real): real {
    (px - qx) * (px - qx) + (py - qy) * (py - qy)
  }

  ghost predicate Joins(a: Box, b: Box, px: real, py: real, qx: real, qy: real, bound: nat) {
    Holds(a, px, py) && Holds(b, qx, qy) && DistanceSquared(px, py, qx, qy) <= bound as real
  }

  /** Some point of a and some point of b are at most n apart. */
  ghost predicate WithinReach(a: Box, b: Box, n: nat) {
    exists px: real, py: real, qx: real, qy: real :: Joins(a, b, px, py, qx, qy, n * n)
  }

  lemma SquareMonotone(x: real, y: real)
    requires -y <= x <= y
    ensures x * x <= y * y
  {
    assert (y - x) * (y + x) >= 0.0;
    assert (y - x) * (y + x) == y * y - x * x;
  }

  lemma SquareGrows(m: nat, n: nat)
    requires m < n
    ensures m * m < n * n
  {
    assert n * n - m * m == (n - m) * (n + m);
    assert (n - m) * (n + m) > 0;
  }

  lemma SquareCast(n: int)
    ensures (n * n) as real == (n as real) * (n as real)
  {}

  /** Along one axis: points of two intervals are at least the gap apart, and two of them exactly that far. */
  lemma AxisGap(a1: int, a2: int, b1: int, b2: int, p: real, q: real)
    requires a1 as real <= p <= a2 as real && b1 as real <= q <= b2 as real
    ensures (p - q) * (p - q) >= (Max(Max(a1 - b2, b1 - a2), 0) * Max(Max(a1 - b2, b1 - a2), 0)) as real
  {
    var gap := Max(Max(a1 - b2, b1 - a2), 0);
    SquareCast(gap);
    if gap == b1 - a2 && gap > 0 {
      SquareMonotone(gap as real, q - p);
      assert (q - p) * (q - p) == (p - q) * (p - q);
    } else if gap > 0 {
      SquareMonotone(gap as real, p - q);
    } else {
      assert (p - q) * (p - q) >= 0.0;
    }
  }

  lemma AxisNearest(a1: int, a2: int, b1: int, b2: int) returns (p: int, q: int)
    requires a1 <= a2 && b1 <= b2
    ensures a1 <= p <= a2 && b1 <= q <= b2
    ensures (p - q) * (p - q) == Max(Max(a1 - b2, b1 - a2), 0) * Max(Max(a1 - b2, b1 - a2), 0)
  {
    if a1 > b2 {
      p, q := a1, b2;
    } else if b1 > a2 {
      p, q := a2, b1;
      assert (p - q) * (p - q) == (b1 - a2) * (b1 - a2);
    } else {
      p := Max(a1, b1);
      q := p;
    }
  }

  /** The squared gap is the least squared distance between points of the boxes. */
  lemma GapIsLeastDistance(a: Box, b: Box, px: real, py: real, qx: real, qy: real)
    requires Holds(a, px, py) && Holds(b, qx, qy)
    ensures GapSquared(a, b) as real <= DistanceSquared(px, py, qx, qy)
  {
    AxisGap(a.x1, a.x2, b.x1, b.x2, px, qx);
    AxisGap(a.y1, a.y2, b.y1, b.y2, py, qy);
  }

  lemma GapIsAttained(a: Box, b: Box) returns (px: int, py: int, qx: int, qy: int)
    ensures Holds(a, px as real, py as real) && Holds(b, qx as real, qy as real)
    ensures DistanceSquared(px as real, py as real, qx as real, qy as real) == GapSquared(a, b) as real
  {
    px, qx := AxisNearest(a.x1, a.x2, b.x1, b.x2);
    py, qy := AxisNearest(a.y1, a.y2, b.y1, b.y2);
    CastDistance(px, py, qx, qy);
  }

  lemma CastDistance(px: int, py: int, qx: int, qy: int)
    ensures DistanceSquared(px as real, py as real, qx as real, qy as real)
         == ((px - qx) * (px - qx) + (py - qy) * (py - qy)) as real
  {
    var dx, dy := px - qx, py - qy;
    assert px as real - qx as real == dx as real && py as real - qy as real == dy as real;
    SquareCast(dx);
    SquareCast(dy);
  }

  lemma RootCovers(a: Box, b: Box, n: nat)
    ensures OutwardGap(a, b) <= n <==> GapSquared(a, b) <= n * n
  {
    var squared := GapSquared(a, b);
    RootOfSquared(squared, n, Isqrt(squared));
  }

  lemma RootOfSquared(squared: nat, n: nat, root: nat)
    requires root * root <= squared < (root + 1) * (root + 1)
    ensures (if root * root == squared then root else root + 1) <= n <==> squared <= n * n
  {
    if n < root {
      SquareGrows(n, root);
    } else if n > root + 1 {
      SquareGrows(root + 1, n);
    }
  }

  /** The outward gap is the least integer at which the boxes are within reach of each other. */
  lemma OutwardGapIsLeastReach(a: Box, b: Box, n: nat)
    ensures OutwardGap(a, b) <= n <==> WithinReach(a, b, n)
  {
    RootCovers(a, b, n);
    ReachBySquares(a, b, n * n);
  }

  lemma ReachBySquares(a: Box, b: Box, bound: nat)
    ensures GapSquared(a, b) <= bound <==>
            exists px: real, py: real, qx: real, qy: real :: Joins(a, b, px, py, qx, qy, bound)
  {
    if GapSquared(a, b) <= bound {
      var px, py, qx, qy := GapIsAttained(a, b);
      assert Joins(a, b, px as real, py as real, qx as real, qy as real, bound);
    }
    forall px: real, py: real, qx: real, qy: real | Joins(a, b, px, py, qx, qy, bound)
      ensures GapSquared(a, b) <= bound
    {
      GapIsLeastDistance(a, b, px, py, qx, qy);
    }
  }

  lemma OutwardGapSymmetric(a: Box, b: Box)
    ensures OutwardGap(a, b) == OutwardGap(b, a)
  {
    assert GapX(a, b) == GapX(b, a) && GapY(a, b) == GapY(b, a);
  }

  /** No gap means a common point, so a positive overlap never comes with a positive gap. */
  lemma NoGapMeansIntersects(a: Box, b: Box)
    ensures OutwardGap(a, b) == 0 <==> Intersects(a, b)
    ensures IntersectionArea(a, b) > 0 ==> OutwardGap(a, b) == 0
  {
    RootCovers(a, b, 0);
    var x, y := GapX(a, b), GapY(a, b);
    assert x * x + y * y == 0 <==> x == 0 && y == 0;
    if IntersectionArea(a, b) > 0 {
      assert Min(a.x2, b.x2) > Max(a.x1, b.x1) && Min(a.y2, b.y2) > Max(a.y1, b.y1);
    }
  }

  // ----- _intersection

  function Intersection(a: Box, b: Box): Option<Box> {
    var x1, y1 := Max(a.x1, b.x1), Max(a.y1, b.y1);
    var x2, y2 := Min(a.x2, b.x2), Min(a.y2, b.y2);
    if x1 >= x2 || y1 >= y2 then None
    else
      var clipped: Box := Box(x1, y1, x2, y2);
      Some(clipped)
  }

  /** There is an intersection exactly when the insides meet, and it holds exactly the common points. */
  lemma IntersectionIsExact(a: Box, b: Box)
    ensures Intersection(a, b).Some? <==> exists x: real, y: real :: HoldsInside(a, x, y) && HoldsInside(b, x, y)
    ensures Intersection(a, b).Some? ==>
              forall x: real, y: real :: Holds(Intersection(a, b).value, x, y) <==> Holds(a, x, y) && Holds(b, x, y)
  {
    var r := Intersection(a, b);
    if r.Some? {
      var x, y := (r.value.x1 + r.value.x2) as real / 2.0, (r.value.y1 + r.value.y2) as real / 2.0;
      assert HoldsInside(a, x, y) && HoldsInside(b, x, y);
    }
  }
}
