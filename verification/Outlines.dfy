/**
  The canonical polygon of src/drc_agent/regions/connectivity.py: the least of all rotations of the
  points and of the reversed points. Two point lists draw the same closed outline exactly when one is a
  rotation of the other or of its reversal, and that is what the canonical polygon decides.
 */
module Outlines {
  import opened Orders

  type Point = (int, int)

  // ----- Rotation and reversal

  function Rotated(p: seq<Point>, k: nat): (r: seq<Point>)
    requires k <= |p|
  {
    p[k..] + p[..k]
  }

  function Reversed(p: seq<Point>): (r: seq<Point>)
    ensures |r| == |p| && forall i :: 0 <= i < |p| ==> r[i] == p[|p| - 1 - i]
  {
    if p == [] then [] else Reversed(p[1..]) + [p[0]]
  }

  ghost predicate IsRotation(p: seq<Point>, q: seq<Point>) {
    exists k :: 0 <= k <= |p| && q == Rotated(p, k)
  }

  ghost predicate SameOutline(p: seq<Point>, q: seq<Point>) {
    IsRotation(p, q) || IsRotation(Reversed(p), q)
  }

  lemma RotationCounted(p: seq<Point>, k: nat)
    requires k <= |p|
    ensures IsRotation(p, Rotated(p, k))
  {}

  lemma RotatedTwice(p: seq<Point>, a: nat, b: nat)
    requires a <= |p| && b <= |p|
    ensures Rotated(Rotated(p, a), b) == Rotated(p, if a + b <= |p| then a + b else a + b - |p|)
  {
    var once, k := Rotated(p, a), if a + b <= |p| then a + b else a + b - |p|;
    var left, right := Rotated(once, b), Rotated(p, k);
    forall i | 0 <= i < |p| ensures left[i] == right[i] {
      RotatedAt(once, b, i);
      RotatedAt(p, a, if i + b < |p| then i + b else i + b - |p|);
      RotatedAt(p, k, i);
    }
  }

  lemma RotatedAt(p: seq<Point>, k: nat, i: nat)
    requires k <= |p| && i < |p|
    ensures Rotated(p, k)[i] == p[if i + k < |p| then i + k else i + k - |p|]
  {}

  lemma RotatedBack(p: seq<Point>, k: nat)
    requires k <= |p|
    ensures Rotated(Rotated(p, k), |p| - k) == p
  {
    RotatedTwice(p, k, |p| - k);
    assert Rotated(p, |p|) == p;
  }

  lemma ReversedAppend(p: seq<Point>, q: seq<Point>)
    ensures Reversed(p + q) == Reversed(q) + Reversed(p)
  {}

  lemma ReversedRotated(p: seq<Point>, k: nat)
    requires k <= |p|
    ensures Reversed(Rotated(p, k)) == Rotated(Reversed(p), |p| - k)
  {
    var front, back := p[..k], p[k..];
    assert p == front + back;
    ReversedAppend(front, back);
    ReversedAppend(back, front);
  }

  lemma ReversedTwice(p: seq<Point>)
    ensures Reversed(Reversed(p)) == p
  {}

  lemma RotationTransitive(p: seq<Point>, q: seq<Point>, r: seq<Point>)
    requires IsRotation(p, q) && IsRotation(q, r)
    ensures IsRotation(p, r)
  {
    var a :| 0 <= a <= |p| && q == Rotated(p, a);
    var b :| 0 <= b <= |q| && r == Rotated(q, b);
    RotatedTwice(p, a, b);
  }

  lemma RotationSymmetric(p: seq<Point>, q: seq<Point>)
    requires IsRotation(p, q)
    ensures IsRotation(q, p)
  {
    var k :| 0 <= k <= |p| && q == Rotated(p, k);
    RotatedBack(p, k);
    RotationCounted(q, |p| - k);
  }

  lemma RotationOfReversed(p: seq<Point>, q: seq<Point>)
    requires IsRotation(p, q)
    ensures IsRotation(Reversed(p), Reversed(q))
  {
    var k :| 0 <= k <= |p| && q == Rotated(p, k);
    ReversedRotated(p, k);
    RotationCounted(Reversed(p), |p| - k);
  }

  lemma OutlineReflexive(p: seq<Point>)
    ensures SameOutline(p, p) && SameOutline(p, Reversed(p))
  {
    assert Rotated(p, 0) == p && Rotated(Reversed(p), 0) == Reversed(p);
  }

  lemma OutlineSymmetric(p: seq<Point>, q: seq<Point>)
    requires SameOutline(p, q)
    ensures SameOutline(q, p)
  {
    if IsRotation(p, q) {
      RotationSymmetric(p, q);
    } else {
      RotationSymmetric(Reversed(p), q);
      RotationOfReversed(q, Reversed(p));
      ReversedTwice(p);
    }
  }

  lemma OutlineTransitive(p: seq<Point>, q: seq<Point>, r: seq<Point>)
    requires SameOutline(p, q) && SameOutline(q, r)
    ensures SameOutline(p, r)
  {
    var start := if IsRotation(p, q) then p else Reversed(p);
    if IsRotation(q, r) {
      RotationTransitive(start, q, r);
    } else {
      RotationOfReversed(start, q);
      RotationTransitive(Reversed(start), Reversed(q), r);
      ReversedTwice(p);
    }
  }

  // ----- The canonical polygon

  function Rotations(p: seq<Point>): (r: seq<seq<Point>>)
    ensures forall q :: q in r <==> p != [] && IsRotation(p, q)
  {
    var r := seq(|p|, k requires 0 <= k < |p| => Rotated(p, k));
    assert forall q :: q in r <==> p != [] && IsRotation(p, q) by {
      forall q ensures q in r <==> p != [] && IsRotation(p, q) {
        RotationsAre(p, r, q);
      }
    }
    r
  }

  lemma RotationsAre(p: seq<Point>, r: seq<seq<Point>>, q: seq<Point>)
    requires |r| == |p| && forall k :: 0 <= k < |p| ==> r[k] == Rotated(p, k)
    ensures q in r <==> p != [] && IsRotation(p, q)
  {
    if p != [] && IsRotation(p, q) {
      var k :| 0 <= k <= |p| && q == Rotated(p, k);
      assert Rotated(p, |p|) == Rotated(p, 0);
      assert q == r[if k == |p| then 0 else k];
    }
  }

  /** Python's min over a non-empty list. */
  function Least(lists: seq<seq<Point>>): (least: seq<Point>)
    requires lists != []
    ensures least in lists && forall q <- lists :: PairsLeq(least, q)
  {
    PairOrder();
    if |lists| == 1 then lists[0]
    else
      var rest := Least(lists[1..]);
      assert lists == [lists[0]] + lists[1..];
      if PairsLeq(lists[0], rest) then lists[0] else rest
  }

  function CanonicalPolygon(points: seq<Point>): (r: seq<Point>)
    ensures r == [] <==> points == []
    ensures SameOutline(points, r)
    ensures forall q | SameOutline(points, q) :: PairsLeq(r, q)
  {
    if points == [] then
      OutlineReflexive(points);
      []
    else
      var all := Rotations(points) + Rotations(Reversed(points));
      assert Rotated(points, 0) in Rotations(points);
      Least(all)
  }

  /** Equal canonical polygons mean the same outline, and only that. */
  lemma CanonicalDecidesOutline(p: seq<Point>, q: seq<Point>)
    ensures CanonicalPolygon(p) == CanonicalPolygon(q) <==> SameOutline(p, q)
  {
    var a, b := CanonicalPolygon(p), CanonicalPolygon(q);
    if a == b {
      OutlineSymmetric(q, b);
      OutlineTransitive(p, a, q);
    }
    if SameOutline(p, q) {
      OutlineTransitive(p, q, b);
      OutlineSymmetric(p, q);
      OutlineTransitive(q, p, a);
      PairOrder();
    }
  }

  lemma CanonicalIsIdempotent(p: seq<Point>)
    ensures CanonicalPolygon(CanonicalPolygon(p)) == CanonicalPolygon(p)
  {
    CanonicalDecidesOutline(p, CanonicalPolygon(p));
  }
}
