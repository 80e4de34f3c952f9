/**
  The level-3 loop of CandidateChecker.validate in src/drc_agent/actions/candidates.py: manufacturing
  grid, polygon legality, die boundary and target layer of every edit, first failure reported.
 */
module CandidateGeometry {
  import opened Basics
  import Boxes
  import opened Segments
  import opened Polygons

  /** An edit's after-geometry and target layer; an absent geometry or layer is the empty one. */
  datatype Edit = Edit(geometryAfter: seq<seq<Point>>, layerAfter: string)

  /** DesignState; its schema demands a grid of at least 1. */
  datatype Design = Design(grid: int, die: Option<Boxes.Box>, legalLayers: set<string>) {
    predicate Valid() { grid >= 1 }
  }

  datatype Issue = OffManufacturingGrid | InvalidPolygon | OutsideDie | IllegalLayer

  // ----- What each check promises

  predicate OnGrid(polygon: seq<Point>, design: Design)
    requires design.Valid()
  {
    forall p <- polygon :: p.x % design.grid == 0 && p.y % design.grid == 0
  }

  /** At least three corners, non-zero area, and a boundary that never meets itself. */
  ghost predicate ProperPolygon(polygon: seq<Point>) {
    |polygon| >= 3 && PolygonArea2(polygon) != 0 && SimpleClosedCurve(polygon)
  }

  predicate Inside(q: RealPoint, box: Boxes.Box) {
    box.x1 as real <= q.x <= box.x2 as real && box.y1 as real <= q.y <= box.y2 as real
  }

  /** Every real point of every edge lies in the die. */
  ghost predicate BoundaryInsideDie(polygon: seq<Point>, design: Design) {
    design.die.Some? ==>
      forall i: nat, s: real :: i < |polygon| && Unit(s) ==> Inside(CurvePoint(polygon, i, s), design.die.value)
  }

  ghost predicate LegalPolygon(polygon: seq<Point>, design: Design)
    requires design.Valid()
  {
    OnGrid(polygon, design) && ProperPolygon(polygon) && BoundaryInsideDie(polygon, design)
  }

  predicate LegalLayer(edit: Edit, design: Design) {
    edit.layerAfter == "" || design.legalLayers == {} || edit.layerAfter in design.legalLayers
  }

  ghost predicate LegalEdit(edit: Edit, design: Design)
    requires design.Valid()
  {
    (forall polygon <- edit.geometryAfter :: LegalPolygon(polygon, design)) && LegalLayer(edit, design)
  }

  /** The issue belongs to this polygon: the checks that come before it in the code all passed. */
  ghost predicate ExplainsPolygon(issue: Issue, polygon: seq<Point>, design: Design)
    requires design.Valid()
  {
    match issue
    case OffManufacturingGrid => !OnGrid(polygon, design)
    case InvalidPolygon => OnGrid(polygon, design) && !ProperPolygon(polygon)
    case OutsideDie => OnGrid(polygon, design) && ProperPolygon(polygon) && !BoundaryInsideDie(polygon, design)
    case IllegalLayer => false
  }

  /** The issue belongs to this edit: its first illegal polygon, or its layer once all polygons are legal. */
  ghost predicate ExplainsEdit(issue: Issue, edit: Edit, design: Design)
    requires design.Valid()
  {
    if issue == IllegalLayer then
      (forall polygon <- edit.geometryAfter :: LegalPolygon(polygon, design)) && !LegalLayer(edit, design)
    else
      exists k: nat :: k < |edit.geometryAfter| && ExplainsPolygon(issue, edit.geometryAfter[k], design)
        && forall j: nat :: j < k ==> LegalPolygon(edit.geometryAfter[j], design)
  }

  // ----- The vertex test for the die boundary

  predicate VerticesInside(polygon: seq<Point>, box: Boxes.Box) {
    forall p <- polygon :: box.x1 <= p.x <= box.x2 && box.y1 <= p.y <= box.y2
  }

  lemma BetweenReals(a: int, b: int, lo: int, hi: int, s: real)
    requires lo <= a <= hi && lo <= b <= hi && Unit(s)
    ensures lo as real <= a as real + s * (b - a) as real <= hi as real
  {
    Convex(a as real, (b - a) as real, lo as real, hi as real, s);
  }

  lemma Convex(a: real, u: real, lo: real, hi: real, s: real)
    requires lo <= a <= hi && lo <= a + u <= hi && Unit(s)
    ensures lo <= a + s * u <= hi
  {
    ScaledDown(s, u);
    StepInside(a, u, lo, hi, s * u);
  }

  lemma StepInside(a: real, u: real, lo: real, hi: real, step: real)
    requires lo <= a <= hi && lo <= a + u <= hi && if u >= 0.0 then 0.0 <= step <= u else u <= step <= 0.0
    ensures lo <= a + step <= hi
  {}

  /** The code looks at the vertices only; by convexity that decides every point of every edge. */
  lemma VerticesDecideBoundary(polygon: seq<Point>, design: Design)
    requires design.die.Some?
    ensures VerticesInside(polygon, design.die.value) <==> BoundaryInsideDie(polygon, design)
  {
    var box := design.die.value;
    if VerticesInside(polygon, box) {
      forall i: nat, s: real | i < |polygon| && Unit(s)
        ensures Inside(CurvePoint(polygon, i, s), box)
      {
        var a, b := polygon[i], polygon[Next(i, |polygon|)];
        BetweenReals(a.x, b.x, box.x1, box.x2, s);
        BetweenReals(a.y, b.y, box.y1, box.y2, s);
      }
    }
    if BoundaryInsideDie(polygon, design) {
      forall p | p in polygon
        ensures box.x1 <= p.x <= box.x2 && box.y1 <= p.y <= box.y2
      {
        var i: nat :| i < |polygon| && polygon[i] == p;
        assert Unit(0.0) && CurvePoint(polygon, i, 0.0) == ToReal(p);
      }
    }
  }

  // ----- The set-size test for repeated vertices

  lemma {:induction false} SetSizeDecidesDistinct(p: seq<Point>)
    ensures |set q | q in p| <= |p|
    ensures |set q | q in p| == |p| <==> Distinct(p)
  {
    if p != [] {
      var rest := p[..|p| - 1];
      var last := p[|p| - 1];
      SetSizeDecidesDistinct(rest);
      assert p == rest + [last];
      if last in rest {
        assert (set q | q in p) == (set q | q in rest);
      } else {
        assert (set q | q in p) == (set q | q in rest) + {last};
      }
      assert Distinct(p) <==> Distinct(rest) && last !in rest;
    } else {
      assert (set q | q in p) == {};
    }
  }

  // ----- The code

  lemma EdgesIntersectIsExact(p: seq<Point>, i: nat, j: nat)
    requires i < |p| && j < |p|
    ensures EdgesIntersect(p, i, j) <==> EdgesMeet(p, i, j)
    ensures EdgesMeet(p, i, j) ==> EdgesMeet(p, j, i)
  {
    SegmentsIntersectIsExact(p[i], p[Next(i, |p|)], p[j], p[Next(j, |p|)]);
    ContainsGivesMeet(p[j], p[Next(j, |p|)], p[i], p[Next(i, |p|)]);
  }

  /** Edge i meets none of the non-neighbouring edges i + 1, ..., bound - 1. */
  ghost predicate RowClear(p: seq<Point>, i: nat, bound: nat)
    requires i < |p| && bound <= |p|
  {
    forall j: nat :: i < j < bound && !Adjacent(i, j, |p|) ==> !EdgesMeet(p, i, j)
  }

  lemma ClearRowsSuffice(p: seq<Point>)
    requires Distinct(p) && forall i: nat :: i < |p| ==> RowClear(p, i, |p|)
    ensures ApartExceptNeighbours(p)
  {
    forall i: nat, j: nat | i < |p| && j < |p| && !Adjacent(i, j, |p|)
      ensures !EdgesMeet(p, i, j)
    {
      assert RowClear(p, i, |p|) && RowClear(p, j, |p|);
      EdgesIntersectIsExact(p, i, j);
    }
  }

  /** _polygon_is_simple: decides distinct vertices and disjoint non-neighbouring edges over real points. */
  method PolygonIsSimple(points: seq<Point>) returns (simple: bool)
    ensures simple <==> ApartExceptNeighbours(points)
  {
    SetSizeDecidesDistinct(points);
    if |set q | q in points| != |points| {
      return false;
    }
    var count := |points|;
    for left := 0 to count
      invariant forall i: nat :: i < left ==> RowClear(points, i, count)
    {
      for right := left + 1 to count
        invariant RowClear(points, left, right)
      {
        if right == Next(left, count) {
          continue;
        }
        if left == 0 && right == count - 1 {
          continue;
        }
        EdgesIntersectIsExact(points, left, right);
        if EdgesIntersect(points, left, right) {
          return false;
        }
      }
    }
    ClearRowsSuffice(points);
    return true;
  }

  method CheckPolygon(polygon: seq<Point>, design: Design) returns (issue: Option<Issue>)
    requires design.Valid()
    ensures issue.None? <==> LegalPolygon(polygon, design)
    ensures issue.Some? ==> ExplainsPolygon(issue.value, polygon, design)
  {
    if exists p <- polygon :: p.x % design.grid != 0 || p.y % design.grid != 0 {
      return Some(OffManufacturingGrid);
    }
    if |polygon| < 3 || PolygonArea2(polygon) == 0 {
      return Some(InvalidPolygon);
    }
    AcceptedIffSimple(polygon);
    var simple := PolygonIsSimple(polygon);
    if !simple {
      return Some(InvalidPolygon);
    }
    if design.die.Some? {
      VerticesDecideBoundary(polygon, design);
      if !VerticesInside(polygon, design.die.value) {
        return Some(OutsideDie);
      }
    }
    return None;
  }

  /** The level-3 loop: accepts exactly the legal edits, and otherwise names the first defect. */
  method CheckGeometry(edits: seq<Edit>, design: Design) returns (issue: Option<Issue>)
    requires design.Valid()
    ensures issue.None? <==> forall edit <- edits :: LegalEdit(edit, design)
    ensures issue.Some? ==> exists k: nat :: k < |edits| && ExplainsEdit(issue.value, edits[k], design)
                              && forall j: nat :: j < k ==> LegalEdit(edits[j], design)
  {
    for e := 0 to |edits|
      invariant forall j: nat :: j < e ==> LegalEdit(edits[j], design)
    {
      var edit := edits[e];
      for k := 0 to |edit.geometryAfter|
        invariant forall j: nat :: j < k ==> LegalPolygon(edit.geometryAfter[j], design)
      {
        issue := CheckPolygon(edit.geometryAfter[k], design);
        if issue.Some? {
          assert ExplainsEdit(issue.value, edit, design);
          assert edit in edits && !LegalPolygon(edit.geometryAfter[k], design);
          return;
        }
      }
      if edit.layerAfter != "" && design.legalLayers != {} && edit.layerAfter !in design.legalLayers {
        assert ExplainsEdit(IllegalLayer, edit, design);
        assert edit in edits && !LegalLayer(edit, design);
        return Some(IllegalLayer);
      }
    }
    return None;
  }
}
