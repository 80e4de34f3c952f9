/**
  intersect_dof_domains of src/drc_agent/repair_kernel/executable.py: unions of integer intervals, clipped to
  their domains, snapped to the least common grid, intersected and merged.
 */
module DofDomains {
  import opened Basics
  import opened Orders
  import opened Divisibility
  import opened IntervalUnions

  /** The part of RepairDOF that is used; its schema demands only domainMin <= domainMax. */
  datatype Dof = Dof(domainMin: int, domainMax: int, allowed: seq<Interval>, grid: int)

  /** A division by a zero grid raises. */
  datatype Outcome = Domain(intervals: seq<Interval>, grid: nat) | ZeroDivision

  // ----- Meaning

  ghost predicate Allows(dof: Dof, x: int) {
    dof.domainMin <= x <= dof.domainMax && In(dof.allowed, x)
  }

  ghost predicate AllAllow(dofs: seq<Dof>, x: int) {
    forall i :: 0 <= i < |dofs| ==> Allows(dofs[i], x)
  }

  /** x is on every domain's own manufacturing grid. */
  ghost predicate OnEveryGrid(dofs: seq<Dof>, x: int) {
    forall i :: 0 <= i < |dofs| ==> Divides(dofs[i].grid, x)
  }

  function Grids(dofs: seq<Dof>): seq<int> { seq(|dofs|, i requires 0 <= i < |dofs| => dofs[i].grid) }

  /** The points of a grid, as a set that only says how they are spaced until Is is asked for. */
  ghost predicate Is(on: Points, grid: int, x: int)
    requires grid > 0
  {
    on(x) <==> x % grid == 0
  }

  ghost predicate PointsOf(on: Points, grid: int) {
    Spaced(grid, on) && forall x {:trigger Is(on, grid, x)} :: Is(on, grid, x)
  }

  ghost predicate ExactFor(on: Points, dofs: seq<Dof>, intervals: seq<Interval>) {
    forall x :: on(x) ==> (In(intervals, x) <==> dofs != [] && AllAllow(dofs, x))
  }

  /** Exact and canonical on the common grid; or a zero grid, met by the first interval of the first domain. */
  ghost predicate IsIntersection(dofs: seq<Dof>, outcome: Outcome) {
    var grid := Lcm(Grids(dofs));
    match outcome
    case ZeroDivision => grid == 0 && dofs != [] && dofs[0].allowed != []
    case Domain(intervals, g) =>
      && g == grid
      && (grid == 0 ==> intervals == [] && dofs != [] && dofs[0].allowed == [])
      && (grid > 0 ==> CanonicalOnGrid(grid, intervals) && ExactOnGrid(grid, dofs, intervals))
  }

  /** Grid-aligned, non-empty, increasing, and not even adjacent on the grid. */
  ghost predicate CanonicalOnGrid(grid: int, xs: seq<Interval>)
    requires grid > 0
  {
    && (forall i :: 0 <= i < |xs| ==> xs[i].0 % grid == 0 && xs[i].1 % grid == 0 && xs[i].0 <= xs[i].1)
    && (forall i :: 0 <= i < |xs| - 1 ==> xs[i].1 + grid < xs[i + 1].0)
  }

  /** A grid point is in the union exactly when every domain allows it. */
  ghost predicate ExactOnGrid(grid: int, dofs: seq<Dof>, intervals: seq<Interval>)
    requires grid > 0
  {
    forall x {:trigger In(intervals, x)} :: x % grid == 0 ==> (In(intervals, x) <==> dofs != [] && AllAllow(dofs, x))
  }

  // ----- The grid

  lemma Multiple(k: int, grid: int)
    requires grid > 0
    ensures k * grid % grid == 0
  {
    DividesBy(grid, k * grid, k);
    DividesIsRemainder(grid, k * grid);
  }

  /** Distinct grid points are at least one grid step apart. */
  lemma GridStep(grid: int, x: int, y: int)
    requires grid > 0 && x % grid == 0 && y % grid == 0 && x < y
    ensures x + grid <= y
  {
    assert x == x / grid * grid && y == y / grid * grid;
    var d := y / grid - x / grid;
    assert y - x == grid * d;
    NoSmallMultiple(grid, d);
  }

  lemma NextMultiple(grid: int, x: int)
    requires grid > 0 && x % grid == 0
    ensures (x + grid) % grid == 0
  {
    assert x == x / grid * grid;
    assert x + grid == (x / grid + 1) * grid;
    Multiple(x / grid + 1, grid);
  }

  lemma GridPoints(grid: int) returns (on: Points)
    requires grid > 0
    ensures PointsOf(on, grid)
  {
    on := x => x % grid == 0;
    forall x, y ensures Apart(grid, on, x, y) {
      if on(x) && on(y) && x < y {
        GridStep(grid, x, y);
      }
    }
    forall x ensures NextOn(grid, on, x) {
      if on(x) {
        NextMultiple(grid, x);
      }
    }
  }

  function SnapUp(low: int, grid: int): int
    requires grid > 0
  {
    -(-low / grid) * grid
  }

  function SnapDown(high: int, grid: int): int
    requires grid > 0
  {
    high / grid * grid
  }

  /** Snapping an end inwards loses no grid point, negative coordinates included. */
  lemma SnapDownKeeps(high: int, grid: int, on: Points, x: int)
    requires grid > 0 && PointsOf(on, grid)
    ensures on(SnapDown(high, grid))
    ensures on(x) ==> (x <= high <==> x <= SnapDown(high, grid))
  {
    var s := SnapDown(high, grid);
    Multiple(high / grid, grid);
    assert Is(on, grid, s) && Is(on, grid, x);
    assert high == s + high % grid;
    if on(x) && s < x {
      GridStep(grid, s, x);
    }
  }

  lemma SnapUpKeeps(low: int, grid: int, on: Points, x: int)
    requires grid > 0 && PointsOf(on, grid)
    ensures on(SnapUp(low, grid))
    ensures on(x) ==> (low <= x <==> SnapUp(low, grid) <= x)
  {
    var s := SnapUp(low, grid);
    Multiple(-(-low / grid), grid);
    assert Is(on, grid, s) && Is(on, grid, x);
    assert -low == -s + -low % grid;
    if on(x) && x < s {
      GridStep(grid, x, s);
    }
  }

  // ----- Clip and snap

  ghost predicate ClippedSoFar(on: Points, dof: Dof, i: nat, intervals: seq<Interval>)
    requires i <= |dof.allowed|
  {
    && AllSnapped(on, intervals)
    && forall x :: on(x) ==> (In(intervals, x) <==> dof.domainMin <= x <= dof.domainMax && In(dof.allowed[..i], x))
  }

  function ClipStep(dof: Dof, grid: nat, interval: Interval, intervals: seq<Interval>): seq<Interval>
    requires grid > 0
  {
    var low, high := Max(interval.0, dof.domainMin), Min(interval.1, dof.domainMax);
    var low, high := SnapUp(low, grid), SnapDown(high, grid);
    if low <= high then intervals + [(low, high)] else intervals
  }

  lemma ClipRound(on: Points, dof: Dof, grid: nat, i: nat, intervals: seq<Interval>)
    requires grid > 0 && PointsOf(on, grid) && i < |dof.allowed| && ClippedSoFar(on, dof, i, intervals)
    ensures ClippedSoFar(on, dof, i + 1, ClipStep(dof, grid, dof.allowed[i], intervals))
  {
    var l, h := Max(dof.allowed[i].0, dof.domainMin), Min(dof.allowed[i].1, dof.domainMax);
    var after := ClipStep(dof, grid, dof.allowed[i], intervals);
    SnapUpKeeps(l, grid, on, 0);
    SnapDownKeeps(h, grid, on, 0);
    assert dof.allowed[..i + 1] == dof.allowed[..i] + [dof.allowed[i]];
    forall x | on(x)
      ensures In(after, x) <==> dof.domainMin <= x <= dof.domainMax && In(dof.allowed[..i + 1], x)
    {
      SnapUpKeeps(l, grid, on, x);
      SnapDownKeeps(h, grid, on, x);
      InSnoc(dof.allowed[..i], dof.allowed[i], x);
      InSnoc(intervals, (SnapUp(l, grid), SnapDown(h, grid)), x);
    }
  }

  method ClipAndSnap(dof: Dof, grid: nat, ghost on: Points) returns (outcome: Outcome)
    requires grid > 0 ==> PointsOf(on, grid)
    ensures outcome.ZeroDivision? <==> grid == 0 && dof.allowed != []
    ensures grid == 0 && outcome.Domain? ==> outcome.intervals == []
    ensures grid > 0 ==> AllSnapped(on, outcome.intervals)
                         && forall x :: on(x) ==> (In(outcome.intervals, x) <==> Allows(dof, x))
  {
    var intervals: seq<Interval> := [];
    for i := 0 to |dof.allowed|
      invariant grid == 0 ==> i == 0 && intervals == []
      invariant grid > 0 ==> ClippedSoFar(on, dof, i, intervals)
    {
      if grid == 0 {
        return ZeroDivision;
      }
      ClipRound(on, dof, grid, i, intervals);
      var (low, high) := dof.allowed[i];
      low, high := Max(low, dof.domainMin), Min(high, dof.domainMax);
      low, high := SnapUp(low, grid), SnapDown(high, grid);
      if low <= high {
        intervals := intervals + [(low, high)];
      }
    }
    assert dof.allowed[..|dof.allowed|] == dof.allowed;
    outcome := Domain(intervals, grid);
  }

  // ----- The whole function

  /** The points all of the first i domains allow. */
  ghost predicate Narrowed(on: Points, dofs: seq<Dof>, i: nat, grid: nat, intersection: seq<Interval>)
    requires i <= |dofs|
  {
    Canonical(grid, on, intersection) && forall x :: on(x) ==> (In(intersection, x) <==> AllAllow(dofs[..i], x))
  }

  lemma AllAllowSnoc(dofs: seq<Dof>, i: nat, x: int)
    requires i < |dofs|
    ensures AllAllow(dofs[..i + 1], x) <==> AllAllow(dofs[..i], x) && Allows(dofs[i], x)
  {
    var more := dofs[..i + 1];
    assert more[i] == dofs[i] && forall k | 0 <= k < i :: more[k] == dofs[..i][k];
  }

  lemma NarrowStep(on: Points, dofs: seq<Dof>, i: nat, grid: nat, intersection: seq<Interval>, own: seq<Interval>,
                   merged: seq<Interval>)
    requires i < |dofs| && (i > 0 ==> Narrowed(on, dofs, i, grid, intersection))
    requires forall x :: on(x) ==> (In(own, x) <==> Allows(dofs[i], x))
    requires Canonical(grid, on, merged) && SamePoints(on, merged, if i > 0 then Meet(intersection, own) else own)
    ensures Narrowed(on, dofs, i + 1, grid, merged)
  {
    forall x | on(x) ensures In(merged, x) <==> AllAllow(dofs[..i + 1], x) {
      MeetIn(intersection, own, x);
      AllAllowSnoc(dofs, i, x);
    }
  }

  /** Nothing is left already: no later domain can bring a point back. */
  lemma EmptyStaysEmpty(on: Points, dofs: seq<Dof>, i: nat, grid: nat)
    requires i <= |dofs| && Narrowed(on, dofs, i, grid, [])
    ensures ExactFor(on, dofs, [])
  {
    forall x | on(x) ensures !AllAllow(dofs, x) {
      assert !In([], x);
      var k :| 0 <= k < i && !Allows(dofs[..i][k], x);
      assert !Allows(dofs[k], x);
    }
  }

  /** Between the abstract set of points and the remainder test. */
  lemma PointsAreMultiples(on: Points, dofs: seq<Dof>, grid: nat, intervals: seq<Interval>)
    requires grid > 0 && PointsOf(on, grid)
    ensures Canonical(grid, on, intervals) <==> CanonicalOnGrid(grid, intervals)
    ensures ExactFor(on, dofs, intervals) <==> ExactOnGrid(grid, dofs, intervals)
  {
    forall i | 0 <= i < |intervals|
      ensures on(intervals[i].0) == (intervals[i].0 % grid == 0) && on(intervals[i].1) == (intervals[i].1 % grid == 0)
    {
      assert Is(on, grid, intervals[i].0) && Is(on, grid, intervals[i].1);
    }
    if ExactFor(on, dofs, intervals) {
      forall x | x % grid == 0 ensures In(intervals, x) <==> dofs != [] && AllAllow(dofs, x) {
        assert Is(on, grid, x);
      }
    }
    if ExactOnGrid(grid, dofs, intervals) {
      forall x | on(x) ensures In(intervals, x) <==> dofs != [] && AllAllow(dofs, x) {
        assert Is(on, grid, x);
      }
    }
    if CanonicalOnGrid(grid, intervals) {
      forall i | 0 <= i < |intervals| ensures Snapped(on, intervals[i]) {}
    } else if Canonical(grid, on, intervals) {
      forall i | 0 <= i < |intervals| ensures intervals[i].0 % grid == 0 && intervals[i].1 % grid == 0 {
        assert Snapped(on, intervals[i]);
      }
    }
  }

  method IntersectDofDomains(dofs: seq<Dof>) returns (outcome: Outcome)
    ensures IsIntersection(dofs, outcome)
  {
    if dofs == [] {
      ghost var on := GridPoints(1);
      PointsAreMultiples(on, dofs, 1, []);
      return Domain([], 1);
    }
    var grid := Lcm(Grids(dofs));
    ghost var on: Points := x => true;
    if grid > 0 {
      on := GridPoints(grid);
    }
    var intersection: seq<Interval> := [];
    for i := 0 to |dofs|
      invariant grid == 0 ==> i == 0
      invariant grid > 0 && i > 0 ==> Narrowed(on, dofs, i, grid, intersection)
    {
      var clipped := ClipAndSnap(dofs[i], grid, on);
      if clipped.ZeroDivision? {
        return ZeroDivision;
      }
      if grid == 0 {
        // nothing to snap in the first domain: the intersection is empty and the loop breaks
        return Domain([], grid);
      }
      var intervals := clipped.intervals;
      if i > 0 {
        MeetSnapped(on, intersection, intervals);
        intervals := Meet(intersection, intervals);
      }
      var merged := SortAndMerge(intervals, grid, on);
      NarrowStep(on, dofs, i, grid, intersection, clipped.intervals, merged);
      intersection := merged;
      if intersection == [] {
        EmptyStaysEmpty(on, dofs, i + 1, grid);
        PointsAreMultiples(on, dofs, grid, []);
        return Domain([], grid);
      }
    }
    assert dofs[..|dofs|] == dofs;
    PointsAreMultiples(on, dofs, grid, intersection);
    outcome := Domain(intersection, grid);
  }

  // ----- The result depends only on what the domains allow

  /** An integer is on the returned grid exactly when it is on every domain's own grid. */
  lemma GridIsCommonGrid(dofs: seq<Dof>, x: int)
    ensures Divides(Lcm(Grids(dofs)), x) <==> OnEveryGrid(dofs, x)
  {
    LcmDivides(Grids(dofs), x);
    assert forall i | 0 <= i < |dofs| :: Grids(dofs)[i] == dofs[i].grid;
  }

  /** Two lists of domains, possibly in another order or written with other intervals, that mean the same. */
  ghost predicate SameMeaning(dofs: seq<Dof>, others: seq<Dof>) {
    && dofs != [] && others != []
    && forall x :: (AllAllow(dofs, x) <==> AllAllow(others, x)) && (OnEveryGrid(dofs, x) <==> OnEveryGrid(others, x))
  }

  lemma SameMeaningSameGrid(dofs: seq<Dof>, others: seq<Dof>)
    requires SameMeaning(dofs, others)
    ensures Lcm(Grids(dofs)) == Lcm(Grids(others))
  {
    forall x ensures Divides(Lcm(Grids(dofs)), x) <==> Divides(Lcm(Grids(others)), x) {
      GridIsCommonGrid(dofs, x);
      GridIsCommonGrid(others, x);
    }
    MultiplesDetermine(Lcm(Grids(dofs)), Lcm(Grids(others)));
  }

  /** Without a zero grid, the canonical form is determined by the points that all domains allow. */
  lemma PositiveGridSameResult(dofs: seq<Dof>, others: seq<Dof>, outcome: Outcome, other: Outcome)
    requires SameMeaning(dofs, others) && IsIntersection(dofs, outcome) && IsIntersection(others, other)
    requires 0 !in Grids(dofs)
    ensures outcome == other
  {
    LcmZero(Grids(dofs));
    SameMeaningSameGrid(dofs, others);
    var grid := Lcm(Grids(dofs));
    var on := GridPoints(grid);
    PointsAreMultiples(on, dofs, grid, outcome.intervals);
    PointsAreMultiples(on, others, grid, other.intervals);
    CanonicalUnique(grid, on, outcome.intervals, other.intervals);
  }

  /** Domains that mean the same give the same result unless a grid is zero and only one of the first lists is empty. */
  lemma SameResultIff(dofs: seq<Dof>, others: seq<Dof>, outcome: Outcome, other: Outcome)
    requires SameMeaning(dofs, others) && IsIntersection(dofs, outcome) && IsIntersection(others, other)
    ensures outcome == other <==> 0 !in Grids(dofs) || (dofs[0].allowed == [] <==> others[0].allowed == [])
  {
    LcmZero(Grids(dofs));
    SameMeaningSameGrid(dofs, others);
    if 0 !in Grids(dofs) {
      PositiveGridSameResult(dofs, others, outcome, other);
    }
  }

  /** Permuting the domains does not change what they mean. */
  lemma PermutedSameMeaning(dofs: seq<Dof>, others: seq<Dof>)
    requires multiset(dofs) == multiset(others) && dofs != []
    ensures SameMeaning(dofs, others)
  {
    SameElements(dofs, others);
    forall x ensures AllAllow(dofs, x) <==> AllAllow(others, x)
      ensures OnEveryGrid(dofs, x) <==> OnEveryGrid(others, x)
    {
      PermutedOneWay(dofs, others, x);
      PermutedOneWay(others, dofs, x);
    }
  }

  lemma PermutedOneWay(dofs: seq<Dof>, others: seq<Dof>, x: int)
    requires forall d :: d in others ==> d in dofs
    ensures AllAllow(dofs, x) ==> AllAllow(others, x)
    ensures OnEveryGrid(dofs, x) ==> OnEveryGrid(others, x)
  {
    forall i | 0 <= i < |others| ensures exists j :: 0 <= j < |dofs| && dofs[j] == others[i] {
      assert others[i] in others;
    }
  }

  // ----- Exactly when the order of the domains does not matter

  ghost predicate SameResult(dofs: seq<Dof>, others: seq<Dof>) {
    forall outcome, other :: IsIntersection(dofs, outcome) && IsIntersection(others, other) ==> outcome == other
  }

  ghost predicate OrderDoesNotMatter(dofs: seq<Dof>) {
    forall others {:trigger multiset(others)} :: multiset(others) == multiset(dofs) ==> SameResult(dofs, others)
  }

  /** The lists of allowed intervals are all empty, or none of them is. */
  predicate Uniform(dofs: seq<Dof>) {
    (forall d <- dofs :: d.allowed == []) || (forall d <- dofs :: d.allowed != [])
  }

  lemma OrderDoesNotMatterIff(dofs: seq<Dof>)
    requires dofs != []
    ensures OrderDoesNotMatter(dofs) <==> 0 !in Grids(dofs) || Uniform(dofs)
  {
    if 0 !in Grids(dofs) || Uniform(dofs) {
      forall others | multiset(others) == multiset(dofs) ensures SameResult(dofs, others) {
        PermutedSameMeaning(dofs, others);
        SameElements(dofs, others);
        assert dofs[0] in dofs && others[0] in others;
        forall outcome, other | IsIntersection(dofs, outcome) && IsIntersection(others, other)
          ensures outcome == other
        {
          SameResultIff(dofs, others, outcome, other);
        }
      }
    } else {
      var j := DifferentList(dofs);
      Swapped(dofs, j);
      var others := dofs[0 := dofs[j]][j := dofs[0]];
      ZeroGridOutcome(dofs);
      LcmZero(Grids(dofs));
      PermutedSameMeaning(dofs, others);
      SameMeaningSameGrid(dofs, others);
      LcmZero(Grids(others));
      ZeroGridOutcome(others);
      assert multiset(others) == multiset(dofs) && !SameResult(dofs, others);
    }
  }

  lemma DifferentList(dofs: seq<Dof>) returns (j: nat)
    requires dofs != [] && !Uniform(dofs)
    ensures 0 < j < |dofs| && (dofs[0].allowed == [] <==> dofs[j].allowed != [])
  {
    assert dofs[0] in dofs;
    var d :| d in dofs && (dofs[0].allowed == [] <==> d.allowed != []);
    j :| 0 <= j < |dofs| && dofs[j] == d;
  }

  lemma Swapped(dofs: seq<Dof>, j: nat)
    requires 0 < j < |dofs|
    ensures multiset(dofs[0 := dofs[j]][j := dofs[0]]) == multiset(dofs)
  {}

  /** What a zero grid leads to: the first domain decides. */
  function ZeroOutcome(dofs: seq<Dof>): Outcome
    requires dofs != []
  {
    if dofs[0].allowed == [] then Domain([], 0) else ZeroDivision
  }

  lemma ZeroGridOutcome(dofs: seq<Dof>)
    requires dofs != [] && 0 in Grids(dofs)
    ensures IsIntersection(dofs, ZeroOutcome(dofs))
  {
    LcmZero(Grids(dofs));
  }

  /** With a zero grid the order does matter: one order returns an empty domain, the other divides by zero. */
  lemma ZeroGridDependsOnOrder(outcome: Outcome, other: Outcome)
    requires IsIntersection([Dof(0, 8, [], 4), Dof(0, 8, [(0, 8)], 0)], outcome)
    requires IsIntersection([Dof(0, 8, [(0, 8)], 0), Dof(0, 8, [], 4)], other)
    ensures outcome == Domain([], 0) && other == ZeroDivision
  {
    var dofs, others := [Dof(0, 8, [], 4), Dof(0, 8, [(0, 8)], 0)], [Dof(0, 8, [(0, 8)], 0), Dof(0, 8, [], 4)];
    assert Grids(dofs)[1] == 0 && Grids(others)[0] == 0;
    LcmZero(Grids(dofs));
    LcmZero(Grids(others));
  }
}
