/**
  Unions of closed integer intervals read on an evenly spaced set of points, and the canonical form that
  intersect_dof_domains of src/drc_agent/repair_kernel/executable.py returns.
 */
module IntervalUnions {
  import opened Basics
  import opened Orders

  type Interval = (int, int)

  predicate Within(interval: Interval, x: int) { interval.0 <= x <= interval.1 }

  ghost predicate In(intervals: seq<Interval>, x: int) {
    exists i :: 0 <= i < |intervals| && Within(intervals[i], x)
  }

  // ----- Evenly spaced points

  type Points = int -> bool

  ghost predicate Apart(grid: int, on: Points, x: int, y: int) { on(x) && on(y) && x < y ==> x + grid <= y }

  ghost predicate NextOn(grid: int, on: Points, x: int) { on(x) ==> on(x + grid) }

  /** Neighbouring points are exactly one grid step apart. */
  ghost predicate Spaced(grid: int, on: Points) {
    && grid > 0
    && (forall x, y {:trigger Apart(grid, on, x, y)} :: Apart(grid, on, x, y))
    && (forall x {:trigger NextOn(grid, on, x)} :: NextOn(grid, on, x))
  }

  /** The two unions contain the same points. */
  ghost predicate SamePoints(on: Points, xs: seq<Interval>, ys: seq<Interval>) {
    forall x :: on(x) ==> (In(xs, x) <==> In(ys, x))
  }

  ghost predicate Snapped(on: Points, interval: Interval) {
    on(interval.0) && on(interval.1) && interval.0 <= interval.1
  }

  ghost predicate AllSnapped(on: Points, xs: seq<Interval>) {
    forall i :: 0 <= i < |xs| ==> Snapped(on, xs[i])
  }

  /** Ends on points, non-empty, increasing, and not even adjacent on the grid. */
  ghost predicate Canonical(grid: int, on: Points, xs: seq<Interval>) {
    AllSnapped(on, xs) && forall i :: 0 <= i < |xs| - 1 ==> xs[i].1 + grid < xs[i + 1].0
  }

  // ----- Membership

  lemma InConcat(xs: seq<Interval>, ys: seq<Interval>, x: int)
    ensures In(xs + ys, x) <==> In(xs, x) || In(ys, x)
  {
    var all := xs + ys;
    if In(xs, x) {
      var i :| 0 <= i < |xs| && Within(xs[i], x);
      assert Within(all[i], x);
    }
    if In(ys, x) {
      var i :| 0 <= i < |ys| && Within(ys[i], x);
      assert Within(all[|xs| + i], x);
    }
  }

  lemma InSnoc(xs: seq<Interval>, last: Interval, x: int)
    ensures In(xs + [last], x) <==> In(xs, x) || Within(last, x)
  {
    InConcat(xs, [last], x);
    if Within(last, x) {
      assert Within([last][0], x);
    }
  }

  lemma InCons(xs: seq<Interval>, x: int)
    requires xs != []
    ensures In(xs, x) <==> Within(xs[0], x) || In(xs[1..], x)
  {
    assert xs == [xs[0]] + xs[1..];
    InConcat([xs[0]], xs[1..], x);
    if Within(xs[0], x) {
      assert Within([xs[0]][0], x);
    }
  }

  lemma SameElementsIn(xs: seq<Interval>, ys: seq<Interval>, x: int)
    requires forall y :: y in xs <==> y in ys
    ensures In(xs, x) <==> In(ys, x)
  {
    if In(xs, x) {
      var i :| 0 <= i < |xs| && Within(xs[i], x);
      assert xs[i] in xs;
      var j :| 0 <= j < |ys| && ys[j] == xs[i];
    }
    if In(ys, x) {
      var i :| 0 <= i < |ys| && Within(ys[i], x);
      assert ys[i] in ys;
      var j :| 0 <= j < |xs| && xs[j] == ys[i];
    }
  }

  // ----- Pairwise intersection

  function MeetOne(a: Interval, ys: seq<Interval>): seq<Interval> {
    if ys == [] then []
    else
      var c := ys[0];
      var low, high := Max(a.0, c.0), Min(a.1, c.1);
      (if low <= high then [(low, high)] else []) + MeetOne(a, ys[1..])
  }

  /** Every interval of the first union against every interval of the second. */
  function Meet(xs: seq<Interval>, ys: seq<Interval>): seq<Interval> {
    if xs == [] then [] else MeetOne(xs[0], ys) + Meet(xs[1..], ys)
  }

  lemma {:induction false} MeetOneIn(a: Interval, ys: seq<Interval>, x: int)
    ensures In(MeetOne(a, ys), x) <==> Within(a, x) && In(ys, x)
  {
    if ys != [] {
      var c := ys[0];
      var low, high := Max(a.0, c.0), Min(a.1, c.1);
      var head := if low <= high then [(low, high)] else [];
      MeetOneIn(a, ys[1..], x);
      InCons(ys, x);
      InConcat(head, MeetOne(a, ys[1..]), x);
      InSnoc([], (low, high), x);
      assert [] + [(low, high)] == [(low, high)];
    }
  }

  lemma {:induction false} MeetIn(xs: seq<Interval>, ys: seq<Interval>, x: int)
    ensures In(Meet(xs, ys), x) <==> In(xs, x) && In(ys, x)
  {
    if xs != [] {
      MeetIn(xs[1..], ys, x);
      MeetOneIn(xs[0], ys, x);
      InCons(xs, x);
      InConcat(MeetOne(xs[0], ys), Meet(xs[1..], ys), x);
    }
  }

  lemma {:induction false} MeetOneSnapped(on: Points, a: Interval, ys: seq<Interval>)
    requires Snapped(on, a) && AllSnapped(on, ys)
    ensures AllSnapped(on, MeetOne(a, ys))
  {
    if ys != [] {
      assert Snapped(on, ys[0]);
      MeetOneSnapped(on, a, ys[1..]);
    }
  }

  lemma {:induction false} MeetSnapped(on: Points, xs: seq<Interval>, ys: seq<Interval>)
    requires AllSnapped(on, xs) && AllSnapped(on, ys)
    ensures AllSnapped(on, Meet(xs, ys))
  {
    if xs != [] {
      MeetSnapped(on, xs[1..], ys);
      MeetOneSnapped(on, xs[0], ys);
    }
  }

  // ----- Merging

  /** One round of the merge loop: merged[-1] is widened, or a new interval is appended. */
  function MergeStep(grid: int, merged: seq<Interval>, next: Interval): seq<Interval> {
    var n := |merged|;
    if n > 0 && next.0 <= merged[n - 1].1 + grid then
      merged[..n - 1] + [(merged[n - 1].0, Max(next.1, merged[n - 1].1))]
    else merged + [next]
  }

  /** Bridging a gap of at most one grid step adds no point. */
  lemma BridgeAddsNothing(grid: int, on: Points, last: Interval, next: Interval, x: int)
    requires Spaced(grid, on) && Snapped(on, last) && Snapped(on, next) && on(x)
    requires last.0 <= next.0 <= last.1 + grid
    ensures Within((last.0, Max(next.1, last.1)), x) <==> Within(last, x) || Within(next, x)
  {
    assert Apart(grid, on, last.1, x);
  }

  lemma MergeStepIn(grid: int, on: Points, merged: seq<Interval>, next: Interval, x: int)
    requires Spaced(grid, on) && AllSnapped(on, merged) && Snapped(on, next) && on(x)
    requires merged != [] ==> merged[|merged| - 1].0 <= next.0
    ensures In(MergeStep(grid, merged, next), x) <==> In(merged, x) || Within(next, x)
  {
    var n := |merged|;
    if n > 0 && next.0 <= merged[n - 1].1 + grid {
      var init, last := merged[..n - 1], merged[n - 1];
      assert merged == init + [last];
      InSnoc(init, last, x);
      InSnoc(init, (last.0, Max(next.1, last.1)), x);
      BridgeAddsNothing(grid, on, last, next, x);
    } else {
      InSnoc(merged, next, x);
    }
  }

  lemma MergeStepCanonical(grid: int, on: Points, merged: seq<Interval>, next: Interval)
    requires Canonical(grid, on, merged) && Snapped(on, next)
    requires merged != [] ==> merged[|merged| - 1].0 <= next.0
    ensures var after := MergeStep(grid, merged, next);
            Canonical(grid, on, after) && after != [] && after[|after| - 1].0 <= next.0
  {
    if merged != [] {
      assert Snapped(on, merged[|merged| - 1]);
    }
  }

  method SortAndMerge(intervals: seq<Interval>, grid: int, ghost on: Points) returns (merged: seq<Interval>)
    requires Spaced(grid, on) && AllSnapped(on, intervals)
    ensures Canonical(grid, on, merged) && SamePoints(on, merged, intervals)
  {
    var sorted := Sort(PairLeq, intervals);
    SortPermutes(PairLeq, intervals);
    PairOrder();
    SortSorts(PairLeq, intervals);
    forall i | 0 <= i < |sorted| ensures Snapped(on, sorted[i]) {
      assert sorted[i] in sorted;
      var j :| 0 <= j < |intervals| && intervals[j] == sorted[i];
    }
    merged := MergeSorted(sorted, grid, on);
    forall x | on(x) ensures In(merged, x) <==> In(intervals, x) {
      SameElementsIn(sorted, intervals, x);
    }
  }

  ghost predicate MergedSoFar(grid: int, on: Points, sorted: seq<Interval>, i: nat, merged: seq<Interval>)
    requires i <= |sorted|
  {
    && Canonical(grid, on, merged)
    && (merged != [] ==> i > 0 && merged[|merged| - 1].0 <= sorted[i - 1].0)
    && SamePoints(on, merged, sorted[..i])
  }

  lemma MergeRound(grid: int, on: Points, sorted: seq<Interval>, i: nat, merged: seq<Interval>, next: seq<Interval>)
    requires Spaced(grid, on) && AllSnapped(on, sorted) && Sorted(PairLeq, sorted) && i < |sorted|
    requires MergedSoFar(grid, on, sorted, i, merged) && next == MergeStep(grid, merged, sorted[i])
    ensures MergedSoFar(grid, on, sorted, i + 1, next)
  {
    assert Snapped(on, sorted[i]);
    assert i > 0 ==> PairLeq(sorted[i - 1], sorted[i]);
    MergeNext(grid, on, sorted, i, merged);
  }

  lemma MergeNext(grid: int, on: Points, sorted: seq<Interval>, i: nat, merged: seq<Interval>)
    requires Spaced(grid, on) && i < |sorted| && Snapped(on, sorted[i]) && MergedSoFar(grid, on, sorted, i, merged)
    requires i > 0 ==> sorted[i - 1].0 <= sorted[i].0
    ensures MergedSoFar(grid, on, sorted, i + 1, MergeStep(grid, merged, sorted[i]))
  {
    MergeStepCanonical(grid, on, merged, sorted[i]);
    MergeStepSamePoints(grid, on, merged, sorted, i);
  }

  /** One round of the loop: the interval extends the last one or starts a new one. */
  method MergeInto(merged: seq<Interval>, next: Interval, grid: int) returns (r: seq<Interval>)
    ensures r == MergeStep(grid, merged, next)
  {
    var (low, high) := next;
    if merged != [] && low <= merged[|merged| - 1].1 + grid {
      var last := merged[|merged| - 1];
      r := merged[..|merged| - 1] + [(last.0, Max(high, last.1))];
    } else {
      r := merged + [(low, high)];
    }
  }

  method MergeSorted(sorted: seq<Interval>, grid: int, ghost on: Points) returns (merged: seq<Interval>)
    requires Spaced(grid, on) && AllSnapped(on, sorted) && Sorted(PairLeq, sorted)
    ensures Canonical(grid, on, merged) && SamePoints(on, merged, sorted)
  {
    merged := [];
    for i := 0 to |sorted|
      invariant MergedSoFar(grid, on, sorted, i, merged)
    {
      ghost var before := merged;
      merged := MergeInto(merged, sorted[i], grid);
      MergeRound(grid, on, sorted, i, before, merged);
    }
    assert sorted[..|sorted|] == sorted;
  }

  lemma MergeStepSamePoints(grid: int, on: Points, merged: seq<Interval>, sorted: seq<Interval>, i: nat)
    requires Spaced(grid, on) && AllSnapped(on, merged) && i < |sorted| && Snapped(on, sorted[i])
    requires merged != [] ==> merged[|merged| - 1].0 <= sorted[i].0
    requires SamePoints(on, merged, sorted[..i])
    ensures SamePoints(on, MergeStep(grid, merged, sorted[i]), sorted[..i + 1])
  {
    assert sorted[..i + 1] == sorted[..i] + [sorted[i]];
    forall x | on(x) ensures In(MergeStep(grid, merged, sorted[i]), x) <==> In(sorted[..i + 1], x) {
      MergeStepIn(grid, on, merged, sorted[i], x);
      InSnoc(sorted[..i], sorted[i], x);
    }
  }

  // ----- Canonical form

  lemma {:induction false} CanonicalOrder(grid: int, on: Points, xs: seq<Interval>, i: nat, j: nat)
    requires grid > 0 && Canonical(grid, on, xs) && i < j < |xs|
    ensures xs[i].1 + grid < xs[j].0
    decreases j
  {
    if j > i + 1 {
      CanonicalOrder(grid, on, xs, i, j - 1);
      assert Snapped(on, xs[j - 1]);
    }
  }

  lemma CanonicalTail(grid: int, on: Points, xs: seq<Interval>, x: int)
    requires grid > 0 && Canonical(grid, on, xs) && xs != []
    ensures Canonical(grid, on, xs[1..])
    ensures In(xs[1..], x) ==> xs[0].1 + grid < x
    ensures In(xs, x) ==> xs[0].0 <= x
  {
    forall i | 0 <= i < |xs[1..]| ensures Snapped(on, xs[1..][i]) {
      assert Snapped(on, xs[i + 1]);
    }
    assert Snapped(on, xs[0]);
    if In(xs[1..], x) {
      var i :| 0 <= i < |xs[1..]| && Within(xs[1..][i], x);
      CanonicalOrder(grid, on, xs, 0, i + 1);
    }
    InCons(xs, x);
  }

  /** One step past the end of the first interval there is a point, and no interval holds it. */
  lemma GapAfterFirst(grid: int, on: Points, xs: seq<Interval>)
    requires Spaced(grid, on) && Canonical(grid, on, xs) && xs != []
    ensures on(xs[0].0) && on(xs[0].1) && In(xs, xs[0].0)
    ensures on(xs[0].1 + grid) && !In(xs, xs[0].1 + grid)
  {
    assert Snapped(on, xs[0]);
    assert NextOn(grid, on, xs[0].1);
    InCons(xs, xs[0].0);
    InCons(xs, xs[0].1 + grid);
    CanonicalTail(grid, on, xs, xs[0].1 + grid);
  }

  /** The first interval of a canonical list can be read off from its points. */
  lemma SameFirst(grid: int, on: Points, xs: seq<Interval>, ys: seq<Interval>)
    requires Spaced(grid, on) && Canonical(grid, on, xs) && Canonical(grid, on, ys) && SamePoints(on, xs, ys)
    requires xs != [] && ys != []
    ensures ys[0].0 <= xs[0].0 && (ys[0].0 == xs[0].0 ==> ys[0].1 <= xs[0].1)
  {
    GapAfterFirst(grid, on, xs);
    GapAfterFirst(grid, on, ys);
    CanonicalTail(grid, on, ys, xs[0].0);
    assert Apart(grid, on, xs[0].1, ys[0].1);
    InCons(ys, xs[0].1 + grid);
  }

  lemma SameTail(grid: int, on: Points, xs: seq<Interval>, ys: seq<Interval>)
    requires Spaced(grid, on) && Canonical(grid, on, xs) && Canonical(grid, on, ys) && SamePoints(on, xs, ys)
    requires xs != [] && ys != []
    ensures xs[0] == ys[0]
    ensures Canonical(grid, on, xs[1..]) && Canonical(grid, on, ys[1..]) && SamePoints(on, xs[1..], ys[1..])
  {
    SameFirst(grid, on, xs, ys);
    SameFirst(grid, on, ys, xs);
    CanonicalTail(grid, on, xs, 0);
    CanonicalTail(grid, on, ys, 0);
    forall x | on(x) ensures In(xs[1..], x) <==> In(ys[1..], x) {
      InTail(grid, on, xs, ys, x);
    }
  }

  lemma InTail(grid: int, on: Points, xs: seq<Interval>, ys: seq<Interval>, x: int)
    requires grid > 0 && Canonical(grid, on, xs) && Canonical(grid, on, ys)
    requires xs != [] && ys != [] && xs[0] == ys[0] && (In(xs, x) <==> In(ys, x))
    ensures In(xs[1..], x) <==> In(ys[1..], x)
  {
    InCons(xs, x);
    InCons(ys, x);
    CanonicalTail(grid, on, xs, x);
    CanonicalTail(grid, on, ys, x);
  }

  /** Canonical lists with the same points are equal. */
  lemma {:induction false} CanonicalUnique(grid: int, on: Points, xs: seq<Interval>, ys: seq<Interval>)
    requires Spaced(grid, on) && Canonical(grid, on, xs) && Canonical(grid, on, ys) && SamePoints(on, xs, ys)
    ensures xs == ys
  {
    if xs == [] || ys == [] {
      NonEmptyHasPoint(grid, on, xs);
      NonEmptyHasPoint(grid, on, ys);
    } else {
      SameTail(grid, on, xs, ys);
      CanonicalUnique(grid, on, xs[1..], ys[1..]);
      assert xs == [xs[0]] + xs[1..] && ys == [ys[0]] + ys[1..];
    }
  }

  lemma NonEmptyHasPoint(grid: int, on: Points, xs: seq<Interval>)
    requires Canonical(grid, on, xs)
    ensures xs != [] ==> on(xs[0].0) && In(xs, xs[0].0)
  {
    if xs != [] {
      assert Snapped(on, xs[0]);
      InCons(xs, xs[0].0);
    }
  }
}
