/**
  TransactionBatchScheduler.schedule of src/drc_agent/coordinator/batching.py: the greedy pass over the sorted
  bundles, its limits, and why no contiguous grouping uses fewer batches.
 */
module Batching {
  import opened Orders
  import Forests

  type Id = Forests.Id

  datatype Candidate = Candidate(id: Id, isNoop: bool, affected: seq<Id>, targets: seq<Id>)

  datatype Bundle = Bundle(id: Id, selected: seq<Id>)

  datatype Config = Config(maxActions: nat, maxObjects: nat)

  /** A pending bundle with its non-noop candidates, sorted, and the objects they touch. */
  datatype Item = Item(bundle: Id, candidates: seq<Id>, objects: set<Id>)

  datatype Batch = Batch(bundles: seq<Id>, candidates: seq<Id>, actionCount: nat, objectCount: nat)

  // ----- Pending items

  /** by_id: a repeated candidate id keeps its last candidate. */
  function ById(candidates: seq<Candidate>): map<Id, Candidate> {
    if candidates == [] then map[]
    else
      var last := candidates[|candidates| - 1];
      ById(candidates[..|candidates| - 1])[last.id := last]
  }

  function Touched(c: Candidate): set<Id> {
    if c.affected != [] then set o <- c.affected else set o <- c.targets
  }

  function Selected(ids: seq<Id>, byId: map<Id, Candidate>): seq<Id> {
    if ids == [] then []
    else (if ids[0] in byId && !byId[ids[0]].isNoop then [ids[0]] else []) + Selected(ids[1..], byId)
  }

  function ObjectsOf(ids: seq<Id>, byId: map<Id, Candidate>): set<Id> {
    if ids == [] then {}
    else (if ids[0] in byId then Touched(byId[ids[0]]) else {}) + ObjectsOf(ids[1..], byId)
  }

  function ToItem(bundle: Bundle, byId: map<Id, Candidate>): Item {
    var selected := Selected(bundle.selected, byId);
    Item(bundle.id, Sort(NatLeq, selected), ObjectsOf(selected, byId))
  }

  predicate BundleOrder(a: Bundle, b: Bundle) { a.id <= b.id }

  function PendingFrom(bundles: seq<Bundle>, byId: map<Id, Candidate>): seq<Item> {
    if bundles == [] then []
    else
      var rest := PendingFrom(bundles[1..], byId);
      if Selected(bundles[0].selected, byId) == [] then rest else [ToItem(bundles[0], byId)] + rest
  }

  /** Sorted by bundle id; bundles with nothing to do are skipped. */
  function Pending(bundles: seq<Bundle>, candidates: seq<Candidate>): seq<Item> {
    PendingFrom(Sort(BundleOrder, bundles), ById(candidates))
  }

  lemma {:induction false} PendingFromSorted(bundles: seq<Bundle>, byId: map<Id, Candidate>)
    requires Sorted(BundleOrder, bundles)
    ensures forall i, j :: 0 <= i < j < |PendingFrom(bundles, byId)|
              ==> PendingFrom(bundles, byId)[i].bundle <= PendingFrom(bundles, byId)[j].bundle
    ensures forall item :: item in PendingFrom(bundles, byId) <==>
              exists b <- bundles :: Selected(b.selected, byId) != [] && item == ToItem(b, byId)
  {
    if bundles != [] {
      assert bundles == [bundles[0]] + bundles[1..];
      SortedCons(BundleOrder, bundles[0], bundles[1..]);
      PendingFromSorted(bundles[1..], byId);
      var rest := PendingFrom(bundles[1..], byId);
      forall i | 0 <= i < |rest| ensures bundles[0].id <= rest[i].bundle {
        assert rest[i] in rest;
      }
    }
  }

  /** Pending bundles come in id order, and are exactly the bundles with something to do. */
  lemma PendingIsSorted(bundles: seq<Bundle>, candidates: seq<Candidate>)
    ensures var items := Pending(bundles, candidates);
            && (forall i, j :: 0 <= i < j < |items| ==> items[i].bundle <= items[j].bundle)
            && (forall item :: item in items <==>
                  exists b <- bundles ::
                    Selected(b.selected, ById(candidates)) != [] && item == ToItem(b, ById(candidates)))
  {
    SortPermutes(BundleOrder, bundles);
    SortSorts(BundleOrder, bundles);
    PendingFromSorted(Sort(BundleOrder, bundles), ById(candidates));
  }

  // ----- Segments and limits

  function Candidates(items: seq<Item>): seq<Id> {
    if items == [] then [] else Candidates(items[..|items| - 1]) + items[|items| - 1].candidates
  }

  function Bundles(items: seq<Item>): seq<Id> { seq(|items|, i requires 0 <= i < |items| => items[i].bundle) }

  function Objects(items: seq<Item>): set<Id> { set item <- items, o <- item.objects :: o }

  predicate Feasible(cfg: Config, items: seq<Item>) {
    |Candidates(items)| <= cfg.maxActions && |Objects(items)| <= cfg.maxObjects
  }

  predicate Oversized(cfg: Config, item: Item) {
    |item.candidates| > cfg.maxActions || |item.objects| > cfg.maxObjects
  }

  function BatchOf(items: seq<Item>): Batch {
    Batch(Bundles(items), Candidates(items), |Candidates(items)|, |Objects(items)|)
  }

  lemma {:induction false} CandidatesConcat(xs: seq<Item>, ys: seq<Item>)
    ensures Candidates(xs + ys) == Candidates(xs) + Candidates(ys)
  {
    if ys == [] {
      assert xs + ys == xs;
    } else {
      var init, last := ys[..|ys| - 1], ys[|ys| - 1];
      var all := xs + ys;
      assert all[..|all| - 1] == xs + init && all[|all| - 1] == last;
      CandidatesConcat(xs, init);
      assert Candidates(xs) + (Candidates(init) + last.candidates)
          == Candidates(xs) + Candidates(init) + last.candidates;
    }
  }

  /** A part of a segment respects the limits whenever the whole segment does. */
  lemma FeasiblePart(cfg: Config, items: seq<Item>, lo: nat, hi: nat, lo': nat, hi': nat)
    requires lo <= lo' <= hi' <= hi <= |items| && Feasible(cfg, items[lo..hi])
    ensures Feasible(cfg, items[lo'..hi'])
  {
    var left, part, right := items[lo..lo'], items[lo'..hi'], items[hi'..hi];
    assert items[lo..hi'] == left + part;
    assert items[lo..hi] == items[lo..hi'] + right;
    CandidatesConcat(left + part, right);
    CandidatesConcat(left, part);
    SubsetSize(Objects(part), Objects(items[lo..hi]));
  }

  lemma FeasibleAlone(cfg: Config, item: Item)
    ensures Feasible(cfg, [item]) <==> !Oversized(cfg, item)
  {
    assert [item][..0] == [];
    assert Candidates([item]) == Candidates([]) + item.candidates == item.candidates;
    assert Objects([item]) == item.objects;
  }

  // ----- Groupings

  type Cuts = seq<(nat, nat)>

  ghost predicate InOrder(cuts: Cuts, k: int, l: int)
    requires 0 <= k < |cuts| && 0 <= l < |cuts|
  {
    cuts[k].1 <= cuts[l].0
  }

  ghost predicate Covered(cuts: Cuts, i: int) {
    exists k :: 0 <= k < |cuts| && cuts[k].0 <= i < cuts[k].1
  }

  ghost predicate ValidCut(cfg: Config, items: seq<Item>, cut: (nat, nat)) {
    && cut.0 < cut.1 <= |items| && Feasible(cfg, items[cut.0..cut.1])
    && forall i :: cut.0 <= i < cut.1 ==> !Oversized(cfg, items[i])
  }

  /** Disjoint non-empty segments in order, each within the limits, covering every item that is not deferred. */
  ghost predicate Grouping(cfg: Config, items: seq<Item>, cuts: Cuts) {
    && (forall k {:trigger ValidCut(cfg, items, cuts[k])} :: 0 <= k < |cuts| ==> ValidCut(cfg, items, cuts[k]))
    && (forall k, l {:trigger InOrder(cuts, k, l)} :: 0 <= k < l < |cuts| ==> InOrder(cuts, k, l))
    && (forall i {:trigger Covered(cuts, i)} :: 0 <= i < |items| && !Oversized(cfg, items[i]) ==> Covered(cuts, i))
  }

  /** A segment that cannot be extended: the next item is missing, deferred, or one too many. */
  ghost predicate Maximal(cfg: Config, items: seq<Item>, cut: (nat, nat)) {
    cut.0 < cut.1 <= |items|
    && (cut.1 == |items| || Oversized(cfg, items[cut.1]) || !Feasible(cfg, items[cut.0..cut.1 + 1]))
  }

  ghost predicate GreedyCuts(cfg: Config, items: seq<Item>, cuts: Cuts) {
    && Grouping(cfg, items, cuts)
    && forall k {:trigger Maximal(cfg, items, cuts[k])} :: 0 <= k < |cuts| ==> Maximal(cfg, items, cuts[k])
  }

  /** The k-th greedy segment ends no earlier than the k-th segment of any other grouping. */
  lemma {:induction false} GreedyStaysAhead(cfg: Config, items: seq<Item>, cuts: Cuts, other: Cuts, k: nat)
    requires GreedyCuts(cfg, items, cuts) && Grouping(cfg, items, other) && k < |cuts|
    ensures k < |other| && other[k].1 <= cuts[k].1
  {
    if k > 0 {
      GreedyStaysAhead(cfg, items, cuts, other, k - 1);
      assert InOrder(cuts, k - 1, k);
    }
    var first := cuts[k].0;
    assert ValidCut(cfg, items, cuts[k]);
    assert Covered(other, first);
    var m :| 0 <= m < |other| && other[m].0 <= first < other[m].1;
    if m < k {
      // segment m of the other grouping would end before the greedy segment k starts
      EndsInOrder(cfg, items, other, m, k - 1);
      assert false;
    } else if k < m {
      assert InOrder(other, k, m);
    } else {
      assert Maximal(cfg, items, cuts[k]) && ValidCut(cfg, items, other[k]);
      NotPast(cfg, items, cuts[k], other[k]);
    }
  }

  /** A segment within the limits that contains the start of a maximal one ends no later. */
  lemma NotPast(cfg: Config, items: seq<Item>, cut: (nat, nat), other: (nat, nat))
    requires Maximal(cfg, items, cut) && ValidCut(cfg, items, other) && other.0 <= cut.0
    ensures other.1 <= cut.1
  {
    if other.1 > cut.1 {
      FeasiblePart(cfg, items, other.0, other.1, cut.0, cut.1 + 1);
    }
  }

  lemma EndsInOrder(cfg: Config, items: seq<Item>, cuts: Cuts, k: nat, l: nat)
    requires Grouping(cfg, items, cuts) && k <= l < |cuts|
    ensures cuts[k].1 <= cuts[l].1
  {
    if k < l {
      assert InOrder(cuts, k, l) && ValidCut(cfg, items, cuts[l]);
    }
  }

  /** No contiguous grouping within the limits uses fewer batches than the greedy one. */
  lemma GreedyIsOptimal(cfg: Config, items: seq<Item>, cuts: Cuts, other: Cuts)
    requires GreedyCuts(cfg, items, cuts) && Grouping(cfg, items, other)
    ensures |cuts| <= |other|
  {
    if cuts != [] {
      GreedyStaysAhead(cfg, items, cuts, other, |cuts| - 1);
    }
  }

  lemma StartsInOrder(cfg: Config, items: seq<Item>, cuts: Cuts, k: nat, l: nat)
    requires Grouping(cfg, items, cuts) && k < l < |cuts|
    ensures cuts[k].0 < cuts[l].0
  {
    assert InOrder(cuts, k, l) && ValidCut(cfg, items, cuts[k]);
  }

  // ----- The scheduler

  /** Batch k is segment k of a greedy grouping of the pending items. */
  ghost predicate BatchesOf(items: seq<Item>, cuts: Cuts, batches: seq<Batch>) {
    && |batches| == |cuts|
    && forall k :: 0 <= k < |cuts| ==>
         cuts[k].0 <= cuts[k].1 <= |items| && batches[k] == BatchOf(items[cuts[k].0..cuts[k].1])
  }

  ghost predicate IsSchedule(cfg: Config, items: seq<Item>, batches: seq<Batch>) {
    exists cuts: Cuts :: GreedyCuts(cfg, items, cuts) && BatchesOf(items, cuts, batches)
  }

  /** What schedule promises about its batches: limits, bundles whole and in order, none lost, as few as possible. */
  lemma ScheduleIsOptimal(cfg: Config, items: seq<Item>, batches: seq<Batch>)
    requires IsSchedule(cfg, items, batches)
    ensures forall b <- batches :: b.bundles != [] && b.actionCount == |b.candidates| <= cfg.maxActions
                                   && b.objectCount <= cfg.maxObjects
    ensures forall other: Cuts :: Grouping(cfg, items, other) ==> |batches| <= |other|
  {
    var cuts: Cuts :| GreedyCuts(cfg, items, cuts) && BatchesOf(items, cuts, batches);
    forall b | b in batches
      ensures b.bundles != [] && b.actionCount == |b.candidates| <= cfg.maxActions && b.objectCount <= cfg.maxObjects
    {
      var k :| 0 <= k < |batches| && batches[k] == b;
      assert ValidCut(cfg, items, cuts[k]);
    }
    forall other: Cuts | Grouping(cfg, items, other) ensures |batches| <= |other| {
      GreedyIsOptimal(cfg, items, cuts, other);
    }
  }

  /** The greedy pass up to item i: closed segments, then the open one from `start`. */
  ghost predicate Progress(cfg: Config, items: seq<Item>, cuts: Cuts, start: nat, i: nat) {
    && start <= i <= |items|
    && (forall k {:trigger ValidCut(cfg, items, cuts[k])} :: 0 <= k < |cuts| ==> ValidCut(cfg, items, cuts[k]))
    && (forall k {:trigger Maximal(cfg, items, cuts[k])} :: 0 <= k < |cuts| ==> Maximal(cfg, items, cuts[k]))
    && (forall k, l {:trigger InOrder(cuts, k, l)} :: 0 <= k < l < |cuts| ==> InOrder(cuts, k, l))
    && (forall j {:trigger Covered(cuts, j)} :: 0 <= j < start && !Oversized(cfg, items[j]) ==> Covered(cuts, j))
    && (forall k :: 0 <= k < |cuts| ==> cuts[k].1 <= start)
    && (start < i ==> ValidCut(cfg, items, (start, i)))
  }

  /** flush() when the open segment cannot grow. */
  lemma FlushProgress(cfg: Config, items: seq<Item>, cuts: Cuts, start: nat, i: nat)
    requires Progress(cfg, items, cuts, start, i) && start < i && Maximal(cfg, items, (start, i))
    ensures Progress(cfg, items, cuts + [(start, i)], i, i)
  {
    var more := cuts + [(start, i)];
    forall k | 0 <= k < |more| ensures ValidCut(cfg, items, more[k]) && Maximal(cfg, items, more[k]) && more[k].1 <= i {
      if k < |cuts| {
        assert more[k] == cuts[k] && ValidCut(cfg, items, cuts[k]) && Maximal(cfg, items, cuts[k]);
      }
    }
    forall k, l | 0 <= k < l < |more| ensures InOrder(more, k, l) {
      if l < |cuts| {
        assert InOrder(cuts, k, l);
      }
    }
    forall j | 0 <= j < i && !Oversized(cfg, items[j]) ensures Covered(more, j) {
      if j < start {
        assert Covered(cuts, j);
        var k :| 0 <= k < |cuts| && cuts[k].0 <= j < cuts[k].1;
        assert more[k] == cuts[k];
      } else {
        assert more[|cuts|] == (start, i);
      }
    }
  }

  /** A deferred bundle is skipped once the open segment is flushed. */
  lemma SkipProgress(cfg: Config, items: seq<Item>, cuts: Cuts, i: nat)
    requires Progress(cfg, items, cuts, i, i) && i < |items| && Oversized(cfg, items[i])
    ensures Progress(cfg, items, cuts, i + 1, i + 1)
  {}

  /** A bundle that fits joins the open segment. */
  lemma JoinProgress(cfg: Config, items: seq<Item>, cuts: Cuts, start: nat, i: nat)
    requires Progress(cfg, items, cuts, start, i) && i < |items|
    requires !Oversized(cfg, items[i]) && Feasible(cfg, items[start..i + 1])
    ensures Progress(cfg, items, cuts, start, i + 1)
  {}

  lemma DoneProgress(cfg: Config, items: seq<Item>, cuts: Cuts)
    requires Progress(cfg, items, cuts, |items|, |items|)
    ensures GreedyCuts(cfg, items, cuts)
  {}

  /** The accumulators shared by the loop and its flush() closure. */
  class Accumulator {
    var batches: seq<Batch>
    var bundles: seq<Id>
    var candidates: seq<Id>
    var objects: set<Id>

    /** The current_* variables hold the open segment. */
    ghost predicate Holds(segment: seq<Item>)
      reads this
    {
      bundles == Bundles(segment) && candidates == Candidates(segment) && objects == Objects(segment)
    }

    constructor ()
      ensures batches == [] && Holds([])
    {
      batches, bundles, candidates, objects := [], [], [], {};
    }

    method Flush(ghost segment: seq<Item>)
      requires Holds(segment)
      modifies this
      ensures Holds([])
      ensures batches == old(batches) + if segment == [] then [] else [BatchOf(segment)]
    {
      if bundles == [] {
        return;
      }
      batches := batches + [Batch(bundles, candidates, |candidates|, |objects|)];
      bundles, candidates, objects := [], [], {};
    }

    method Add(item: Item, ghost segment: seq<Item>)
      requires Holds(segment)
      modifies this
      ensures Holds(segment + [item]) && batches == old(batches)
    {
      assert (segment + [item])[..|segment|] == segment;
      bundles := bundles + [item.bundle];
      candidates := candidates + item.candidates;
      objects := objects + item.objects;
    }
  }

  /** Closing the open segment, as cuts and as batches. */
  lemma CloseSegment(cfg: Config, items: seq<Item>, cuts: Cuts, start: nat, i: nat, batches: seq<Batch>)
    returns (after: Cuts)
    requires Progress(cfg, items, cuts, start, i) && BatchesOf(items, cuts, batches)
    requires start < i ==> Maximal(cfg, items, (start, i))
    ensures Progress(cfg, items, after, i, i)
    ensures BatchesOf(items, after, batches + if start == i then [] else [BatchOf(items[start..i])])
  {
    if start == i {
      after := cuts;
    } else {
      FlushProgress(cfg, items, cuts, start, i);
      after := cuts + [(start, i)];
    }
  }

  /** What the overflow test of the code compares with the limits. */
  lemma GrowSegment(cfg: Config, items: seq<Item>, start: nat, i: nat)
    requires start <= i < |items|
    ensures Feasible(cfg, items[start..i + 1])
       <==> && |Candidates(items[start..i])| + |items[i].candidates| <= cfg.maxActions
            && |Objects(items[start..i]) + items[i].objects| <= cfg.maxObjects
    ensures items[start..i + 1] == items[start..i] + [items[i]]
  {
    assert items[start..i + 1] == items[start..i] + [items[i]];
    SegmentSnoc(items[start..i], items[i]);
  }

  lemma SegmentSnoc(segment: seq<Item>, item: Item)
    ensures Candidates(segment + [item]) == Candidates(segment) + item.candidates
    ensures Objects(segment + [item]) == Objects(segment) + item.objects
  {
    assert (segment + [item])[..|segment|] == segment;
  }

  /** State of the loop in schedule. */
  ghost predicate Scheduling(cfg: Config, items: seq<Item>, cuts: Cuts, start: nat, i: nat, current: Accumulator)
    reads current
  {
    && Progress(cfg, items, cuts, start, i) && BatchesOf(items, cuts, current.batches)
    && current.Holds(items[start..i])
  }

  /** A bundle over the limits: flush, and do not split it. */
  method Defer(cfg: Config, items: seq<Item>, i: nat, current: Accumulator, ghost cuts: Cuts, ghost start: nat)
    returns (ghost after: Cuts)
    requires i < |items| && Scheduling(cfg, items, cuts, start, i, current) && Oversized(cfg, items[i])
    modifies current
    ensures Scheduling(cfg, items, after, i + 1, i + 1, current)
  {
    after := CloseSegment(cfg, items, cuts, start, i, current.batches);
    current.Flush(items[start..i]);
    SkipProgress(cfg, items, after, i);
    assert items[i + 1..i + 1] == [];
  }

  /** The flush of an overflowing segment. */
  method FlushFull(cfg: Config, items: seq<Item>, i: nat, current: Accumulator, ghost cuts: Cuts, ghost start: nat)
    returns (ghost after: Cuts)
    requires i < |items| && Scheduling(cfg, items, cuts, start, i, current)
    requires !Feasible(cfg, items[start..i + 1])
    modifies current
    ensures Scheduling(cfg, items, after, i, i, current)
  {
    after := CloseSegment(cfg, items, cuts, start, i, current.batches);
    current.Flush(items[start..i]);
    assert items[i..i] == [];
  }

  /** One round of the loop. */
  method Place(cfg: Config, items: seq<Item>, i: nat, current: Accumulator, ghost cuts: Cuts, ghost start: nat)
    returns (ghost after: Cuts, ghost next: nat)
    requires i < |items| && Scheduling(cfg, items, cuts, start, i, current)
    modifies current
    ensures Scheduling(cfg, items, after, next, i + 1, current)
  {
    var item := items[i];
    after, next := cuts, start;
    if |item.candidates| > cfg.maxActions || |item.objects| > cfg.maxObjects {
      after := Defer(cfg, items, i, current, cuts, start);
      next := i + 1;
      return;
    }
    GrowSegment(cfg, items, start, i);
    if || |current.candidates| + |item.candidates| > cfg.maxActions
       || |current.objects + item.objects| > cfg.maxObjects {
      after := FlushFull(cfg, items, i, current, cuts, start);
      next := i;
      AloneFits(cfg, items, i);
    }
    Append(cfg, items, i, current, after, next);
  }

  lemma AloneFits(cfg: Config, items: seq<Item>, i: nat)
    requires i < |items| && !Oversized(cfg, items[i])
    ensures Feasible(cfg, items[i..i + 1])
  {
    FeasibleAlone(cfg, items[i]);
    assert items[i..i + 1] == [items[i]];
  }

  /** A bundle that fits joins the open segment. */
  method Append(cfg: Config, items: seq<Item>, i: nat, current: Accumulator, ghost cuts: Cuts, ghost start: nat)
    requires i < |items| && Scheduling(cfg, items, cuts, start, i, current)
    requires !Oversized(cfg, items[i]) && Feasible(cfg, items[start..i + 1])
    modifies current
    ensures Scheduling(cfg, items, cuts, start, i + 1, current)
  {
    JoinProgress(cfg, items, cuts, start, i);
    GrowSegment(cfg, items, start, i);
    current.Add(items[i], items[start..i]);
  }

  method Schedule(bundles: seq<Bundle>, candidates: seq<Candidate>, cfg: Config) returns (batches: seq<Batch>)
    ensures IsSchedule(cfg, Pending(bundles, candidates), batches)
  {
    var items := Pending(bundles, candidates);
    var current := new Accumulator();
    ghost var cuts: Cuts := [];
    ghost var start: nat := 0;
    for i := 0 to |items|
      invariant fresh(current) && Scheduling(cfg, items, cuts, start, i, current)
    {
      cuts, start := Place(cfg, items, i, current, cuts, start);
    }
    cuts := CloseSegment(cfg, items, cuts, start, |items|, current.batches);
    current.Flush(items[start..|items|]);
    DoneProgress(cfg, items, cuts);
    batches := current.batches;
  }

  // ----- Nothing lost, nothing split

  /** The items that are not deferred. */
  function KeptItems(cfg: Config, items: seq<Item>): seq<Item> {
    if items == [] then []
    else (if Oversized(cfg, items[0]) then [] else [items[0]]) + KeptItems(cfg, items[1..])
  }

  function BundlesIn(batches: seq<Batch>): seq<Id> {
    if batches == [] then [] else BundlesIn(batches[..|batches| - 1]) + batches[|batches| - 1].bundles
  }

  function CandidatesIn(batches: seq<Batch>): seq<Id> {
    if batches == [] then [] else CandidatesIn(batches[..|batches| - 1]) + batches[|batches| - 1].candidates
  }

  lemma {:induction false} KeptConcat(cfg: Config, xs: seq<Item>, ys: seq<Item>)
    ensures KeptItems(cfg, xs + ys) == KeptItems(cfg, xs) + KeptItems(cfg, ys)
  {
    if xs == [] {
      assert xs + ys == ys;
    } else {
      var all := xs + ys;
      assert all[1..] == xs[1..] + ys && all[0] == xs[0];
      KeptConcat(cfg, xs[1..], ys);
      var head := if Oversized(cfg, xs[0]) then [] else [xs[0]];
      assert head + (KeptItems(cfg, xs[1..]) + KeptItems(cfg, ys))
          == head + KeptItems(cfg, xs[1..]) + KeptItems(cfg, ys);
    }
  }

  lemma {:induction false} KeptUniform(cfg: Config, items: seq<Item>)
    ensures (forall i :: 0 <= i < |items| ==> Oversized(cfg, items[i])) ==> KeptItems(cfg, items) == []
    ensures (forall i :: 0 <= i < |items| ==> !Oversized(cfg, items[i])) ==> KeptItems(cfg, items) == items
  {
    if items != [] {
      KeptUniform(cfg, items[1..]);
    }
  }

  function EndOf(cuts: Cuts): nat { if cuts == [] then 0 else cuts[|cuts| - 1].1 }

  /** Between two segments, and after the last one, every item is deferred. */
  lemma GapIsDeferred(cfg: Config, items: seq<Item>, cuts: Cuts, k: nat, lo: nat, hi: nat)
    requires Grouping(cfg, items, cuts) && k <= |cuts| && lo <= hi <= |items|
    requires EndOf(cuts[..k]) <= lo && (k < |cuts| ==> hi <= cuts[k].0)
    ensures KeptItems(cfg, items[lo..hi]) == []
  {
    forall i | lo <= i < hi ensures Oversized(cfg, items[i]) {
      if !Oversized(cfg, items[i]) {
        assert Covered(cuts, i);
        var m :| 0 <= m < |cuts| && cuts[m].0 <= i < cuts[m].1;
        if m < k {
          EndsInOrder(cfg, items, cuts, m, k - 1);
        } else if k < m {
          StartsInOrder(cfg, items, cuts, k, m);
        }
      }
    }
    KeptUniform(cfg, items[lo..hi]);
  }

  lemma {:induction false} KeptUpTo(cfg: Config, items: seq<Item>, cuts: Cuts, batches: seq<Batch>, k: nat)
    requires Grouping(cfg, items, cuts) && BatchesOf(items, cuts, batches) && k <= |cuts|
    ensures EndOf(cuts[..k]) <= |items|
    ensures BundlesIn(batches[..k]) == Bundles(KeptItems(cfg, items[..EndOf(cuts[..k])]))
    ensures CandidatesIn(batches[..k]) == Candidates(KeptItems(cfg, items[..EndOf(cuts[..k])]))
  {
    if k > 0 {
      KeptUpTo(cfg, items, cuts, batches, k - 1);
      var before := EndOf(cuts[..k - 1]);
      var (lo, hi) := cuts[k - 1];
      KeptInSegment(cfg, items, cuts, k - 1);
      CandidatesConcat(KeptItems(cfg, items[..before]), items[lo..hi]);
      assert batches[..k][..k - 1] == batches[..k - 1];
      BundlesConcat(KeptItems(cfg, items[..before]), items[lo..hi]);
    }
  }

  /** Up to the end of segment k, its items are what is kept beyond the segments before it. */
  lemma KeptInSegment(cfg: Config, items: seq<Item>, cuts: Cuts, k: nat)
    requires Grouping(cfg, items, cuts) && k < |cuts| && EndOf(cuts[..k]) <= |items|
    ensures cuts[k].0 < cuts[k].1 == EndOf(cuts[..k + 1]) <= |items|
    ensures KeptItems(cfg, items[..cuts[k].1])
         == KeptItems(cfg, items[..EndOf(cuts[..k])]) + items[cuts[k].0..cuts[k].1]
  {
    var before := EndOf(cuts[..k]);
    var (lo, hi) := cuts[k];
    assert ValidCut(cfg, items, cuts[k]);
    if k > 0 {
      assert InOrder(cuts, k - 1, k);
    }
    GapIsDeferred(cfg, items, cuts, k, before, lo);
    KeptThrough(cfg, items, before, lo, hi);
  }

  lemma BundlesConcat(xs: seq<Item>, ys: seq<Item>)
    ensures Bundles(xs + ys) == Bundles(xs) + Bundles(ys)
  {}

  lemma KeptThrough(cfg: Config, items: seq<Item>, before: nat, lo: nat, hi: nat)
    requires before <= lo <= hi <= |items| && KeptItems(cfg, items[before..lo]) == []
    requires forall i :: lo <= i < hi ==> !Oversized(cfg, items[i])
    ensures KeptItems(cfg, items[..hi]) == KeptItems(cfg, items[..before]) + items[lo..hi]
  {
    KeptUniform(cfg, items[lo..hi]);
    assert items[..hi] == items[..before] + items[before..lo] + items[lo..hi];
    KeptConcat(cfg, items[..before] + items[before..lo], items[lo..hi]);
    KeptConcat(cfg, items[..before], items[before..lo]);
  }

  /** Every bundle that is not deferred is in the batches whole, once, and in the sorted order. */
  lemma BundlesAreKept(cfg: Config, items: seq<Item>, batches: seq<Batch>)
    requires IsSchedule(cfg, items, batches)
    ensures BundlesIn(batches) == Bundles(KeptItems(cfg, items))
    ensures CandidatesIn(batches) == Candidates(KeptItems(cfg, items))
  {
    var cuts: Cuts :| GreedyCuts(cfg, items, cuts) && BatchesOf(items, cuts, batches);
    KeptUpTo(cfg, items, cuts, batches, |cuts|);
    assert batches[..|cuts|] == batches;
    KeptAtEnd(cfg, items, cuts);
  }

  lemma KeptAtEnd(cfg: Config, items: seq<Item>, cuts: Cuts)
    requires Grouping(cfg, items, cuts) && EndOf(cuts[..|cuts|]) <= |items|
    ensures KeptItems(cfg, items[..EndOf(cuts[..|cuts|])]) == KeptItems(cfg, items)
  {
    var end, n := EndOf(cuts[..|cuts|]), |items|;
    GapIsDeferred(cfg, items, cuts, |cuts|, end, n);
    KeptThrough(cfg, items, end, n, n);
    assert items[..n] == items;
  }
}
