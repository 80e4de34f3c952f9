/**
  FailureAttributor of src/drc_agent/coordinator/batching.py: the budgeted bisection over replays, and when it
  may claim a cause.
 */
module Attribution {
  import opened Basics
  import opened Orders
  import Forests

  type Id = Forests.Id

  datatype Candidate = Candidate(id: Id, anchors: set<Id>, objects: set<Id>)

  datatype Config = Config(enabled: bool, deltaDebug: bool, maxReplays: nat)

  datatype Quality = DirectCandidate | DirectSmallBundle | DeltaDebugged | BundleOnly | Unknown

  datatype Result = Result(quality: Quality, candidates: seq<Id>, removed: seq<Id>, introduced: seq<Id>,
                           reproduced: seq<Id>, replays: nat, causal: bool)

  /** One call of replay_subset: the answer may depend on which call it is. */
  type Replay = (nat, seq<Id>) -> bool

  // ----- The budget

  function CeilLog2(n: nat): nat {
    if n <= 1 then 0 else 1 + CeilLog2((n + 1) / 2)
  }

  function Pow2(k: nat): nat { if k == 0 then 1 else 2 * Pow2(k - 1) }

  /** CeilLog2(n) is the least k with n <= 2^k. */
  lemma {:induction false} CeilLog2IsLeast(n: nat)
    ensures n <= Pow2(CeilLog2(n))
    ensures n > 1 ==> Pow2(CeilLog2(n) - 1) < n
  {
    if n > 1 {
      CeilLog2IsLeast((n + 1) / 2);
    }
  }

  lemma {:induction false} CeilLog2Monotone(m: nat, n: nat)
    requires m <= n
    ensures CeilLog2(m) <= CeilLog2(n)
  {
    if m > 1 {
      CeilLog2Monotone((m + 1) / 2, (n + 1) / 2);
    }
  }

  /** Both halves of a list of two or more take at least one round off the logarithm. */
  lemma HalvesAreShallower(n: nat)
    requires n > 1
    ensures CeilLog2(n / 2) + 1 <= CeilLog2(n) && CeilLog2(n - n / 2) + 1 <= CeilLog2(n)
  {
    CeilLog2Monotone(n / 2, (n + 1) / 2);
  }

  // ----- Sublists and culprits

  ghost predicate Sublist(part: seq<Id>, whole: seq<Id>) {
    exists i, j :: 0 <= i <= j <= |whole| && part == whole[i..j]
  }

  lemma SublistOfSublist(part: seq<Id>, middle: seq<Id>, i: nat, j: nat)
    requires Sublist(part, middle) && i <= j <= |part|
    ensures Sublist(part[i..j], middle)
  {
    var k, l :| 0 <= k <= l <= |middle| && part == middle[k..l];
    forall m | 0 <= m < j - i ensures part[i..j][m] == middle[k + i..k + j][m] {
      assert part[i..j][m] == part[i + m] == middle[k + (i + m)];
    }
    assert part[i..j] == middle[k + i..k + j];
  }

  lemma HalvesAreSublists(current: seq<Id>, ids: seq<Id>)
    requires Sublist(current, ids)
    ensures Sublist(current[..|current| / 2], ids) && Sublist(current[|current| / 2..], ids)
  {
    SublistOfSublist(current, ids, 0, |current| / 2);
    SublistOfSublist(current, ids, |current| / 2, |current|);
    assert current[0..|current| / 2] == current[..|current| / 2];
    assert current[|current| / 2..|current|] == current[|current| / 2..];
  }

  /** Some replay before the given one failed on exactly this list. */
  ghost predicate Reproduced(replay: Replay, ids: seq<Id>, calls: nat) {
    exists k: nat :: k < calls && replay(k, ids)
  }

  /** On sublists of the candidates, the replay fails exactly when the culprit takes part. */
  ghost predicate IsCulprit(replay: Replay, ids: seq<Id>, culprit: Id) {
    culprit in ids && forall k, part :: Sublist(part, ids) ==> (replay(k, part) <==> culprit in part)
  }

  /** The descent from one list to a part of it: the first half that fails is taken, the second only after the first. */
  ghost predicate Leads(replay: Replay, current: seq<Id>, calls: nat, end: seq<Id>, after: nat)
    decreases |current|
  {
    || (current == end && calls == after)
    || (&& |current| > 1
        && var (left, right) := (current[..|current| / 2], current[|current| / 2..]);
           if replay(calls, left) then Leads(replay, left, calls + 1, end, after)
           else replay(calls + 1, right) && Leads(replay, right, calls + 2, end, after))
  }

  /** One more round of the descent. */
  ghost predicate Descends(replay: Replay, current: seq<Id>, calls: nat, half: seq<Id>, after: nat) {
    && |current| > 1
    && var (left, right) := (current[..|current| / 2], current[|current| / 2..]);
       if replay(calls, left) then half == left && after == calls + 1
       else half == right && replay(calls + 1, right) && after == calls + 2
  }

  lemma {:induction false} LeadsOn(replay: Replay, start: seq<Id>, calls: nat, current: seq<Id>, middle: nat,
                                   half: seq<Id>, after: nat)
    requires Leads(replay, start, calls, current, middle) && Descends(replay, current, middle, half, after)
    ensures Leads(replay, start, calls, half, after)
    decreases |start|
  {
    if !(start == current && calls == middle) {
      var left, right := start[..|start| / 2], start[|start| / 2..];
      if replay(calls, left) {
        LeadsOn(replay, left, calls + 1, current, middle, half, after);
      } else {
        LeadsOn(replay, right, calls + 2, current, middle, half, after);
      }
    } else {
      assert Leads(replay, half, after, half, after);
    }
  }

  /** The replays after the last one that failed are those of the halves of what is left. */
  ghost predicate Idle(replay: Replay, current: seq<Id>, reached: nat, calls: nat) {
    && reached <= calls <= reached + (if |current| > 1 then 2 else 0)
    && (reached < calls ==> !replay(reached, current[..|current| / 2]))
    && (reached + 1 < calls ==> !replay(reached + 1, current[|current| / 2..]))
  }

  /** Why the bisection ends: one candidate is left, no budget is left, or neither half failed. */
  ghost predicate Ends(replay: Replay, current: seq<Id>, reached: nat, calls: nat, maxReplays: nat) {
    && Idle(replay, current, reached, calls)
    && (|current| <= 1 || calls == maxReplays || calls == reached + 2)
  }

  /** The bisection so far: what `current` is after `calls` replays of the original list. */
  ghost predicate Bisecting(replay: Replay, ids: seq<Id>, maxReplays: nat, current: seq<Id>, calls: nat) {
    && calls <= maxReplays && calls + 2 * CeilLog2(|current|) <= 2 * CeilLog2(|ids|)
    && Sublist(current, ids) && current != [] && |current| <= |ids|
    && Leads(replay, ids, 0, current, calls)
    && (|current| < |ids| ==> Reproduced(replay, current, calls))
    && (forall culprit: Id :: IsCulprit(replay, ids, culprit) ==> culprit in current)
  }

  ghost predicate Bisected(replay: Replay, ids: seq<Id>, maxReplays: nat, current: seq<Id>, calls: nat) {
    && calls <= maxReplays && calls <= 2 * CeilLog2(|ids|)
    && Sublist(current, ids) && current != [] && |current| <= |ids|
    && (exists reached: nat :: Leads(replay, ids, 0, current, reached)
                               && Ends(replay, current, reached, calls, maxReplays))
    && (|current| < |ids| ==> Reproduced(replay, current, calls))
    && (forall culprit: Id :: IsCulprit(replay, ids, culprit) && 2 * CeilLog2(|ids|) <= maxReplays
                              ==> current == [culprit])
  }

  /** The inner loop: replay the two halves in turn, as far as the budget goes. */
  method TryHalves(replay: Replay, halves: seq<seq<Id>>, calls: nat, maxReplays: nat)
    returns (found: Option<seq<Id>>, after: nat)
    requires |halves| == 2 && halves[0] != [] && halves[1] != [] && calls < maxReplays
    ensures calls < after <= calls + 2 && after <= maxReplays
    ensures found.Some? && after == calls + 1 ==> found.value == halves[0] && replay(calls, halves[0])
    ensures found.None? || after == calls + 2 ==> !replay(calls, halves[0])
    ensures found.Some? && after == calls + 2 ==> found.value == halves[1] && replay(calls + 1, halves[1])
    ensures found.None? ==> after == if calls + 2 <= maxReplays then calls + 2 else maxReplays
    ensures found.None? && calls + 2 <= maxReplays ==> !replay(calls + 1, halves[1])
  {
    found, after := None, calls;
    for h := 0 to 2
      invariant found == None && after == calls + h < maxReplays + (if h == 2 then 1 else 0)
      invariant h > 0 ==> !replay(calls, halves[0])
      invariant h > 1 ==> !replay(calls + 1, halves[1])
    {
      var half := halves[h];
      after := after + 1;
      if replay(after - 1, half) {
        found := Some(half);
        return;
      }
      if after >= maxReplays {
        return;
      }
    }
  }

  /** A half on which the replay failed takes the place of the current list. */
  lemma HalfBisects(replay: Replay, ids: seq<Id>, maxReplays: nat, current: seq<Id>, calls: nat,
                    half: seq<Id>, after: nat)
    requires Bisecting(replay, ids, maxReplays, current, calls) && |current| > 1
    requires Descends(replay, current, calls, half, after) && after <= maxReplays
    ensures Bisecting(replay, ids, maxReplays, half, after)
  {
    LeadsOn(replay, ids, 0, current, calls, half, after);
    assert replay(after - 1, half);
    HalvesAreShallower(|current|);
    HalvesAreSublists(current, ids);
    forall culprit: Id | IsCulprit(replay, ids, culprit) ensures culprit in half {
      CulpritTakesPart(replay, ids, half, after, culprit);
    }
  }

  lemma CulpritTakesPart(replay: Replay, ids: seq<Id>, part: seq<Id>, calls: nat, culprit: Id)
    requires IsCulprit(replay, ids, culprit) && Sublist(part, ids) && Reproduced(replay, part, calls)
    ensures culprit in part
  {}

  /** With budget left, a culprit is in one of the halves and its replay fails. */
  lemma CulpritIsFound(replay: Replay, ids: seq<Id>, current: seq<Id>, calls: nat, culprit: Id)
    requires IsCulprit(replay, ids, culprit) && Sublist(current, ids) && culprit in current
    ensures replay(calls, current[..|current| / 2]) || replay(calls + 1, current[|current| / 2..])
  {
    var left, right := current[..|current| / 2], current[|current| / 2..];
    HalvesAreSublists(current, ids);
    assert current == left + right;
    if culprit in left {
      CulpritFails(replay, ids, left, calls, culprit);
    } else {
      CulpritFails(replay, ids, right, calls + 1, culprit);
    }
  }

  lemma CulpritFails(replay: Replay, ids: seq<Id>, part: seq<Id>, call: nat, culprit: Id)
    requires IsCulprit(replay, ids, culprit) && Sublist(part, ids) && culprit in part
    ensures replay(call, part)
  {}

  /** The loop may stop at one candidate, without budget, or when neither half fails. */
  lemma StopBisecting(replay: Replay, ids: seq<Id>, maxReplays: nat, current: seq<Id>, calls: nat, spent: nat)
    requires Bisecting(replay, ids, maxReplays, current, calls)
    requires Ends(replay, current, calls, spent, maxReplays) && spent <= maxReplays
    ensures Bisected(replay, ids, maxReplays, current, spent)
  {
    if |current| > 1 {
      assert CeilLog2(|current|) >= 1;
    }
    forall culprit: Id | IsCulprit(replay, ids, culprit) && 2 * CeilLog2(|ids|) <= maxReplays
      ensures current == [culprit]
    {
      CulpritIsFound(replay, ids, current, calls, culprit);
    }
  }

  method Bisect(replay: Replay, ids: seq<Id>, maxReplays: nat) returns (current: seq<Id>, calls: nat)
    requires |ids| > 1
    ensures Bisected(replay, ids, maxReplays, current, calls)
  {
    current, calls := ids, 0;
    assert ids == ids[0..|ids|];
    while |current| > 1 && calls < maxReplays
      invariant Bisecting(replay, ids, maxReplays, current, calls)
      decreases |current|
    {
      var midpoint := |current| / 2;
      var halves := [current[..midpoint], current[midpoint..]];
      var found, after := TryHalves(replay, halves, calls, maxReplays);
      if found == None {
        StopBisecting(replay, ids, maxReplays, current, calls, after);
        calls := after;
        return;
      }
      HalfBisects(replay, ids, maxReplays, current, calls, found.value, after);
      current, calls := found.value, after;
    }
    StopBisecting(replay, ids, maxReplays, current, calls, calls);
  }

  // ----- Disjoint sources

  ghost predicate Independent(a: Candidate, b: Candidate) { a.anchors !! b.anchors && a.objects !! b.objects }

  ghost predicate DisjointSources(candidates: seq<Candidate>) {
    forall i, j :: 0 <= i < j < |candidates| ==> Independent(candidates[i], candidates[j])
  }

  lemma PartIsDisjoint(part: set<Id>, whole: set<Id>, other: set<Id>)
    requires part <= whole && whole * other == {}
    ensures part !! other
  {
    forall x | x in part ensures x !in other {
      assert x in whole * other <==> x in other;
    }
  }

  /** _source_disjoint: the accumulating pass decides pairwise disjointness. */
  method SourceDisjoint(candidates: seq<Candidate>) returns (disjoint: bool)
    ensures disjoint <==> DisjointSources(candidates)
  {
    var seenAnchors: set<Id>, seenObjects: set<Id> := {}, {};
    for i := 0 to |candidates|
      invariant forall k, l :: 0 <= k < l < i ==> Independent(candidates[k], candidates[l])
      invariant forall k :: 0 <= k < i ==> candidates[k].anchors <= seenAnchors && candidates[k].objects <= seenObjects
      invariant forall a <- seenAnchors :: exists k :: 0 <= k < i && a in candidates[k].anchors
      invariant forall o <- seenObjects :: exists k :: 0 <= k < i && o in candidates[k].objects
    {
      var c := candidates[i];
      if seenAnchors * c.anchors != {} || seenObjects * c.objects != {} {
        ghost var k: int;
        if seenAnchors * c.anchors != {} {
          ghost var a :| a in seenAnchors * c.anchors;
          k :| 0 <= k < i && a in candidates[k].anchors;
        } else {
          ghost var o :| o in seenObjects * c.objects;
          k :| 0 <= k < i && o in candidates[k].objects;
        }
        assert !Independent(candidates[k], candidates[i]);
        return false;
      }
      forall k | 0 <= k < i ensures Independent(candidates[k], c) {
        PartIsDisjoint(candidates[k].anchors, seenAnchors, c.anchors);
        PartIsDisjoint(candidates[k].objects, seenObjects, c.objects);
      }
      seenAnchors := seenAnchors + c.anchors;
      seenObjects := seenObjects + c.objects;
    }
    return true;
  }

  // ----- attribute()

  function CandidateIds(candidates: seq<Candidate>): seq<Id> {
    Sort(NatLeq, UnsortedIds(candidates))
  }

  function UnsortedIds(candidates: seq<Candidate>): seq<Id> {
    if candidates == [] then [] else [candidates[0].id] + UnsortedIds(candidates[1..])
  }

  lemma {:induction false} IdsInOrder(candidates: seq<Candidate>, i: nat)
    ensures |UnsortedIds(candidates)| == |candidates|
    ensures i < |candidates| ==> UnsortedIds(candidates)[i] == candidates[i].id
  {
    if candidates != [] {
      IdsInOrder(candidates[1..], if i > 0 then i - 1 else 0);
    }
  }

  /** The ids of the candidates in increasing order, repeated ids as often as they occur. */
  lemma CandidateIdsAre(candidates: seq<Candidate>)
    ensures Sorted(NatLeq, CandidateIds(candidates)) && |CandidateIds(candidates)| == |candidates|
    ensures multiset(CandidateIds(candidates))
         == multiset(seq(|candidates|, i requires 0 <= i < |candidates| => candidates[i].id))
  {
    SortPermutes(NatLeq, UnsortedIds(candidates));
    SortSorts(NatLeq, UnsortedIds(candidates));
    IdsInOrder(candidates, 0);
    forall i | 0 <= i < |candidates| ensures UnsortedIds(candidates)[i] == candidates[i].id {
      IdsInOrder(candidates, i);
    }
    assert UnsortedIds(candidates) == seq(|candidates|, i requires 0 <= i < |candidates| => candidates[i].id);
  }

  /** What an attribution may say, given the budget and the replays. */
  ghost predicate Justified(candidates: seq<Candidate>, cfg: Config, replay: Option<Replay>, r: Result) {
    var ids := CandidateIds(candidates);
    && r.candidates == ids
    && r.replays <= cfg.maxReplays && r.replays <= 2 * CeilLog2(|ids|)
    && (r.causal <==> |ids| == 1 || |r.reproduced| == 1)
    && (r.reproduced != [] ==>
          && replay.Some? && cfg.enabled && cfg.deltaDebug && r.quality == DeltaDebugged
          && Sublist(r.reproduced, ids) && |r.reproduced| < |ids|
          && Reproduced(replay.value, r.reproduced, r.replays))
    && (r.reproduced == [] ==>
          r.quality == if |ids| == 1 then DirectCandidate
                       else if ids != [] && DisjointSources(candidates) then DirectSmallBundle
                       else if ids != [] then BundleOnly else Unknown)
    && (replay.None? || !cfg.enabled || !cfg.deltaDebug || |ids| <= 1 ==> r.reproduced == [] && r.replays == 0)
    && (replay.Some? && cfg.enabled && cfg.deltaDebug && |ids| > 1 ==>
          exists current :: Bisected(replay.value, ids, cfg.maxReplays, current, r.replays)
                            && r.reproduced == if |current| < |ids| then current else [])
    && (replay.Some? && cfg.enabled && cfg.deltaDebug && |ids| > 1 && 2 * CeilLog2(|ids|) <= cfg.maxReplays ==>
          forall culprit: Id :: IsCulprit(replay.value, ids, culprit) ==> r.reproduced == [culprit])
  }

  method Attribute(candidates: seq<Candidate>, removed: seq<Id>, introduced: seq<Id>, cfg: Config,
                   replay: Option<Replay>) returns (r: Result)
    ensures Justified(candidates, cfg, replay, r)
    ensures r.removed == (if r.causal then removed else []) && r.introduced == (if r.causal then introduced else [])
  {
    var ids := CandidateIds(candidates);
    var quality, causal;
    var disjoint := SourceDisjoint(candidates);
    if |ids| == 1 {
      quality, causal := DirectCandidate, true;
    } else if ids != [] && disjoint {
      quality, causal := DirectSmallBundle, false;
    } else {
      quality, causal := if ids != [] then BundleOnly else Unknown, false;
    }
    var calls, reproduced := 0, [];
    if cfg.enabled && cfg.deltaDebug && replay.Some? && |ids| > 1 {
      var current;
      current, calls := Bisect(replay.value, ids, cfg.maxReplays);
      if current != [] && |current| < |ids| {
        quality, reproduced, causal := DeltaDebugged, current, |current| == 1;
      }
    }
    r := Result(quality, ids, if causal then removed else [], if causal then introduced else [],
                reproduced, calls, causal);
  }
}
