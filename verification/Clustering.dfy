/**
  RegionBuilder of src/drc_agent/regions/builder.py: hard links, cap-guarded soft merges, splitting.

  Regions turn out to be the union-find groups themselves: splitting changes none of them, and a region
  over the caps is always one untouched component of hard links.
 */
module Clustering {
  import opened Basics
  import opened Boxes
  import opened Separation
  import opened Orders
  import opened Forests
  import opened UnionFinds

  datatype Object = Object(id: Id, editable: bool)

  datatype Seed = Seed(violation: Id, objects: seq<Object>, seed: Box, halo: Box)

  /** RegionConfig, with max_region_span_um already converted to database units. */
  datatype Config = Config(affinityMaxGap: int, maxMarkers: int, maxObjects: int, maxSpan: int, maxTokens: int)

  // ----- Caps

  function ObjectIdsOf(seed: Seed): set<Id> { set o <- seed.objects :: o.id }

  function ObjectIds(seeds: seq<Seed>): set<Id> { set s <- seeds, o <- s.objects :: o.id }

  /** What _cap_ok means, without the order in which it folds: any two seeds fit in the span together. */
  predicate WithinCaps(cfg: Config, seeds: seq<Seed>) {
    && |seeds| <= cfg.maxMarkers
    && |ObjectIds(seeds)| <= cfg.maxObjects
    && (forall s <- seeds, t <- seeds :: s.seed.x2 - t.seed.x1 <= cfg.maxSpan && s.seed.y2 - t.seed.y1 <= cfg.maxSpan)
    && |seeds| * 180 + |ObjectIds(seeds)| * 80 <= cfg.maxTokens
  }

  /** The box is the smallest one around the seeds. */
  ghost predicate Bounds(box: Box, seeds: seq<Seed>) {
    && (forall s <- seeds :: box.x1 <= s.seed.x1 && s.seed.x2 <= box.x2 && box.y1 <= s.seed.y1 && s.seed.y2 <= box.y2)
    && (exists s <- seeds :: s.seed.x1 == box.x1) && (exists s <- seeds :: s.seed.x2 == box.x2)
    && (exists s <- seeds :: s.seed.y1 == box.y1) && (exists s <- seeds :: s.seed.y2 == box.y2)
  }

  lemma UnionBounds(box: Box, seeds: seq<Seed>, more: Seed)
    requires Bounds(box, seeds)
    ensures Bounds(Union(box, more.seed), seeds + [more])
  {
    var all, joint := seeds + [more], Union(box, more.seed);
    assert more in all && forall s <- seeds :: s in all;
    assert exists s <- all :: s.seed.x1 == joint.x1;
    assert exists s <- all :: s.seed.x2 == joint.x2;
    assert exists s <- all :: s.seed.y1 == joint.y1;
    assert exists s <- all :: s.seed.y2 == joint.y2;
  }

  lemma SpanOfBounds(box: Box, seeds: seq<Seed>, span: int)
    requires Bounds(box, seeds)
    ensures Max(box.Width(), box.Height()) <= span
       <==> forall s <- seeds, t <- seeds :: s.seed.x2 - t.seed.x1 <= span && s.seed.y2 - t.seed.y1 <= span
  {
    var l :| l in seeds && l.seed.x1 == box.x1;
    var r :| r in seeds && r.seed.x2 == box.x2;
    var b :| b in seeds && b.seed.y1 == box.y1;
    var t :| t in seeds && t.seed.y2 == box.y2;
    assert box.Width() == r.seed.x2 - l.seed.x1 && box.Height() == t.seed.y2 - b.seed.y1;
  }

  /** The box after the first n seeds have been folded in, starting from the first seed. */
  function FoldBox(seeds: seq<Seed>, n: nat): Box
    requires n <= |seeds| && seeds != []
  {
    if n == 0 then seeds[0].seed else Union(FoldBox(seeds, n - 1), seeds[n - 1].seed)
  }

  lemma {:induction false} FoldBounds(seeds: seq<Seed>, n: nat)
    requires n <= |seeds| && seeds != []
    ensures Bounds(FoldBox(seeds, n), [seeds[0]] + seeds[..n])
  {
    if n == 0 {
      assert seeds[0] in [seeds[0]] + seeds[..n];
    } else {
      assert [seeds[0]] + seeds[..n] == [seeds[0]] + seeds[..n - 1] + [seeds[n - 1]];
      FoldBounds(seeds, n - 1);
      UnionBounds(FoldBox(seeds, n - 1), [seeds[0]] + seeds[..n - 1], seeds[n - 1]);
    }
  }

  lemma BoundsSameElements(box: Box, seeds: seq<Seed>, others: seq<Seed>)
    requires Bounds(box, seeds) && forall s :: s in seeds <==> s in others
    ensures Bounds(box, others)
  {}

  lemma FoldedSpan(seeds: seq<Seed>, span: int)
    requires seeds != []
    ensures Max(FoldBox(seeds, |seeds|).Width(), FoldBox(seeds, |seeds|).Height()) <= span
       <==> forall s <- seeds, t <- seeds :: s.seed.x2 - t.seed.x1 <= span && s.seed.y2 - t.seed.y1 <= span
  {
    FoldBounds(seeds, |seeds|);
    assert seeds[..|seeds|] == seeds;
    assert seeds[0] in seeds;
    BoundsSameElements(FoldBox(seeds, |seeds|), [seeds[0]] + seeds, seeds);
    SpanOfBounds(FoldBox(seeds, |seeds|), seeds, span);
  }

  lemma ObjectIdsSnoc(seeds: seq<Seed>, n: nat)
    requires n < |seeds|
    ensures ObjectIds(seeds[..n + 1]) == ObjectIds(seeds[..n]) + ObjectIdsOf(seeds[n])
  {
    assert seeds[..n + 1] == seeds[..n] + [seeds[n]];
  }

  method CapOk(cfg: Config, seeds: seq<Seed>) returns (ok: bool)
    requires seeds != []
    ensures ok <==> WithinCaps(cfg, seeds)
  {
    var bbox, objects := seeds[0].seed, {};
    for i := 0 to |seeds|
      invariant bbox == FoldBox(seeds, i) && objects == ObjectIds(seeds[..i])
    {
      ObjectIdsSnoc(seeds, i);
      bbox := Union(bbox, seeds[i].seed);
      objects := objects + ObjectIdsOf(seeds[i]);
    }
    assert seeds[..|seeds|] == seeds;
    FoldedSpan(seeds, cfg.maxSpan);
    ok := |seeds| <= cfg.maxMarkers && |objects| <= cfg.maxObjects
          && Max(bbox.Width(), bbox.Height()) <= cfg.maxSpan
          && |seeds| * 180 + |objects| * 80 <= cfg.maxTokens;
  }

  // ----- Splitting

  function AllObjectIds(seeds: seq<Seed>): seq<Id> {
    if seeds == [] then [] else IdsOf(seeds[0].objects) + AllObjectIds(seeds[1..])
  }

  function IdsOf(objects: seq<Object>): seq<Id> {
    seq(|objects|, i requires 0 <= i < |objects| => objects[i].id)
  }

  /** Some object id is counted twice among the objects of the seeds. */
  predicate SharesObject(seeds: seq<Seed>) {
    exists id <- AllObjectIds(seeds) :: multiset(AllObjectIds(seeds))[id] > 1
  }

  /** Twice the centroid of the seed box along an axis. */
  function Centroid2(s: Seed, horizontal: bool): int {
    if horizontal then s.seed.x1 + s.seed.x2 else s.seed.y1 + s.seed.y2
  }

  function CentroidOrder(horizontal: bool): (Seed, Seed) -> bool {
    (s: Seed, t: Seed) =>
      Centroid2(s, horizontal) < Centroid2(t, horizontal)
      || (Centroid2(s, horizontal) == Centroid2(t, horizontal) && s.violation <= t.violation)
  }

  /** Imbalance of the two sides, less a thousandth of the gap between them. */
  function CutScore(ordered: seq<Seed>, horizontal: bool, cut: nat): real
    requires 0 < cut < |ordered|
  {
    var imbalance := if 2 * cut >= |ordered| then 2 * cut - |ordered| else |ordered| - 2 * cut;
    var gap2 := Centroid2(ordered[cut], horizontal) - Centroid2(ordered[cut - 1], horizontal);
    imbalance as real - gap2 as real * 0.0005
  }

  /** The first cut of least score among 1, ..., upTo. */
  function BestCut(ordered: seq<Seed>, horizontal: bool, upTo: nat): (cut: nat)
    requires 0 < upTo < |ordered|
    ensures 0 < cut <= upTo
    ensures forall c :: 0 < c <= upTo ==> CutScore(ordered, horizontal, cut) <= CutScore(ordered, horizontal, c)
    ensures forall c :: 0 < c < cut ==> CutScore(ordered, horizontal, cut) < CutScore(ordered, horizontal, c)
  {
    if upTo == 1 then 1
    else
      var best := BestCut(ordered, horizontal, upTo - 1);
      if CutScore(ordered, horizontal, upTo) < CutScore(ordered, horizontal, best) then upTo else best
  }

  function Halves(seeds: seq<Seed>): (halves: (seq<Seed>, seq<Seed>))
    requires |seeds| > 1
    ensures 0 < |halves.0| < |seeds| && 0 < |halves.1| < |seeds|
    ensures multiset(halves.0) + multiset(halves.1) == multiset(seeds)
  {
    var bbox := FoldBox(seeds, |seeds|);
    var horizontal := bbox.Width() >= bbox.Height();
    var ordered := Sort(CentroidOrder(horizontal), seeds);
    SortPermutes(CentroidOrder(horizontal), seeds);
    var cut := BestCut(ordered, horizontal, |ordered| - 1);
    assert ordered == ordered[..cut] + ordered[cut..];
    (ordered[..cut], ordered[cut..])
  }

  function Split(cfg: Config, seeds: seq<Seed>): seq<seq<Seed>>
    decreases |seeds|
  {
    if WithinCaps(cfg, seeds) || |seeds| <= 1 then [seeds]
    else if SharesObject(seeds) then [seeds]
    else
      var (left, right) := Halves(seeds);
      Split(cfg, left) + Split(cfg, right)
  }

  function Flatten(pieces: seq<seq<Seed>>): seq<Seed> {
    if pieces == [] then [] else pieces[0] + Flatten(pieces[1..])
  }

  lemma {:induction false} FlattenConcat(p: seq<seq<Seed>>, q: seq<seq<Seed>>)
    ensures Flatten(p + q) == Flatten(p) + Flatten(q)
  {
    if p == [] {
      assert p + q == q;
    } else {
      assert (p + q)[0] == p[0] && (p + q)[1..] == p[1..] + q;
      FlattenConcat(p[1..], q);
      assert p[0] + (Flatten(p[1..]) + Flatten(q)) == p[0] + Flatten(p[1..]) + Flatten(q);
    }
  }

  /** Whatever the cuts, no seed is lost or duplicated, and only shared objects or singletons stay over the caps. */
  lemma {:induction false} SplitPartitions(cfg: Config, seeds: seq<Seed>)
    ensures multiset(Flatten(Split(cfg, seeds))) == multiset(seeds)
    ensures forall piece <- Split(cfg, seeds) :: WithinCaps(cfg, piece) || |piece| <= 1 || SharesObject(piece)
    decreases |seeds|
  {
    if WithinCaps(cfg, seeds) || |seeds| <= 1 || SharesObject(seeds) {
      assert Flatten([seeds]) == seeds + Flatten([]) == seeds;
    } else {
      var (left, right) := Halves(seeds);
      SplitPartitions(cfg, left);
      SplitPartitions(cfg, right);
      FlattenConcat(Split(cfg, left), Split(cfg, right));
    }
  }

  // ----- Hard and soft links

  function EditableIds(seed: Seed): set<Id> { set o <- seed.objects | o.editable :: o.id }

  predicate NearEnough(cfg: Config, a: Seed, b: Seed) {
    cfg.affinityMaxGap >= 0 && GapSquared(a.halo, b.halo) <= cfg.affinityMaxGap * cfg.affinityMaxGap
  }

  /** Two violations near each other that share an editable object. */
  predicate HardLink(cfg: Config, a: Seed, b: Seed) {
    NearEnough(cfg, a, b) && EditableIds(a) * EditableIds(b) != {}
  }

  /** The soft evidence of a pair: its merge flag and its two floating-point sort keys, as any function of the seeds. */
  datatype Evidence = Evidence(merge: bool, overlap: real, gapScore: real)

  datatype Edge = Edge(u: Id, v: Id, evidence: Evidence)

  /** Larger overlap first, then larger gap score, then the two ids. */
  predicate EdgeOrder(e: Edge, f: Edge) {
    var x, y := e.evidence, f.evidence;
    || x.overlap > y.overlap
    || (x.overlap == y.overlap
        && (x.gapScore > y.gapScore
            || (x.gapScore == y.gapScore && (e.u < f.u || (e.u == f.u && e.v <= f.v)))))
  }

  /** The dict from violation id to seed; a repeated id keeps its last seed. */
  function SeedDict(seeds: seq<Seed>): (dict: map<Id, Seed>)
    ensures dict.Keys == set s <- seeds :: s.violation
    ensures forall id <- dict :: dict[id].violation == id
  {
    if seeds == [] then map[]
    else
      var last := seeds[|seeds| - 1];
      assert seeds == seeds[..|seeds| - 1] + [last];
      SeedDict(seeds[..|seeds| - 1])[last.violation := last]
  }

  function SeedsOf(dict: map<Id, Seed>, ids: seq<Id>): seq<Seed>
    requires forall x <- ids :: x in dict
  {
    seq(|ids|, i requires 0 <= i < |ids| => dict[ids[i]])
  }

  ghost function HardEdges(cfg: Config, dict: map<Id, Seed>): Edges {
    set x <- dict.Keys, y <- dict.Keys | x < y && HardLink(cfg, dict[x], dict[y]) :: (x, y)
  }

  /** The hard links from ids[index] to ids[index + 1], ..., ids[j - 1]. */
  ghost function RowEdges(cfg: Config, dict: map<Id, Seed>, ids: seq<Id>, index: nat, j: nat): Edges
    requires index < |ids| && j <= |ids| && forall x <- ids :: x in dict
  {
    if j <= index + 1 then {}
    else RowEdges(cfg, dict, ids, index, j - 1)
         + if HardLink(cfg, dict[ids[index]], dict[ids[j - 1]]) then {(ids[index], ids[j - 1])} else {}
  }

  /** The hard links of the rows before index. */
  ghost function EdgesBefore(cfg: Config, dict: map<Id, Seed>, ids: seq<Id>, index: nat): Edges
    requires index <= |ids| && forall x <- ids :: x in dict
  {
    if index == 0 then {}
    else EdgesBefore(cfg, dict, ids, index - 1) + RowEdges(cfg, dict, ids, index - 1, |ids|)
  }

  lemma RowStep(cfg: Config, dict: map<Id, Seed>, ids: seq<Id>, index: nat, j: nat, before: Edges, linked: Edges)
    requires index < j < |ids| && forall x <- ids :: x in dict
    requires linked == before + RowEdges(cfg, dict, ids, index, j)
    ensures HardLink(cfg, dict[ids[index]], dict[ids[j]]) ==>
      linked + {(ids[index], ids[j])} == before + RowEdges(cfg, dict, ids, index, j + 1)
    ensures !HardLink(cfg, dict[ids[index]], dict[ids[j]]) ==>
      linked == before + RowEdges(cfg, dict, ids, index, j + 1)
  {}

  lemma {:induction false} RowEdgesAre(cfg: Config, dict: map<Id, Seed>, ids: seq<Id>, index: nat, j: nat)
    requires index < |ids| && j <= |ids| && Increasing(ids) && forall x <- ids :: x in dict
    ensures forall e :: e in RowEdges(cfg, dict, ids, index, j) <==>
      e.0 == ids[index] && e.0 < e.1 && e.1 in ids[..j] && HardLink(cfg, dict[e.0], dict[e.1])
  {
    if j > index + 1 {
      RowEdgesAre(cfg, dict, ids, index, j - 1);
      assert ids[..j] == ids[..j - 1] + [ids[j - 1]];
    } else {
      forall x | x in ids[..j] ensures x <= ids[index] {
        var k :| 0 <= k < j && ids[k] == x;
      }
    }
  }

  lemma {:induction false} EdgesBeforeAre(cfg: Config, dict: map<Id, Seed>, ids: seq<Id>, index: nat)
    requires index <= |ids| && Increasing(ids) && forall x <- ids :: x in dict
    ensures forall e :: e in EdgesBefore(cfg, dict, ids, index) <==>
      e.0 in ids[..index] && e.0 < e.1 && e.1 in ids && HardLink(cfg, dict[e.0], dict[e.1])
  {
    if index > 0 {
      EdgesBeforeAre(cfg, dict, ids, index - 1);
      RowEdgesAre(cfg, dict, ids, index - 1, |ids|);
      assert ids[..index] == ids[..index - 1] + [ids[index - 1]] && ids[..|ids|] == ids;
    }
  }

  lemma AllEdges(cfg: Config, dict: map<Id, Seed>, ids: seq<Id>)
    requires Increasing(ids) && forall x: Id :: x in ids <==> x in dict
    ensures EdgesBefore(cfg, dict, ids, |ids|) == HardEdges(cfg, dict)
  {
    EdgesBeforeAre(cfg, dict, ids, |ids|);
    assert ids[..|ids|] == ids;
  }

  // ----- Links and seeds, told by fields

  /** Near means that some points of the halos are at most the largest gap apart. */
  lemma NearIsReach(cfg: Config, a: Seed, b: Seed)
    ensures NearEnough(cfg, a, b) <==>
            cfg.affinityMaxGap >= 0 && WithinReach(a.halo, b.halo, cfg.affinityMaxGap)
  {
    if cfg.affinityMaxGap >= 0 {
      ReachBySquares(a.halo, b.halo, cfg.affinityMaxGap * cfg.affinityMaxGap);
    }
  }

  ghost predicate ShareEditable(a: Seed, b: Seed) {
    exists o <- a.objects, p <- b.objects :: o.editable && p.editable && o.id == p.id
  }

  lemma HardLinkIff(cfg: Config, a: Seed, b: Seed)
    ensures HardLink(cfg, a, b) <==> NearEnough(cfg, a, b) && ShareEditable(a, b)
  {
    if id :| id in EditableIds(a) * EditableIds(b) {
      var o :| o in a.objects && o.editable && o.id == id;
      var p :| p in b.objects && p.editable && p.id == id;
      assert ShareEditable(a, b);
    }
    if o, p :| o in a.objects && p in b.objects && o.editable && p.editable && o.id == p.id {
      assert o.id in EditableIds(a) * EditableIds(b);
    }
  }

  /** The dict holds the last seed of each violation. */
  lemma {:induction false} SeedDictIsLast(seeds: seq<Seed>, i: nat)
    requires i < |seeds| && forall j :: i < j < |seeds| ==> seeds[j].violation != seeds[i].violation
    ensures seeds[i].violation in SeedDict(seeds) && SeedDict(seeds)[seeds[i].violation] == seeds[i]
  {
    var n := |seeds| - 1;
    if i < n {
      assert seeds[n].violation != seeds[i].violation;
      SeedDictIsLast(seeds[..n], i);
    }
  }

  /** Object k of seed i, as a place where its id occurs. */
  ghost predicate Occurs(seeds: seq<Seed>, id: Id, i: nat, k: nat) {
    i < |seeds| && k < |seeds[i].objects| && seeds[i].objects[k].id == id
  }

  ghost predicate OccursAtAll(seeds: seq<Seed>, id: Id) {
    exists i: nat, k: nat :: Occurs(seeds, id, i, k)
  }

  ghost predicate OccursTwice(seeds: seq<Seed>, id: Id) {
    exists i: nat, k: nat, j: nat, l: nat ::
      Occurs(seeds, id, i, k) && Occurs(seeds, id, j, l) && (i < j || (i == j && k < l))
  }

  lemma {:induction false} CountAtLeast(ids: seq<Id>, id: Id)
    ensures multiset(ids)[id] > 0 <==> exists k :: 0 <= k < |ids| && ids[k] == id
    ensures multiset(ids)[id] > 1 <==> exists k, l :: 0 <= k < l < |ids| && ids[k] == ids[l] == id
  {
    assert id in multiset(ids) <==> id in ids;
    if ids != [] {
      var rest := ids[1..];
      assert ids == [ids[0]] + rest;
      CountAtLeast(rest, id);
      assert id in multiset(rest) <==> id in rest;
      if k, l :| 0 <= k < l < |rest| && rest[k] == rest[l] == id {
        assert ids[k + 1] == ids[l + 1] == id;
      }
      if k, l :| 0 <= k < l < |ids| && ids[k] == ids[l] == id {
        assert rest[l - 1] == id;
        assert k > 0 ==> rest[k - 1] == id;
      }
      if ids[0] == id && id in rest {
        var l :| 0 <= l < |rest| && rest[l] == id;
        assert ids[0] == ids[l + 1] == id;
      }
    }
  }

  lemma {:induction false} OccursCount(seeds: seq<Seed>, id: Id)
    ensures multiset(AllObjectIds(seeds))[id] > 0 <==> OccursAtAll(seeds, id)
  {
    if seeds != [] {
      var head, rest := IdsOf(seeds[0].objects), seeds[1..];
      OccursCount(rest, id);
      CountAtLeast(head, id);
      if k: nat :| k < |head| && head[k] == id {
        assert Occurs(seeds, id, 0, k);
      }
      if i: nat, k: nat :| Occurs(rest, id, i, k) {
        assert Occurs(seeds, id, i + 1, k);
      }
      if i: nat, k: nat :| Occurs(seeds, id, i, k) {
        assert if i == 0 then head[k] == id else Occurs(rest, id, i - 1, k);
      }
    }
  }

  lemma TwiceOfParts(seeds: seq<Seed>, id: Id)
    requires seeds != []
    requires var (head, rest) := (IdsOf(seeds[0].objects), seeds[1..]);
             || multiset(head)[id] > 1 || (multiset(head)[id] > 0 && OccursAtAll(rest, id)) || OccursTwice(rest, id)
    ensures OccursTwice(seeds, id)
  {
    var head, rest := IdsOf(seeds[0].objects), seeds[1..];
    CountAtLeast(head, id);
    if k, l :| 0 <= k < l < |head| && head[k] == head[l] == id {
      assert Occurs(seeds, id, 0, k) && Occurs(seeds, id, 0, l);
    } else if multiset(head)[id] > 0 {
      var k :| 0 <= k < |head| && head[k] == id;
      var j: nat, l: nat :| Occurs(rest, id, j, l);
      assert Occurs(seeds, id, 0, k) && Occurs(seeds, id, j + 1, l);
    } else {
      var i: nat, k: nat, j: nat, l: nat :|
        Occurs(rest, id, i, k) && Occurs(rest, id, j, l) && (i < j || (i == j && k < l));
      assert Occurs(seeds, id, i + 1, k) && Occurs(seeds, id, j + 1, l);
    }
  }

  lemma PartsOfTwice(seeds: seq<Seed>, id: Id)
    requires OccursTwice(seeds, id)
    ensures seeds != []
    ensures var (head, rest) := (IdsOf(seeds[0].objects), seeds[1..]);
            || multiset(head)[id] > 1 || (multiset(head)[id] > 0 && OccursAtAll(rest, id)) || OccursTwice(rest, id)
  {
    var i: nat, k: nat, j: nat, l: nat :|
      Occurs(seeds, id, i, k) && Occurs(seeds, id, j, l) && (i < j || (i == j && k < l));
    var head, rest := IdsOf(seeds[0].objects), seeds[1..];
    CountAtLeast(head, id);
    if i > 0 {
      assert Occurs(rest, id, i - 1, k) && Occurs(rest, id, j - 1, l);
    } else if j > 0 {
      assert head[k] == id && Occurs(rest, id, j - 1, l);
    } else {
      assert head[k] == head[l] == id;
    }
  }

  lemma {:induction false} TwiceCount(seeds: seq<Seed>, id: Id)
    ensures multiset(AllObjectIds(seeds))[id] > 1 <==> OccursTwice(seeds, id)
  {
    if seeds != [] {
      OccursCount(seeds[1..], id);
      TwiceCount(seeds[1..], id);
      if multiset(AllObjectIds(seeds))[id] > 1 {
        TwiceOfParts(seeds, id);
      }
      if OccursTwice(seeds, id) {
        PartsOfTwice(seeds, id);
      }
    }
  }

  /** Splitting stops when some object occurs twice among the seeds, in one seed or in two. */
  lemma SharesObjectIff(seeds: seq<Seed>)
    ensures SharesObject(seeds) <==> exists id :: OccursTwice(seeds, id)
  {
    forall id ensures multiset(AllObjectIds(seeds))[id] > 1 <==> OccursTwice(seeds, id) {
      TwiceCount(seeds, id);
    }
    if id :| OccursTwice(seeds, id) {
      assert id in multiset(AllObjectIds(seeds));
    }
  }
}
