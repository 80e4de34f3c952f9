/**
  RegionBuilder.build of src/drc_agent/regions/builder.py: the hard-merge phase, the cap-guarded soft-merge
  phase, splitting and coverage, for every violation list and every soft-link score.
 */
module RegionBuild {
  import opened Orders
  import opened Forests
  import opened UnionFinds
  import opened Clustering
  import opened SoftMerges
  import opened SoftOrder

  datatype Region = Region(violationIds: seq<Id>, oversized: bool)

  // ----- What a clustering promises

  ghost predicate HardConnected(cfg: Config, dict: map<Id, Seed>, x: Id, y: Id) {
    Connected(HardEdges(cfg, dict), x, y)
  }

  ghost predicate InRegion(regions: seq<Region>, x: Id) {
    exists r :: 0 <= r < |regions| && x in regions[r].violationIds
  }

  /** Within the caps, or exactly one hard component: a lone violation, or several that share an object. */
  ghost predicate Explained(cfg: Config, dict: map<Id, Seed>, region: Region)
  {
    var ids := region.violationIds;
    && ids != [] && Increasing(ids) && (forall x <- ids :: x in dict)
    && (region.oversized <==> !WithinCaps(cfg, SeedsOf(dict, ids)))
    && (region.oversized ==>
          && (forall y <- dict.Keys :: y in ids <==> HardConnected(cfg, dict, ids[0], y))
          && (|ids| == 1 || SharesObject(SeedsOf(dict, ids))))
  }

  /** Regions partition the violations, and hard-linked violations are never separated. */
  ghost predicate ValidRegions(cfg: Config, dict: map<Id, Seed>, regions: seq<Region>) {
    && (forall x <- dict.Keys :: InRegion(regions, x))
    && (forall r, q :: 0 <= r < q < |regions| ==> Disjoint(regions[r].violationIds, regions[q].violationIds))
    && (forall r :: 0 <= r < |regions| ==> Explained(cfg, dict, regions[r]))
    && (forall r, x, y ::
          (0 <= r < |regions| && x in regions[r].violationIds && y in dict && HardConnected(cfg, dict, x, y))
          ==> y in regions[r].violationIds)
  }

  // ----- From groups to regions

  ghost predicate UntouchedOrCapped(cfg: Config, dict: map<Id, Seed>, hard: map<Id, Id>, group: seq<Id>)
    requires Forest(hard) && hard.Keys == dict.Keys
  {
    && group != [] && Increasing(group) && (forall x <- group :: x in dict)
    && (WithinCaps(cfg, SeedsOf(dict, group)) || forall y <- dict.Keys :: y in group <==> Same(hard, group[0], y))
  }

  lemma GroupUntouchedOrCapped(cfg: Config, dict: map<Id, Seed>, ids: seq<Id>, hard: map<Id, Id>, parent: map<Id, Id>,
                               groups: seq<seq<Id>>, g: nat)
    requires SoftInvariant(cfg, dict, ids, hard, parent) && IsGrouping(parent, groups) && g < |groups|
    ensures UntouchedOrCapped(cfg, dict, hard, groups[g])
  {
    var r := GroupIsMembers(dict, ids, parent, groups, g);
    assert ClassOk(cfg, dict, ids, hard, parent, r);
    MembersAre(parent, r, ids);
    MembersAre(hard, r, ids);
    assert groups[g][0] in groups[g];
  }

  lemma GroupIsMembers(dict: map<Id, Seed>, ids: seq<Id>, parent: map<Id, Id>, groups: seq<seq<Id>>, g: nat)
    returns (r: Id)
    requires DictIds(dict, ids) && Forest(parent) && parent.Keys == dict.Keys
    requires IsGrouping(parent, groups) && g < |groups|
    ensures AllIn(parent, ids) && r in dict && Root(parent, r) == r && groups[g] == Members(parent, r, ids) != []
  {
    var ids': seq<Id> :| SortedKeys(parent, ids') && GroupsOf(parent, ids', groups);
    assert SortedKeys(parent, ids);
    SortedKeysUnique(parent, ids, parent, ids');
    RootsAre(parent, ids);
    r := Roots(parent, ids)[g];
    assert r in Roots(parent, ids);
    GroupAt(parent, ids, groups, g);
  }

  lemma {:induction false} IdsAppear(seeds: seq<Seed>, i: nat, id: Id)
    requires i < |seeds| && exists o <- seeds[i].objects :: o.id == id
    ensures multiset(AllObjectIds(seeds))[id] >= 1
  {
    if i == 0 {
      var k :| 0 <= k < |seeds[0].objects| && seeds[0].objects[k].id == id;
      assert IdsOf(seeds[0].objects)[k] == id;
    } else {
      IdsAppear(seeds[1..], i - 1, id);
    }
  }

  /** An id among the objects of two different seeds is counted twice. */
  lemma {:induction false} IdsAppearTwice(seeds: seq<Seed>, i: nat, j: nat, id: Id)
    requires i < j < |seeds|
    requires (exists o <- seeds[i].objects :: o.id == id) && exists o <- seeds[j].objects :: o.id == id
    ensures multiset(AllObjectIds(seeds))[id] >= 2
  {
    if i == 0 {
      var k :| 0 <= k < |seeds[0].objects| && seeds[0].objects[k].id == id;
      assert IdsOf(seeds[0].objects)[k] == id;
      IdsAppear(seeds[1..], j - 1, id);
    } else {
      IdsAppearTwice(seeds[1..], i - 1, j - 1, id);
    }
  }

  /** A hard component of two or more violations shares an object, so splitting leaves it alone. */
  lemma ComponentSharesObject(cfg: Config, dict: map<Id, Seed>, group: seq<Id>)
    requires |group| > 1 && Increasing(group) && forall x <- group :: x in dict
    requires forall y <- dict.Keys :: y in group <==> HardConnected(cfg, dict, group[0], y)
    ensures SharesObject(SeedsOf(dict, group))
  {
    assert group[1] in group;
    var p: seq<Id> :| IsChain(HardEdges(cfg, dict), p) && p[0] == group[0] && p[|p| - 1] == group[1];
    var x, y := p[0], p[1];
    assert Linked(HardEdges(cfg, dict), x, y);
    ConnectedByLink(HardEdges(cfg, dict), x, y);
    var j :| 0 <= j < |group| && group[j] == y;
    var id :| id in EditableIds(dict[x]) * EditableIds(dict[y]);
    var seeds := SeedsOf(dict, group);
    assert exists o <- seeds[0].objects :: o.id == id;
    assert exists o <- seeds[j].objects :: o.id == id;
    IdsAppearTwice(seeds, 0, j, id);
    assert id in multiset(AllObjectIds(seeds));
  }

  /** The region of a group: its ids, flagged when they are over the caps. */
  ghost predicate RegionOf(cfg: Config, dict: map<Id, Seed>, group: seq<Id>, region: Region) {
    && (forall x <- group :: x in dict)
    && region == Region(group, !WithinCaps(cfg, SeedsOf(dict, group)))
  }

  lemma GroupIsExplained(cfg: Config, dict: map<Id, Seed>, hard: map<Id, Id>, group: seq<Id>, region: Region)
    requires Represents(hard, HardEdges(cfg, dict)) && hard.Keys == dict.Keys
    requires UntouchedOrCapped(cfg, dict, hard, group) && RegionOf(cfg, dict, group, region)
    ensures Explained(cfg, dict, region)
  {
    if region.oversized {
      forall y | y in dict ensures y in group <==> HardConnected(cfg, dict, group[0], y) {
        assert group[0] in group;
        assert Same(hard, group[0], y) <==> Connected(HardEdges(cfg, dict), group[0], y);
      }
      if |group| > 1 {
        ComponentSharesObject(cfg, dict, group);
      }
    }
  }

  /** Splitting returns the group itself. */
  lemma GroupIsNotSplit(cfg: Config, dict: map<Id, Seed>, hard: map<Id, Id>, group: seq<Id>)
    requires Represents(hard, HardEdges(cfg, dict)) && hard.Keys == dict.Keys
    requires UntouchedOrCapped(cfg, dict, hard, group) && forall id <- dict :: dict[id].violation == id
    ensures Split(cfg, SeedsOf(dict, group)) == [SeedsOf(dict, group)]
    ensures ViolationIds(SeedsOf(dict, group)) == group
  {
    GroupIsExplained(cfg, dict, hard, group, Region(group, !WithinCaps(cfg, SeedsOf(dict, group))));
  }

  /** Hard-linked violations end up in one group. */
  lemma HardTogether(cfg: Config, dict: map<Id, Seed>, hard: map<Id, Id>, parent: map<Id, Id>,
                     groups: seq<seq<Id>>, g: nat, x: Id, y: Id)
    requires Represents(hard, HardEdges(cfg, dict)) && hard.Keys == parent.Keys == dict.Keys
    requires Forest(parent) && Coarser(hard, parent) && PartitionsInto(parent, groups) && g < |groups|
    requires x in groups[g] && y in dict && HardConnected(cfg, dict, x, y)
    ensures y in groups[g]
  {
    assert IsClass(parent, groups[g]);
    assert Same(parent, groups[g][0], x);
    assert Same(hard, x, y);
    assert Same(parent, x, y);
  }

  lemma RegionsAreValid(cfg: Config, dict: map<Id, Seed>, ids: seq<Id>, hard: map<Id, Id>, parent: map<Id, Id>,
                        groups: seq<seq<Id>>, regions: seq<Region>)
    requires Represents(hard, HardEdges(cfg, dict)) && SoftInvariant(cfg, dict, ids, hard, parent)
    requires IsGrouping(parent, groups) && |regions| == |groups|
    requires forall g :: 0 <= g < |groups| ==> RegionOf(cfg, dict, groups[g], regions[g])
    ensures ValidRegions(cfg, dict, regions)
  {
    GroupingPartitions(parent, groups);
    forall x | x in dict ensures InRegion(regions, x) {
      InSomeRegion(groups, regions, x);
    }
    forall r | 0 <= r < |regions| ensures Explained(cfg, dict, regions[r]) {
      GroupUntouchedOrCapped(cfg, dict, ids, hard, parent, groups, r);
      GroupIsExplained(cfg, dict, hard, groups[r], regions[r]);
    }
    forall r, q | 0 <= r < q < |regions| ensures Disjoint(regions[r].violationIds, regions[q].violationIds) {
      assert Disjoint(groups[r], groups[q]);
    }
    forall r, x, y | 0 <= r < |regions| && x in regions[r].violationIds && y in dict && HardConnected(cfg, dict, x, y)
      ensures y in regions[r].violationIds
    {
      HardTogether(cfg, dict, hard, parent, groups, r, x, y);
    }
  }

  lemma InSomeRegion(groups: seq<seq<Id>>, regions: seq<Region>, x: Id)
    requires |regions| == |groups| && forall g :: 0 <= g < |groups| ==> regions[g].violationIds == groups[g]
    requires InSome(groups, x)
    ensures InRegion(regions, x)
  {
    var g :| 0 <= g < |groups| && x in groups[g];
    assert x in regions[g].violationIds;
  }

  // ----- The code

  ghost predicate RowOf(cfg: Config, dict: map<Id, Seed>, ids: seq<Id>, index: nat, j: nat,
                        evidence: (Seed, Seed) -> Evidence, edges: seq<Edge>)
    requires index < j <= |ids|
  {
    forall e {:trigger e in edges} :: e in edges <==>
      IsEdge(cfg, dict, evidence, e) && e.u == ids[index] && e.v in ids[index + 1..j]
  }

  lemma RowOfStep(cfg: Config, dict: map<Id, Seed>, ids: seq<Id>, index: nat, j: nat,
                  evidence: (Seed, Seed) -> Evidence, edges: seq<Edge>)
    requires DictIds(dict, ids) && index < j < |ids| && RowOf(cfg, dict, ids, index, j, evidence, edges)
    ensures var e := Edge(ids[index], ids[j], evidence(dict[ids[index]], dict[ids[j]]));
            RowOf(cfg, dict, ids, index, j + 1, evidence,
                  if NearEnough(cfg, dict[ids[index]], dict[ids[j]]) then edges + [e] else edges)
  {
    assert ids[index + 1..j + 1] == ids[index + 1..j] + [ids[j]];
  }

  /** The pair that the row meets next is not in it. */
  lemma RowIsNew(cfg: Config, dict: map<Id, Seed>, ids: seq<Id>, index: nat, j: nat,
                 evidence: (Seed, Seed) -> Evidence, edges: seq<Edge>)
    requires Increasing(ids) && index < j < |ids| && RowOf(cfg, dict, ids, index, j, evidence, edges)
    ensures forall k :: 0 <= k < |edges| ==> Pair(edges[k]) != (ids[index], ids[j])
  {
    forall k | 0 <= k < |edges| ensures edges[k].v != ids[j] {
      assert edges[k] in edges;
      var l :| 0 <= l < j - index - 1 && ids[index + 1..j][l] == edges[k].v;
      assert ids[index + 1 + l] < ids[j];
    }
  }

  /** Rows of different violations have no pair in common. */
  lemma RowsAreApart(cfg: Config, dict: map<Id, Seed>, ids: seq<Id>, index: nat,
                     evidence: (Seed, Seed) -> Evidence, edges: seq<Edge>, row: seq<Edge>)
    requires Increasing(ids) && index < |ids| && RowsOf(cfg, dict, ids, index, evidence, edges) && OncePerPair(edges)
    requires RowOf(cfg, dict, ids, index, |ids|, evidence, row) && OncePerPair(row)
    ensures OncePerPair(edges + row)
  {
    var all := edges + row;
    forall i, j | 0 <= i < j < |all| ensures Pair(all[i]) != Pair(all[j]) {
      if i < |edges| <= j {
        assert edges[i] in edges && row[j - |edges|] in row;
        var k :| 0 <= k < index && ids[..index][k] == edges[i].u;
        assert ids[k] < ids[index];
      }
    }
  }

  /** The inner loop: everything after ids[index] that is near it, with a union for each hard link. */
  method HardRow(cfg: Config, dict: map<Id, Seed>, ids: seq<Id>, index: nat, evidence: (Seed, Seed) -> Evidence,
                 uf: UnionFind, ghost before: Edges) returns (edges: seq<Edge>, ghost linked: Edges)
    requires DictIds(dict, ids) && index < |ids| && (forall id <- dict :: dict[id].violation == id)
    requires uf.Valid() && uf.parent.Keys == dict.Keys && Represents(uf.parent, before)
    requires forall e <- before :: e.0 in dict && e.1 in dict
    modifies uf
    ensures uf.Valid() && uf.parent.Keys == dict.Keys && Represents(uf.parent, linked)
    ensures linked == before + RowEdges(cfg, dict, ids, index, |ids|)
    ensures forall e <- linked :: e.0 in dict && e.1 in dict
    ensures RowOf(cfg, dict, ids, index, |ids|, evidence, edges) && OncePerPair(edges)
  {
    edges, linked := [], before;
    var a := dict[ids[index]];
    for j := index + 1 to |ids|
      invariant uf.Valid() && uf.parent.Keys == dict.Keys && Represents(uf.parent, linked)
      invariant linked == before + RowEdges(cfg, dict, ids, index, j)
      invariant forall e <- linked :: e.0 in dict && e.1 in dict
      invariant RowOf(cfg, dict, ids, index, j, evidence, edges) && OncePerPair(edges)
    {
      var b := dict[ids[j]];
      RowStep(cfg, dict, ids, index, j, before, linked);
      RowOfStep(cfg, dict, ids, index, j, evidence, edges);
      if !NearEnough(cfg, a, b) {
        continue;
      }
      if HardLink(cfg, a, b) {
        AddEdge(uf, a.violation, b.violation, linked);
        linked := linked + {(ids[index], ids[j])};
      }
      RowIsNew(cfg, dict, ids, index, j, evidence, edges);
      edges := edges + [Edge(a.violation, b.violation, evidence(a, b))];
    }
  }

  ghost predicate RowsOf(cfg: Config, dict: map<Id, Seed>, ids: seq<Id>, index: nat,
                         evidence: (Seed, Seed) -> Evidence, edges: seq<Edge>)
    requires index <= |ids|
  {
    forall e {:trigger e in edges} :: e in edges <==> IsEdge(cfg, dict, evidence, e) && e.u in ids[..index]
  }

  lemma RowsOfStep(cfg: Config, dict: map<Id, Seed>, ids: seq<Id>, index: nat, evidence: (Seed, Seed) -> Evidence,
                   edges: seq<Edge>, row: seq<Edge>)
    requires DictIds(dict, ids) && index < |ids| && RowsOf(cfg, dict, ids, index, evidence, edges)
    requires RowOf(cfg, dict, ids, index, |ids|, evidence, row)
    ensures RowsOf(cfg, dict, ids, index + 1, evidence, edges + row)
  {
    assert ids[..index + 1] == ids[..index] + [ids[index]];
    assert ids[index + 1..|ids|] == ids[index + 1..];
    forall e | IsEdge(cfg, dict, evidence, e) && e.u == ids[index] ensures e in row {
      LaterIds(ids, index, e.v);
    }
  }

  method HardPhase(cfg: Config, dict: map<Id, Seed>, ids: seq<Id>, evidence: (Seed, Seed) -> Evidence, uf: UnionFind)
    returns (edges: seq<Edge>)
    requires DictIds(dict, ids) && (forall id <- dict :: dict[id].violation == id)
    requires uf.Valid() && uf.parent.Keys == dict.Keys && Represents(uf.parent, {})
    modifies uf
    ensures uf.Valid() && uf.parent.Keys == dict.Keys && Represents(uf.parent, HardEdges(cfg, dict))
    ensures AreEdges(cfg, dict, evidence, edges) && OncePerPair(edges)
  {
    edges := [];
    ghost var linked: Edges := {};
    for index := 0 to |ids|
      invariant uf.Valid() && uf.parent.Keys == dict.Keys && Represents(uf.parent, linked)
      invariant linked == EdgesBefore(cfg, dict, ids, index)
      invariant forall e <- linked :: e.0 in dict && e.1 in dict
      invariant RowsOf(cfg, dict, ids, index, evidence, edges) && OncePerPair(edges)
    {
      var row;
      row, linked := HardRow(cfg, dict, ids, index, evidence, uf, linked);
      RowsOfStep(cfg, dict, ids, index, evidence, edges, row);
      RowsAreApart(cfg, dict, ids, index, evidence, edges, row);
      edges := edges + row;
    }
    assert ids[..|ids|] == ids;
    AllEdges(cfg, dict, ids);
  }

  /** The seeds whose class is that of u or of v, in id order. */
  method Touching(uf: UnionFind, ids: seq<Id>, u: Id, v: Id) returns (members: seq<Id>)
    requires uf.Valid() && AllIn(uf.parent, ids) && u in uf.parent && v in uf.parent
    modifies uf
    ensures uf.Valid() && SameRoots(old(uf.parent), uf.parent)
    ensures members == Joint(old(uf.parent), Root(old(uf.parent), u), Root(old(uf.parent), v), ids)
    ensures forall x <- members :: x in ids
  {
    members := [];
    ghost var start := uf.parent;
    for i := 0 to |ids|
      invariant uf.Valid() && SameRoots(start, uf.parent) && AllIn(start, ids[..i])
      invariant members == Joint(start, Root(start, u), Root(start, v), ids[..i])
      invariant forall x <- members :: x in ids
    {
      assert ids[..i + 1][..i] == ids[..i];
      var item := uf.Find(ids[i]);
      var left := uf.Find(u);
      var right := uf.Find(v);
      if item == left || item == right {
        members := members + [ids[i]];
      }
    }
    assert ids[..|ids|] == ids;
  }

  /** One round of the loop over soft edges. */
  method SoftRound(cfg: Config, dict: map<Id, Seed>, ids: seq<Id>, edge: Edge, uf: UnionFind,
                   ghost hard: map<Id, Id>, ghost links: Edges, ghost done: seq<Edge>)
    requires SoftTurn(cfg, dict, ids, hard, uf.parent, links, done) && uf.Valid() && EdgeFits(dict, links, edge)
    modifies uf
    ensures uf.Valid() && SoftTurn(cfg, dict, ids, hard, uf.parent, links, done + [edge])
  {
    if !edge.evidence.merge {
      TurnedDown(cfg, dict, ids, uf.parent, done, edge);
      SettledSnoc(cfg, dict, ids, uf.parent, done, edge);
      return;
    }
    ghost var start := uf.parent;
    var left := uf.Find(edge.u);
    var right := uf.Find(edge.v);
    SoftStateKeep(cfg, dict, ids, hard, start, uf.parent, links, done);
    TurnedKeep(cfg, dict, start, uf.parent, done);
    if left == right {
      TurnedDown(cfg, dict, ids, uf.parent, done, edge);
      SettledSnoc(cfg, dict, ids, uf.parent, done, edge);
      return;
    }
    ghost var found := uf.parent;
    var members := Touching(uf, ids, edge.u, edge.v);
    SoftStateKeep(cfg, dict, ids, hard, found, uf.parent, links, done);
    TurnedKeep(cfg, dict, found, uf.parent, done);
    JointSameRoots(found, uf.parent, Root(found, edge.u), Root(found, edge.v), ids);
    JointNonEmpty(found, edge.u, edge.v, ids);
    var ok := CapOk(cfg, SeedsOf(dict, members));
    if ok {
      ghost var before := uf.parent;
      uf.Union(edge.u, edge.v);
      SoftStateMerge(cfg, dict, ids, hard, before, uf.parent, links, done, edge, members);
      TurnedMerge(cfg, dict, ids, before, uf.parent, done, edge);
    } else {
      TurnedDown(cfg, dict, ids, uf.parent, done, edge);
      SettledSnoc(cfg, dict, ids, uf.parent, done, edge);
    }
  }

  /** The loop over soft edges, up to the edges done. */
  ghost predicate SoftTurn(cfg: Config, dict: map<Id, Seed>, ids: seq<Id>, hard: map<Id, Id>, parent: map<Id, Id>,
                           links: Edges, done: seq<Edge>)
  {
    SoftState(cfg, dict, ids, hard, parent, links, done) && Turned(cfg, dict, parent, done)
  }

  ghost predicate EdgeFits(dict: map<Id, Seed>, links: Edges, e: Edge) {
    e.u in dict && e.v in dict && (e.evidence.merge ==> (e.u, e.v) in links)
  }

  lemma SoftTurnStart(cfg: Config, dict: map<Id, Seed>, ids: seq<Id>, hard: map<Id, Id>, links: Edges)
    requires DictIds(dict, ids) && hard.Keys == dict.Keys && Represents(hard, HardEdges(cfg, dict))
    requires Grown(hard, links)
    ensures SoftTurn(cfg, dict, ids, hard, hard, links, [])
  {
    SoftStart(cfg, dict, ids, hard);
    TurnedStart(cfg, dict, hard);
  }

  method SoftPhase(cfg: Config, dict: map<Id, Seed>, ids: seq<Id>, edges: seq<Edge>, uf: UnionFind, ghost links: Edges)
    requires DictIds(dict, ids) && uf.Valid() && uf.parent.Keys == dict.Keys && Grown(uf.parent, links)
    requires Represents(uf.parent, HardEdges(cfg, dict)) && forall e <- edges :: EdgeFits(dict, links, e)
    modifies uf
    ensures uf.Valid() && SoftTurn(cfg, dict, ids, old(uf.parent), uf.parent, links, edges)
  {
    ghost var hard := uf.parent;
    SoftTurnStart(cfg, dict, ids, hard, links);
    for i := 0 to |edges|
      invariant uf.Valid() && SoftTurn(cfg, dict, ids, hard, uf.parent, links, edges[..i])
    {
      NextEdge(edges, i);
      SoftRound(cfg, dict, ids, edges[i], uf, hard, links, edges[..i]);
    }
    assert edges[..|edges|] == edges;
  }

  lemma NextEdge(edges: seq<Edge>, i: nat)
    requires i < |edges|
    ensures edges[i] in edges && edges[..i + 1] == edges[..i] + [edges[i]]
  {}

  // ----- What the soft phase promises of regions

  ghost predicate TogetherOver(cfg: Config, dict: map<Id, Seed>, a: seq<Id>, b: seq<Id>) {
    (forall x <- a + b :: x in dict) && !WithinCaps(cfg, SeedsOf(dict, a + b))
  }

  /**
    No soft link is left that the caps would let through: it lies in one region, or joins two that together
    exceed them.
   */
  ghost predicate Maximal(cfg: Config, dict: map<Id, Seed>, evidence: (Seed, Seed) -> Evidence, regions: seq<Region>) {
    forall r, q, x, y {:trigger x in regions[r].violationIds, y in regions[q].violationIds} ::
      0 <= r < |regions| && 0 <= q < |regions| && x in regions[r].violationIds && y in regions[q].violationIds
      && SoftLinked(cfg, dict, evidence, x, y)
      ==> r == q || TogetherOver(cfg, dict, regions[r].violationIds, regions[q].violationIds)
  }

  /** The regions are the classes of the hard links and of some soft links. */
  ghost predicate AreClassesOf(cfg: Config, dict: map<Id, Seed>, accepted: Edges, regions: seq<Region>) {
    forall r, x, y {:trigger x in regions[r].violationIds, y in dict} ::
      0 <= r < |regions| && x in regions[r].violationIds && y in dict
      ==> (y in regions[r].violationIds <==> Connected(HardEdges(cfg, dict) + accepted, x, y))
  }

  /** Soft links are accepted in the order of their evidence, and nothing else merges violations. */
  ghost predicate InTurn(cfg: Config, dict: map<Id, Seed>, evidence: (Seed, Seed) -> Evidence, regions: seq<Region>) {
    exists accepted: Edges :: Greedy(cfg, dict, evidence, accepted) && AreClassesOf(cfg, dict, accepted, regions)
  }

  lemma RegionsAreInTurn(cfg: Config, dict: map<Id, Seed>, ids: seq<Id>, parent: map<Id, Id>,
                         evidence: (Seed, Seed) -> Evidence, edges: seq<Edge>, groups: seq<seq<Id>>,
                         regions: seq<Region>)
    requires DictIds(dict, ids) && Turned(cfg, dict, parent, edges) && AreEdges(cfg, dict, evidence, edges)
    requires Sorted(EdgeOrder, edges) && OncePerPair(edges) && IsGrouping(parent, groups) && |regions| == |groups|
    requires forall g :: 0 <= g < |groups| ==> regions[g].violationIds == groups[g]
    ensures InTurn(cfg, dict, evidence, regions)
  {
    var accepted := Accepted(cfg, dict, edges);
    AcceptedIsGreedy(cfg, dict, evidence, edges);
    forall r, x, y | 0 <= r < |regions| && x in regions[r].violationIds && y in dict
      ensures y in regions[r].violationIds <==> Connected(HardEdges(cfg, dict) + accepted, x, y)
    {
      GroupOfMember(dict, ids, parent, groups, r, x);
      MembersAre(parent, Root(parent, x), ids);
      assert Same(parent, x, y) <==> Connected(HardEdges(cfg, dict) + accepted, x, y);
    }
    assert AreClassesOf(cfg, dict, accepted, regions);
  }

  /** Violations share a region only if a chain of hard links and soft links joins them. */
  ghost predicate Grounded(links: Edges, regions: seq<Region>) {
    forall r, x, y {:trigger x in regions[r].violationIds, y in regions[r].violationIds} ::
      0 <= r < |regions| && x in regions[r].violationIds && y in regions[r].violationIds ==> Connected(links, x, y)
  }

  lemma GroupOfMember(dict: map<Id, Seed>, ids: seq<Id>, parent: map<Id, Id>, groups: seq<seq<Id>>, g: nat, x: Id)
    requires DictIds(dict, ids) && Forest(parent) && parent.Keys == dict.Keys
    requires IsGrouping(parent, groups) && g < |groups| && x in groups[g]
    ensures x in dict && groups[g] == Members(parent, Root(parent, x), ids)
  {
    var r := GroupIsMembers(dict, ids, parent, groups, g);
    MembersAre(parent, r, ids);
  }

  lemma RegionsAreGrounded(dict: map<Id, Seed>, ids: seq<Id>, parent: map<Id, Id>, links: Edges,
                           groups: seq<seq<Id>>, regions: seq<Region>)
    requires DictIds(dict, ids) && Forest(parent) && parent.Keys == dict.Keys && Grown(parent, links)
    requires IsGrouping(parent, groups) && |regions| == |groups|
    requires forall g :: 0 <= g < |groups| ==> regions[g].violationIds == groups[g]
    ensures Grounded(links, regions)
  {
    forall g, x, y | 0 <= g < |groups| && x in groups[g] && y in groups[g] ensures Connected(links, x, y) {
      GroupOfMember(dict, ids, parent, groups, g, x);
      MembersAre(parent, Root(parent, x), ids);
      ConnectedSymmetric(links, y, Root(parent, y));
      ConnectedTransitive(links, x, Root(parent, x), y);
    }
  }

  lemma RegionsAreMaximal(cfg: Config, dict: map<Id, Seed>, ids: seq<Id>, parent: map<Id, Id>,
                          evidence: (Seed, Seed) -> Evidence, edges: seq<Edge>, groups: seq<seq<Id>>,
                          regions: seq<Region>)
    requires DictIds(dict, ids) && Forest(parent) && parent.Keys == dict.Keys
    requires AllSettled(cfg, dict, ids, parent, edges) && AreEdges(cfg, dict, evidence, edges)
    requires IsGrouping(parent, groups) && |regions| == |groups|
    requires forall g :: 0 <= g < |groups| ==> regions[g].violationIds == groups[g]
    ensures Maximal(cfg, dict, evidence, regions)
  {
    forall r, q, x, y | 0 <= r < |groups| && 0 <= q < |groups| && x in groups[r] && y in groups[q]
                        && SoftLinked(cfg, dict, evidence, x, y) && r != q
      ensures TogetherOver(cfg, dict, groups[r], groups[q])
    {
      LinkIsOver(cfg, dict, ids, parent, evidence, edges, groups, r, q, x, y);
    }
  }

  lemma EdgeIsSettled(cfg: Config, dict: map<Id, Seed>, ids: seq<Id>, parent: map<Id, Id>,
                      evidence: (Seed, Seed) -> Evidence, edges: seq<Edge>, x: Id, y: Id)
    requires DictIds(dict, ids) && Forest(parent) && parent.Keys == dict.Keys
    requires AllSettled(cfg, dict, ids, parent, edges) && AreEdges(cfg, dict, evidence, edges)
    requires SoftLinked(cfg, dict, evidence, x, y)
    ensures Settled(cfg, dict, ids, parent, x, y)
  {
    var e := Edge(x, y, evidence(dict[x], dict[y]));
    assert IsEdge(cfg, dict, evidence, e);
    assert e in edges;
  }

  lemma DifferentGroupsDifferentRoots(dict: map<Id, Seed>, ids: seq<Id>, parent: map<Id, Id>, groups: seq<seq<Id>>,
                                      r: nat, q: nat, x: Id, y: Id)
    requires DictIds(dict, ids) && Forest(parent) && parent.Keys == dict.Keys
    requires IsGrouping(parent, groups) && r < |groups| && q < |groups| && r != q && x in groups[r] && y in groups[q]
    ensures x in dict && y in dict && Root(parent, x) != Root(parent, y)
    ensures groups[r] == Members(parent, Root(parent, x), ids) && groups[q] == Members(parent, Root(parent, y), ids)
  {
    GroupOfMember(dict, ids, parent, groups, r, x);
    GroupOfMember(dict, ids, parent, groups, q, y);
    GroupingPartitions(parent, groups);
    assert Disjoint(groups[if r < q then r else q], groups[if r < q then q else r]);
  }

  lemma LinkIsOver(cfg: Config, dict: map<Id, Seed>, ids: seq<Id>, parent: map<Id, Id>,
                   evidence: (Seed, Seed) -> Evidence, edges: seq<Edge>, groups: seq<seq<Id>>,
                   r: nat, q: nat, x: Id, y: Id)
    requires DictIds(dict, ids) && Forest(parent) && parent.Keys == dict.Keys
    requires AllSettled(cfg, dict, ids, parent, edges) && AreEdges(cfg, dict, evidence, edges)
    requires IsGrouping(parent, groups)
    requires r < |groups| && q < |groups| && r != q && x in groups[r] && y in groups[q]
    requires SoftLinked(cfg, dict, evidence, x, y)
    ensures TogetherOver(cfg, dict, groups[r], groups[q])
  {
    EdgeIsSettled(cfg, dict, ids, parent, evidence, edges, x, y);
    DifferentGroupsDifferentRoots(dict, ids, parent, groups, r, q, x, y);
    JointAsConcat(cfg, dict, ids, parent, Root(parent, x), Root(parent, y));
  }

  /** build, from the seeds of the violations on; regions are listed before the final sort by hashed region id. */
  method Build(cfg: Config, seeds: seq<Seed>, evidence: (Seed, Seed) -> Evidence) returns (regions: seq<Region>)
    ensures ValidRegions(cfg, SeedDict(seeds), regions)
    ensures Maximal(cfg, SeedDict(seeds), evidence, regions)
    ensures Grounded(HardEdges(cfg, SeedDict(seeds)) + SoftLinks(cfg, SeedDict(seeds), evidence), regions)
    ensures InTurn(cfg, SeedDict(seeds), evidence, regions)
  {
    var dict := SeedDict(seeds);
    var ids := SortedItems(dict.Keys);
    var uf := new UnionFind(dict.Keys);
    var edges := HardPhase(cfg, dict, ids, evidence, uf);
    ghost var hard, links := uf.parent, HardEdges(cfg, dict) + SoftLinks(cfg, dict, evidence);
    var sorted := Sort(EdgeOrder, edges);
    SortIsInTurn(cfg, dict, evidence, edges);
    RepresentedIsGrown(hard, HardEdges(cfg, dict), links);
    EdgesAreLinks(cfg, dict, evidence, sorted);
    SoftPhase(cfg, dict, ids, sorted, uf, links);
    ghost var soft := uf.parent;
    var groups := uf.Groups();
    SoftStateKeep(cfg, dict, ids, hard, soft, uf.parent, links, sorted);
    TurnedKeep(cfg, dict, soft, uf.parent, sorted);
    regions := Finish(cfg, dict, ids, hard, uf.parent, groups);
    RegionsAreValid(cfg, dict, ids, hard, uf.parent, groups, regions);
    RegionsAreMaximal(cfg, dict, ids, uf.parent, evidence, sorted, groups, regions);
    RegionsAreGrounded(dict, ids, uf.parent, links, groups, regions);
    RegionsAreInTurn(cfg, dict, ids, uf.parent, evidence, sorted, groups, regions);
  }

  /** sorted() by evidence keeps the edges, each pair once. */
  lemma SortIsInTurn(cfg: Config, dict: map<Id, Seed>, evidence: (Seed, Seed) -> Evidence, edges: seq<Edge>)
    requires AreEdges(cfg, dict, evidence, edges) && OncePerPair(edges)
    ensures var sorted := Sort(EdgeOrder, edges);
            AreEdges(cfg, dict, evidence, sorted) && Sorted(EdgeOrder, sorted) && OncePerPair(sorted)
  {
    SortPermutes(EdgeOrder, edges);
    OrderIsTotal();
    SortSorts(EdgeOrder, edges);
    var key := (e: Edge) => Pair(e);
    SortKeepsDistinct(EdgeOrder, key, edges);
    var sorted := Sort(EdgeOrder, edges);
    forall i, j | 0 <= i < j < |sorted| ensures Pair(sorted[i]) != Pair(sorted[j]) {
      assert key(sorted[i]) != key(sorted[j]);
    }
  }

  lemma EdgesAreLinks(cfg: Config, dict: map<Id, Seed>, evidence: (Seed, Seed) -> Evidence, edges: seq<Edge>)
    requires AreEdges(cfg, dict, evidence, edges)
    ensures forall e <- edges :: EdgeFits(dict, SoftLinks(cfg, dict, evidence), e)
  {
    forall e | e in edges ensures EdgeFits(dict, SoftLinks(cfg, dict, evidence), e) {
      assert IsEdge(cfg, dict, evidence, e);
      assert e.evidence.merge ==> SoftLinked(cfg, dict, evidence, e.u, e.v);
    }
  }

  /** _finalize for each piece: its violation ids and whether it is over the caps. */
  method Finalize(cfg: Config, pieces: seq<seq<Seed>>) returns (regions: seq<Region>)
    requires forall p :: 0 <= p < |pieces| ==> pieces[p] != []
    ensures |regions| == |pieces|
    ensures forall p :: 0 <= p < |pieces| ==> regions[p] == Region(ViolationIds(pieces[p]), !WithinCaps(cfg, pieces[p]))
  {
    regions := [];
    for p := 0 to |pieces|
      invariant |regions| == p
      invariant forall q :: 0 <= q < p ==> regions[q] == Region(ViolationIds(pieces[q]), !WithinCaps(cfg, pieces[q]))
    {
      var ok := CapOk(cfg, pieces[p]);
      regions := regions + [Region(ViolationIds(pieces[p]), !ok)];
    }
  }

  lemma GroupPassesThrough(cfg: Config, dict: map<Id, Seed>, ids: seq<Id>, hard: map<Id, Id>, parent: map<Id, Id>,
                           groups: seq<seq<Id>>, g: nat)
    requires Represents(hard, HardEdges(cfg, dict)) && SoftInvariant(cfg, dict, ids, hard, parent)
    requires IsGrouping(parent, groups) && g < |groups| && forall id <- dict :: dict[id].violation == id
    ensures groups[g] != [] && forall x <- groups[g] :: x in dict
    ensures Split(cfg, SeedsOf(dict, groups[g])) == [SeedsOf(dict, groups[g])]
    ensures ViolationIds(SeedsOf(dict, groups[g])) == groups[g]
  {
    GroupUntouchedOrCapped(cfg, dict, ids, hard, parent, groups, g);
    GroupIsNotSplit(cfg, dict, hard, groups[g]);
  }

  /** The regions of one group: its pieces, of which there is one. */
  method FinishGroup(cfg: Config, dict: map<Id, Seed>, group: seq<Id>) returns (regions: seq<Region>)
    requires group != [] && forall x <- group :: x in dict
    requires Split(cfg, SeedsOf(dict, group)) == [SeedsOf(dict, group)]
    requires ViolationIds(SeedsOf(dict, group)) == group
    ensures |regions| == 1 && RegionOf(cfg, dict, group, regions[0])
  {
    var pieces := Split(cfg, SeedsOf(dict, group));
    regions := Finalize(cfg, pieces);
  }

  ghost predicate AreRegions(cfg: Config, dict: map<Id, Seed>, groups: seq<seq<Id>>, regions: seq<Region>) {
    |regions| <= |groups| && forall g :: 0 <= g < |regions| ==> RegionOf(cfg, dict, groups[g], regions[g])
  }

  lemma RegionSnoc(cfg: Config, dict: map<Id, Seed>, groups: seq<seq<Id>>, regions: seq<Region>, more: seq<Region>)
    requires AreRegions(cfg, dict, groups, regions) && |regions| < |groups|
    requires |more| == 1 && RegionOf(cfg, dict, groups[|regions|], more[0])
    ensures AreRegions(cfg, dict, groups, regions + more)
  {}

  /** groups.extend(self._split(...)), then _finalize, group by group. */
  method Finish(cfg: Config, dict: map<Id, Seed>, ghost ids: seq<Id>, ghost hard: map<Id, Id>,
                ghost parent: map<Id, Id>, groups: seq<seq<Id>>)
    returns (regions: seq<Region>)
    requires Represents(hard, HardEdges(cfg, dict)) && SoftInvariant(cfg, dict, ids, hard, parent)
    requires IsGrouping(parent, groups) && forall id <- dict :: dict[id].violation == id
    ensures |regions| == |groups| && AreRegions(cfg, dict, groups, regions)
  {
    regions := [];
    for g := 0 to |groups|
      invariant |regions| == g && AreRegions(cfg, dict, groups, regions)
    {
      GroupPassesThrough(cfg, dict, ids, hard, parent, groups, g);
      var more := FinishGroup(cfg, dict, groups[g]);
      RegionSnoc(cfg, dict, groups, regions, more);
      regions := regions + more;
    }
  }

  function ViolationIds(seeds: seq<Seed>): (ids: seq<Id>)
    ensures |ids| == |seeds| && forall i :: 0 <= i < |ids| ==> ids[i] == seeds[i].violation
  {
    seq(|seeds|, i requires 0 <= i < |seeds| => seeds[i].violation)
  }
}
