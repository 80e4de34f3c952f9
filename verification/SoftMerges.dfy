/**
  The soft-merge phase of RegionBuilder.build in src/drc_agent/regions/builder.py: what every merge keeps,
  why no permitted merge is missed, and that classes only grow along links.
 */
module SoftMerges {
  import opened Basics
  import opened Orders
  import opened Forests
  import opened UnionFinds
  import opened Clustering

  // ----- The invariant of the soft-merge phase

  ghost predicate DictIds(dict: map<Id, Seed>, ids: seq<Id>) {
    Increasing(ids) && forall x: Id :: x in ids <==> x in dict
  }

  /** The class of root r still is a hard class, or passed the cap test when it was last extended. */
  ghost predicate ClassOk(cfg: Config, dict: map<Id, Seed>, ids: seq<Id>, hard: map<Id, Id>, parent: map<Id, Id>, r: Id)
    requires DictIds(dict, ids) && Forest(hard) && Forest(parent) && hard.Keys == parent.Keys == dict.Keys
  {
    MembersAre(parent, r, ids);
    || Members(parent, r, ids) == Members(hard, r, ids)
    || WithinCaps(cfg, SeedsOf(dict, Members(parent, r, ids)))
  }

  ghost predicate Coarser(hard: map<Id, Id>, parent: map<Id, Id>)
    requires Forest(hard) && Forest(parent)
  {
    forall x, y :: Same(hard, x, y) ==> Same(parent, x, y)
  }

  ghost predicate SoftInvariant(cfg: Config, dict: map<Id, Seed>, ids: seq<Id>, hard: map<Id, Id>,
                                parent: map<Id, Id>)
  {
    && DictIds(dict, ids) && Forest(hard) && Forest(parent) && hard.Keys == parent.Keys == dict.Keys
    && Coarser(hard, parent)
    && (forall r {:trigger ClassOk(cfg, dict, ids, hard, parent, r)} ::
          r in dict && Root(parent, r) == r ==> ClassOk(cfg, dict, ids, hard, parent, r))
  }

  lemma SoftStart(cfg: Config, dict: map<Id, Seed>, ids: seq<Id>, hard: map<Id, Id>)
    requires DictIds(dict, ids) && Forest(hard) && hard.Keys == dict.Keys
    ensures SoftInvariant(cfg, dict, ids, hard, hard)
  {}

  lemma SoftKeep(cfg: Config, dict: map<Id, Seed>, ids: seq<Id>, hard: map<Id, Id>, parent: map<Id, Id>,
                 found: map<Id, Id>)
    requires SoftInvariant(cfg, dict, ids, hard, parent) && SameRoots(parent, found)
    ensures SoftInvariant(cfg, dict, ids, hard, found)
  {
    forall r | r in dict && Root(found, r) == r ensures ClassOk(cfg, dict, ids, hard, found, r) {
      assert ClassOk(cfg, dict, ids, hard, parent, r);
      ClassKeep(cfg, dict, ids, hard, parent, found, r);
    }
  }

  lemma ClassKeep(cfg: Config, dict: map<Id, Seed>, ids: seq<Id>, hard: map<Id, Id>, parent: map<Id, Id>,
                  found: map<Id, Id>, r: Id)
    requires DictIds(dict, ids) && Forest(hard) && Forest(parent) && hard.Keys == parent.Keys == dict.Keys
    requires SameRoots(parent, found) && ClassOk(cfg, dict, ids, hard, parent, r)
    ensures ClassOk(cfg, dict, ids, hard, found, r)
  {
    SameRootsSameGroups(parent, found, ids);
    MembersAre(parent, r, ids);
  }

  /** The members that the code collects and tests: everything in the class of a or of b. */
  ghost function Joint(parent: map<Id, Id>, a: Id, b: Id, ids: seq<Id>): seq<Id>
    requires Forest(parent) && AllIn(parent, ids)
  {
    if ids == [] then []
    else
      var init := Joint(parent, a, b, ids[..|ids| - 1]);
      var last := ids[|ids| - 1];
      if Root(parent, last) == a || Root(parent, last) == b then init + [last] else init
  }

  lemma {:induction false} JointIsMergedClass(before: map<Id, Id>, after: map<Id, Id>, u: Id, v: Id, ids: seq<Id>)
    requires Forest(before) && u in before && v in before && AllIn(before, ids) && Merged(before, after, u, v)
    ensures Joint(before, Root(before, u), Root(before, v), ids)
         == Members(after, Min(Root(before, u), Root(before, v)), ids)
    ensures forall r {:trigger Members(after, r, ids)} ::
      r != Root(before, u) && r != Root(before, v) ==> Members(after, r, ids) == Members(before, r, ids)
  {
    if ids != [] {
      assert ids[|ids| - 1] in ids;
      JointIsMergedClass(before, after, u, v, ids[..|ids| - 1]);
    }
  }

  lemma SoftMerge(cfg: Config, dict: map<Id, Seed>, ids: seq<Id>, hard: map<Id, Id>, before: map<Id, Id>,
                  after: map<Id, Id>, u: Id, v: Id, tested: seq<Id>)
    requires SoftInvariant(cfg, dict, ids, hard, before) && u in dict && v in dict && Merged(before, after, u, v)
    requires tested == Joint(before, Root(before, u), Root(before, v), ids)
    requires (forall x <- tested :: x in dict) && WithinCaps(cfg, SeedsOf(dict, tested))
    ensures SoftInvariant(cfg, dict, ids, hard, after)
  {
    MergeCoarsens(hard, before, after, u, v);
    forall r | r in dict && Root(after, r) == r ensures ClassOk(cfg, dict, ids, hard, after, r) {
      MergedClassOk(cfg, dict, ids, hard, before, after, u, v, tested, r);
    }
  }

  lemma MergeCoarsens(hard: map<Id, Id>, before: map<Id, Id>, after: map<Id, Id>, u: Id, v: Id)
    requires Forest(hard) && Forest(before) && Coarser(hard, before) && hard.Keys == before.Keys
    requires u in before && v in before && Merged(before, after, u, v)
    ensures Coarser(hard, after)
  {}

  lemma MergedClassOk(cfg: Config, dict: map<Id, Seed>, ids: seq<Id>, hard: map<Id, Id>, before: map<Id, Id>,
                      after: map<Id, Id>, u: Id, v: Id, tested: seq<Id>, r: Id)
    requires SoftInvariant(cfg, dict, ids, hard, before) && u in dict && v in dict && Merged(before, after, u, v)
    requires tested == Joint(before, Root(before, u), Root(before, v), ids)
    requires (forall x <- tested :: x in dict) && WithinCaps(cfg, SeedsOf(dict, tested))
    requires r in dict && Root(after, r) == r
    ensures ClassOk(cfg, dict, ids, hard, after, r)
  {
    var a, b := Root(before, u), Root(before, v);
    JointIsMergedClass(before, after, u, v, ids);
    RootOfRoot(before, u);
    RootOfRoot(before, v);
    if r == Min(a, b) {
      assert Members(after, r, ids) == tested;
    } else {
      assert r != a && r != b;
      assert ClassOk(cfg, dict, ids, hard, before, r);
    }
  }

  lemma {:induction false} JointSameRoots(parent: map<Id, Id>, other: map<Id, Id>, a: Id, b: Id, ids: seq<Id>)
    requires Forest(parent) && SameRoots(parent, other) && AllIn(parent, ids)
    ensures Joint(parent, a, b, ids) == Joint(other, a, b, ids)
  {
    if ids != [] {
      JointSameRoots(parent, other, a, b, ids[..|ids| - 1]);
    }
  }

  lemma {:induction false} JointNonEmpty(parent: map<Id, Id>, u: Id, v: Id, ids: seq<Id>)
    requires Forest(parent) && AllIn(parent, ids) && u in ids && v in parent
    ensures Joint(parent, Root(parent, u), Root(parent, v), ids) != []
  {
    if ids[|ids| - 1] != u {
      assert ids == ids[..|ids| - 1] + [ids[|ids| - 1]];
      JointNonEmpty(parent, u, v, ids[..|ids| - 1]);
    }
  }

  // ----- No permitted merge is missed

  /** The ends are together, or their two classes together are over the caps. */
  ghost predicate Settled(cfg: Config, dict: map<Id, Seed>, ids: seq<Id>, parent: map<Id, Id>, u: Id, v: Id)
    requires DictIds(dict, ids) && Forest(parent) && parent.Keys == dict.Keys
  {
    u in dict && v in dict &&
    (Root(parent, u) == Root(parent, v) || JointOver(cfg, dict, ids, parent, Root(parent, u), Root(parent, v)))
  }

  ghost predicate JointOver(cfg: Config, dict: map<Id, Seed>, ids: seq<Id>, parent: map<Id, Id>, a: Id, b: Id)
    requires DictIds(dict, ids) && Forest(parent) && parent.Keys == dict.Keys
  {
    JointIn(parent, a, b, ids);
    !WithinCaps(cfg, SeedsOf(dict, Joint(parent, a, b, ids)))
  }

  lemma {:induction false} JointIn(parent: map<Id, Id>, a: Id, b: Id, ids: seq<Id>)
    requires Forest(parent) && AllIn(parent, ids)
    ensures forall x :: x in Joint(parent, a, b, ids) <==> x in ids && (Root(parent, x) == a || Root(parent, x) == b)
  {
    if ids != [] {
      var init, last := ids[..|ids| - 1], ids[|ids| - 1];
      assert ids == init + [last];
      JointIn(parent, a, b, init);
    }
  }

  /** A joint class can only grow when roots move together. */
  lemma {:induction false} JointGrows(before: map<Id, Id>, after: map<Id, Id>, a: Id, b: Id, c: Id, d: Id, ids: seq<Id>)
    requires Forest(before) && Forest(after) && AllIn(before, ids) && AllIn(after, ids)
    requires forall x <- ids ::
               Root(before, x) == a || Root(before, x) == b ==> Root(after, x) == c || Root(after, x) == d
    ensures |Joint(before, a, b, ids)| <= |Joint(after, c, d, ids)|
  {
    if ids != [] {
      var init, last := ids[..|ids| - 1], ids[|ids| - 1];
      assert ids == init + [last];
      JointGrows(before, after, a, b, c, d, init);
    }
  }

  /** Taking seeds away never breaks a cap. */
  lemma CapsAreAntitone(cfg: Config, few: seq<Seed>, more: seq<Seed>)
    requires WithinCaps(cfg, more) && |few| <= |more| && forall s :: s in few ==> s in more
    ensures WithinCaps(cfg, few)
  {
    assert ObjectIds(few) <= ObjectIds(more);
    SubsetSize(ObjectIds(few), ObjectIds(more));
  }

  lemma SeedsOfSubset(dict: map<Id, Seed>, few: seq<Id>, more: seq<Id>)
    requires (forall x <- more :: x in dict) && forall x <- few :: x in more
    ensures forall s :: s in SeedsOf(dict, few) ==> s in SeedsOf(dict, more)
  {
    forall s | s in SeedsOf(dict, few) ensures s in SeedsOf(dict, more) {
      var i :| 0 <= i < |few| && SeedsOf(dict, few)[i] == s;
      assert few[i] in few;
      var j :| 0 <= j < |more| && more[j] == few[i];
      assert SeedsOf(dict, more)[j] == s;
    }
  }

  /** Every class of before lies in one class of after. */
  ghost predicate Coarsens(before: map<Id, Id>, after: map<Id, Id>)
    requires Forest(before) && Forest(after)
  {
    before.Keys == after.Keys
    && forall x, y {:trigger Root(before, x), Root(before, y)} ::
         x in before && y in before && Root(before, x) == Root(before, y) ==> Root(after, x) == Root(after, y)
  }

  lemma SettledStays(cfg: Config, dict: map<Id, Seed>, ids: seq<Id>, before: map<Id, Id>, after: map<Id, Id>, u: Id,
                     v: Id)
    requires DictIds(dict, ids) && Forest(before) && Forest(after) && before.Keys == dict.Keys
    requires Coarsens(before, after)
    requires Settled(cfg, dict, ids, before, u, v)
    ensures Settled(cfg, dict, ids, after, u, v)
  {
    if Root(before, u) != Root(before, v) && Root(after, u) != Root(after, v) {
      OverStays(cfg, dict, ids, before, after, u, v);
    }
  }

  lemma OverStays(cfg: Config, dict: map<Id, Seed>, ids: seq<Id>, before: map<Id, Id>, after: map<Id, Id>, u: Id, v: Id)
    requires DictIds(dict, ids) && Forest(before) && Forest(after) && before.Keys == dict.Keys
    requires Coarsens(before, after) && u in dict && v in dict
    requires JointOver(cfg, dict, ids, before, Root(before, u), Root(before, v))
    ensures JointOver(cfg, dict, ids, after, Root(after, u), Root(after, v))
  {
    var few := Joint(before, Root(before, u), Root(before, v), ids);
    var more := Joint(after, Root(after, u), Root(after, v), ids);
    JointOnlyGrows(before, after, u, v, ids);
    JointIn(after, Root(after, u), Root(after, v), ids);
    SeedsOfSubset(dict, few, more);
    if WithinCaps(cfg, SeedsOf(dict, more)) {
      CapsAreAntitone(cfg, SeedsOf(dict, few), SeedsOf(dict, more));
    }
  }

  lemma JointOnlyGrows(before: map<Id, Id>, after: map<Id, Id>, u: Id, v: Id, ids: seq<Id>)
    requires Forest(before) && Forest(after) && Coarsens(before, after) && AllIn(before, ids)
    requires u in before && v in before
    ensures AllIn(after, ids)
    ensures var few, more := Joint(before, Root(before, u), Root(before, v), ids),
                             Joint(after, Root(after, u), Root(after, v), ids);
            |few| <= |more| && forall x <- few :: x in more
  {
    JointGrows(before, after, Root(before, u), Root(before, v), Root(after, u), Root(after, v), ids);
    JointIn(before, Root(before, u), Root(before, v), ids);
    JointIn(after, Root(after, u), Root(after, v), ids);
  }

  ghost predicate AllSettled(cfg: Config, dict: map<Id, Seed>, ids: seq<Id>, parent: map<Id, Id>, edges: seq<Edge>)
    requires DictIds(dict, ids) && Forest(parent) && parent.Keys == dict.Keys
  {
    forall e {:trigger e in edges} :: e in edges && e.evidence.merge ==> Settled(cfg, dict, ids, parent, e.u, e.v)
  }

  lemma AllSettledStays(cfg: Config, dict: map<Id, Seed>, ids: seq<Id>, before: map<Id, Id>, after: map<Id, Id>,
                        edges: seq<Edge>)
    requires DictIds(dict, ids) && Forest(before) && Forest(after) && before.Keys == dict.Keys
    requires Coarsens(before, after)
    requires AllSettled(cfg, dict, ids, before, edges)
    ensures AllSettled(cfg, dict, ids, after, edges)
  {
    forall e | e in edges && e.evidence.merge ensures Settled(cfg, dict, ids, after, e.u, e.v) {
      SettledStays(cfg, dict, ids, before, after, e.u, e.v);
    }
  }

  lemma SameRootsCoarsen(before: map<Id, Id>, after: map<Id, Id>)
    requires Forest(before) && SameRoots(before, after)
    ensures Coarsens(before, after)
  {}

  lemma MergeCoarsensAll(before: map<Id, Id>, after: map<Id, Id>, u: Id, v: Id)
    requires Forest(before) && u in before && v in before && Merged(before, after, u, v)
    ensures Coarsens(before, after) && Root(after, u) == Root(after, v)
  {}

  // ----- Classes only grow along links

  /** Every element is connected to its root. */
  ghost predicate Grown(parent: map<Id, Id>, links: Edges)
    requires Forest(parent)
  {
    forall x {:trigger Root(parent, x)} :: x in parent ==> Connected(links, x, Root(parent, x))
  }

  lemma RepresentedIsGrown(parent: map<Id, Id>, edges: Edges, links: Edges)
    requires Represents(parent, edges) && edges <= links
    ensures Grown(parent, links)
  {
    forall x | x in parent ensures Connected(links, x, Root(parent, x)) {
      ReachesOldRoot(parent, edges, links, x);
    }
  }

  lemma MergeGrows(before: map<Id, Id>, after: map<Id, Id>, links: Edges, u: Id, v: Id)
    requires Forest(before) && u in before && v in before && Merged(before, after, u, v)
    requires Grown(before, links) && (u, v) in links
    ensures Grown(after, links)
  {
    var a, b := Root(before, u), Root(before, v);
    ConnectedByLink(links, u, v);
    ConnectedSymmetric(links, u, a);
    ConnectedTransitive(links, a, u, v);
    ConnectedTransitive(links, a, v, b);
    ConnectedSymmetric(links, a, b);
    forall x | x in after ensures Connected(links, x, Root(after, x)) {
      if Root(after, x) != Root(before, x) {
        ConnectedTransitive(links, x, Root(before, x), Root(after, x));
      }
    }
  }

  // ----- The state of the loop over soft edges

  ghost predicate SoftState(cfg: Config, dict: map<Id, Seed>, ids: seq<Id>, hard: map<Id, Id>, parent: map<Id, Id>,
                            links: Edges, done: seq<Edge>)
  {
    && SoftInvariant(cfg, dict, ids, hard, parent)
    && AllSettled(cfg, dict, ids, parent, done) && Grown(parent, links)
  }

  lemma SoftStateKeep(cfg: Config, dict: map<Id, Seed>, ids: seq<Id>, hard: map<Id, Id>, parent: map<Id, Id>,
                      found: map<Id, Id>, links: Edges, done: seq<Edge>)
    requires SoftState(cfg, dict, ids, hard, parent, links, done) && SameRoots(parent, found)
    ensures SoftState(cfg, dict, ids, hard, found, links, done)
  {
    SoftKeep(cfg, dict, ids, hard, parent, found);
    SameRootsCoarsen(parent, found);
    AllSettledStays(cfg, dict, ids, parent, found, done);
  }

  lemma SoftStateMerge(cfg: Config, dict: map<Id, Seed>, ids: seq<Id>, hard: map<Id, Id>, before: map<Id, Id>,
                       after: map<Id, Id>, links: Edges, done: seq<Edge>, edge: Edge, tested: seq<Id>)
    requires SoftState(cfg, dict, ids, hard, before, links, done)
    requires edge.u in dict && edge.v in dict && (edge.u, edge.v) in links && Merged(before, after, edge.u, edge.v)
    requires tested == Joint(before, Root(before, edge.u), Root(before, edge.v), ids)
    requires (forall x <- tested :: x in dict) && WithinCaps(cfg, SeedsOf(dict, tested))
    ensures SoftState(cfg, dict, ids, hard, after, links, done + [edge])
  {
    SoftMerge(cfg, dict, ids, hard, before, after, edge.u, edge.v, tested);
    MergeCoarsensAll(before, after, edge.u, edge.v);
    AllSettledStays(cfg, dict, ids, before, after, done);
    MergeGrows(before, after, links, edge.u, edge.v);
    SettledSnoc(cfg, dict, ids, after, done, edge);
  }

  lemma SettledSnoc(cfg: Config, dict: map<Id, Seed>, ids: seq<Id>, parent: map<Id, Id>, done: seq<Edge>, edge: Edge)
    requires DictIds(dict, ids) && Forest(parent) && parent.Keys == dict.Keys
    requires AllSettled(cfg, dict, ids, parent, done)
    requires edge.evidence.merge ==> Settled(cfg, dict, ids, parent, edge.u, edge.v)
    ensures AllSettled(cfg, dict, ids, parent, done + [edge])
  {}

  // ----- What that means for groups

  lemma {:induction false} JointSize(parent: map<Id, Id>, a: Id, b: Id, ids: seq<Id>)
    requires Forest(parent) && AllIn(parent, ids) && a != b
    ensures |Joint(parent, a, b, ids)| == |Members(parent, a, ids)| + |Members(parent, b, ids)|
  {
    if ids != [] {
      JointSize(parent, a, b, ids[..|ids| - 1]);
    }
  }

  /** Two classes over the caps together are over them when listed one after the other. */
  lemma JointAsConcat(cfg: Config, dict: map<Id, Seed>, ids: seq<Id>, parent: map<Id, Id>, a: Id, b: Id)
    requires DictIds(dict, ids) && Forest(parent) && parent.Keys == dict.Keys && a != b
    requires JointOver(cfg, dict, ids, parent, a, b)
    ensures forall x <- Members(parent, a, ids) + Members(parent, b, ids) :: x in dict
    ensures !WithinCaps(cfg, SeedsOf(dict, Members(parent, a, ids) + Members(parent, b, ids)))
  {
    var joint, both := Joint(parent, a, b, ids), Members(parent, a, ids) + Members(parent, b, ids);
    JointIn(parent, a, b, ids);
    JointSize(parent, a, b, ids);
    MembersAre(parent, a, ids);
    MembersAre(parent, b, ids);
    SeedsOfSubset(dict, joint, both);
    if WithinCaps(cfg, SeedsOf(dict, both)) {
      CapsAreAntitone(cfg, SeedsOf(dict, joint), SeedsOf(dict, both));
    }
  }
}
