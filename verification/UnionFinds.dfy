/**
  The union-find of src/drc_agent/regions/builder.py and src/drc_agent/regions/connectivity.py, with
  path halving in find and the smaller root kept in union. Its contracts speak of the roots in Forests.
 */
module UnionFinds {
  import opened Orders
  import opened Forests

  // ----- groups()

  /** Strictly increasing: sorted and without repetition. */
  ghost predicate Increasing(ids: seq<Id>) {
    forall i, j :: 0 <= i < j < |ids| ==> ids[i] < ids[j]
  }

  lemma IncreasingSnoc(ids: seq<Id>, last: Id)
    ensures Increasing(ids + [last]) <==> Increasing(ids) && forall x <- ids :: x < last
  {
    var all := ids + [last];
    assert forall k | 0 <= k < |ids| :: all[k] == ids[k];
    if Increasing(ids) && forall x <- ids :: x < last {
      forall i, j | 0 <= i < j < |all| ensures all[i] < all[j] {
        assert ids[i] in ids;
      }
    }
    if Increasing(all) {
      assert forall i, j | 0 <= i < j < |ids| :: all[i] < all[j];
      forall x | x in ids ensures x < last {
        var k :| 0 <= k < |ids| && ids[k] == x;
        assert all[k] < all[|ids|];
      }
    }
  }

  /** In increasing ids, what is greater than ids[i] comes after it. */
  lemma LaterIds(ids: seq<Id>, i: nat, id: Id)
    requires Increasing(ids) && i < |ids| && id in ids && ids[i] < id
    ensures id in ids[i + 1..]
  {
    var k :| 0 <= k < |ids| && ids[k] == id;
    assert ids[i + 1..][k - i - 1] == id;
  }

  ghost predicate AllIn(parent: map<Id, Id>, ids: seq<Id>) {
    forall x <- ids :: x in parent
  }

  /** The elements of ids in the class of root r, in the order of ids. */
  ghost function Members(parent: map<Id, Id>, r: Id, ids: seq<Id>): seq<Id>
    requires Forest(parent) && AllIn(parent, ids)
  {
    if ids == [] then []
    else
      var init := Members(parent, r, ids[..|ids| - 1]);
      var last := ids[|ids| - 1];
      if Root(parent, last) == r then init + [last] else init
  }

  /** The elements of ids that are roots, in the order of ids. */
  ghost function Roots(parent: map<Id, Id>, ids: seq<Id>): seq<Id>
    requires Forest(parent) && AllIn(parent, ids)
  {
    if ids == [] then []
    else
      var init := Roots(parent, ids[..|ids| - 1]);
      var last := ids[|ids| - 1];
      if Root(parent, last) == last then init + [last] else init
  }

  /** The ids are the keys, each once, in increasing order. */
  ghost predicate SortedKeys(parent: map<Id, Id>, ids: seq<Id>) {
    Increasing(ids) && AllIn(parent, ids) && forall x <- parent.Keys :: x in ids
  }

  ghost predicate GroupsOf(parent: map<Id, Id>, ids: seq<Id>, groups: seq<seq<Id>>)
    requires Forest(parent) && SortedKeys(parent, ids)
  {
    && |groups| == |Roots(parent, ids)|
    && forall i :: 0 <= i < |groups| ==> groups[i] == Members(parent, Roots(parent, ids)[i], ids)
  }

  /** One group per root, roots in increasing order, members of each group in increasing order. */
  ghost predicate IsGrouping(parent: map<Id, Id>, groups: seq<seq<Id>>)
    requires Forest(parent)
  {
    exists ids: seq<Id> :: SortedKeys(parent, ids) && GroupsOf(parent, ids, groups)
  }

  lemma {:induction false} MembersAre(parent: map<Id, Id>, r: Id, ids: seq<Id>)
    requires Forest(parent) && AllIn(parent, ids) && Increasing(ids)
    ensures forall x: Id :: x in Members(parent, r, ids) <==> x in ids && Root(parent, x) == r
    ensures Increasing(Members(parent, r, ids))
  {
    if ids != [] {
      var init, last := ids[..|ids| - 1], ids[|ids| - 1];
      assert ids == init + [last];
      IncreasingSnoc(init, last);
      MembersAre(parent, r, init);
      IncreasingSnoc(Members(parent, r, init), last);
    }
  }

  lemma {:induction false} RootsAre(parent: map<Id, Id>, ids: seq<Id>)
    requires Forest(parent) && AllIn(parent, ids) && Increasing(ids)
    ensures forall x: Id :: x in Roots(parent, ids) <==> x in ids && Root(parent, x) == x
    ensures Increasing(Roots(parent, ids))
  {
    if ids != [] {
      var init, last := ids[..|ids| - 1], ids[|ids| - 1];
      assert ids == init + [last];
      IncreasingSnoc(init, last);
      RootsAre(parent, init);
      IncreasingSnoc(Roots(parent, init), last);
    }
  }

  ghost predicate InSome(groups: seq<seq<Id>>, x: Id) {
    exists g :: 0 <= g < |groups| && x in groups[g]
  }

  ghost predicate Disjoint(xs: seq<Id>, ys: seq<Id>) {
    forall x <- xs :: x !in ys
  }

  ghost predicate IsClass(parent: map<Id, Id>, group: seq<Id>)
    requires Forest(parent)
  {
    && group != [] && Increasing(group)
    && forall x: Id :: x in group <==> Same(parent, group[0], x)
  }

  /** Groups are a partition of the keys into the classes of the forest. */
  ghost predicate PartitionsInto(parent: map<Id, Id>, groups: seq<seq<Id>>)
    requires Forest(parent)
  {
    && (forall x <- parent.Keys :: InSome(groups, x))
    && (forall g, h :: 0 <= g < h < |groups| ==> Disjoint(groups[g], groups[h]))
    && (forall g :: 0 <= g < |groups| ==> IsClass(parent, groups[g]))
  }

  lemma GroupAt(parent: map<Id, Id>, ids: seq<Id>, groups: seq<seq<Id>>, g: nat)
    requires Forest(parent) && SortedKeys(parent, ids) && GroupsOf(parent, ids, groups) && g < |groups|
    ensures forall x: Id :: x in groups[g] <==> x in parent && Root(parent, x) == Roots(parent, ids)[g]
    ensures IsClass(parent, groups[g])
  {
    RootsAre(parent, ids);
    var r := Roots(parent, ids)[g];
    MembersAre(parent, r, ids);
    assert r in Roots(parent, ids);
    assert r in groups[g];
  }

  lemma GroupOfRoot(parent: map<Id, Id>, ids: seq<Id>, groups: seq<seq<Id>>, x: Id)
    requires Forest(parent) && SortedKeys(parent, ids) && GroupsOf(parent, ids, groups) && x in parent
    ensures InSome(groups, x)
  {
    RootsAre(parent, ids);
    RootOfRoot(parent, x);
    var g :| 0 <= g < |groups| && Roots(parent, ids)[g] == Root(parent, x);
    GroupAt(parent, ids, groups, g);
    assert x in groups[g];
  }

  lemma GroupsDisjoint(parent: map<Id, Id>, ids: seq<Id>, groups: seq<seq<Id>>, g: nat, h: nat)
    requires Forest(parent) && SortedKeys(parent, ids) && GroupsOf(parent, ids, groups) && g < h < |groups|
    ensures Disjoint(groups[g], groups[h])
  {
    RootsAre(parent, ids);
    GroupAt(parent, ids, groups, g);
    GroupAt(parent, ids, groups, h);
    assert Roots(parent, ids)[g] < Roots(parent, ids)[h];
  }

  lemma GroupingPartitions(parent: map<Id, Id>, groups: seq<seq<Id>>)
    requires Forest(parent) && IsGrouping(parent, groups)
    ensures PartitionsInto(parent, groups)
  {
    var ids: seq<Id> :| SortedKeys(parent, ids) && GroupsOf(parent, ids, groups);
    forall x | x in parent ensures InSome(groups, x) {
      GroupOfRoot(parent, ids, groups, x);
    }
    forall g | 0 <= g < |groups| ensures IsClass(parent, groups[g]) {
      GroupAt(parent, ids, groups, g);
    }
    forall g, h | 0 <= g < h < |groups| ensures Disjoint(groups[g], groups[h]) {
      GroupsDisjoint(parent, ids, groups, g, h);
    }
  }

  /** The result depends on the classes alone, so not on the order in which unions were made. */
  lemma GroupingIsDetermined(parent: map<Id, Id>, other: map<Id, Id>, edges: Edges,
                             groups: seq<seq<Id>>, others: seq<seq<Id>>)
    requires Represents(parent, edges) && Represents(other, edges) && parent.Keys == other.Keys
    requires IsGrouping(parent, groups) && IsGrouping(other, others)
    ensures groups == others
  {
    RootsAreDetermined(parent, other, edges);
    var ids: seq<Id> :| SortedKeys(parent, ids) && GroupsOf(parent, ids, groups);
    var ids': seq<Id> :| SortedKeys(other, ids') && GroupsOf(other, ids', others);
    SortedKeysUnique(parent, ids, other, ids');
    SameRootsSameGroups(parent, other, ids);
    SameGroups(parent, ids, groups, other, others);
  }

  lemma SameGroups(parent: map<Id, Id>, ids: seq<Id>, groups: seq<seq<Id>>, other: map<Id, Id>, others: seq<seq<Id>>)
    requires Forest(parent) && Forest(other) && SortedKeys(parent, ids) && SortedKeys(other, ids)
    requires GroupsOf(parent, ids, groups) && GroupsOf(other, ids, others)
    requires Roots(parent, ids) == Roots(other, ids)
    requires forall r {:trigger Members(parent, r, ids)} :: Members(parent, r, ids) == Members(other, r, ids)
    ensures groups == others
  {}

  lemma SortedKeysUnique(parent: map<Id, Id>, ids: seq<Id>, other: map<Id, Id>, ids': seq<Id>)
    requires SortedKeys(parent, ids) && SortedKeys(other, ids') && parent.Keys == other.Keys
    ensures ids == ids'
  {
    forall x: Id ensures x in ids <==> x in ids' {
      assert x in parent.Keys <==> x in other.Keys;
    }
    IncreasingUnique(ids, ids');
  }

  lemma {:induction false} IncreasingUnique(ids: seq<Id>, ids': seq<Id>)
    requires Increasing(ids) && Increasing(ids') && forall x: Id :: x in ids <==> x in ids'
    ensures ids == ids'
  {
    if |ids| == 0 || |ids'| == 0 {
      EmptyTogether(ids, ids');
    } else {
      var init, last := ids[..|ids| - 1], ids[|ids| - 1];
      var init', last' := ids'[..|ids'| - 1], ids'[|ids'| - 1];
      assert ids == init + [last] && ids' == init' + [last'];
      IncreasingSnoc(init, last);
      IncreasingSnoc(init', last');
      SameLast(init, last, init', last');
      IncreasingUnique(init, init');
    }
  }

  lemma EmptyTogether(ids: seq<Id>, ids': seq<Id>)
    requires forall x: Id :: x in ids <==> x in ids'
    ensures |ids| == 0 <==> |ids'| == 0
  {
    if |ids| > 0 {
      assert ids[0] in ids;
    }
    if |ids'| > 0 {
      assert ids'[0] in ids';
    }
  }

  lemma SameLast(init: seq<Id>, last: Id, init': seq<Id>, last': Id)
    requires (forall x <- init :: x < last) && (forall x <- init' :: x < last')
    requires forall x: Id :: x in init + [last] <==> x in init' + [last']
    ensures last == last' && forall x: Id :: x in init <==> x in init'
  {
    assert last in init + [last] && last' in init' + [last'];
    forall x: Id ensures x in init <==> x in init' {
      assert x in init + [last] <==> x in init' + [last'];
    }
  }

  lemma {:induction false} SameRootsSameGroups(parent: map<Id, Id>, other: map<Id, Id>, ids: seq<Id>)
    requires Forest(parent) && SameRoots(parent, other) && AllIn(parent, ids)
    ensures Roots(parent, ids) == Roots(other, ids)
    ensures forall r {:trigger Members(parent, r, ids)} :: Members(parent, r, ids) == Members(other, r, ids)
  {
    if ids != [] {
      SameRootsSameGroups(parent, other, ids[..|ids| - 1]);
    }
  }

  // ----- The dict that groups() fills

  /** A Python dict in insertion order: its keys, and the value of each key. */
  datatype Grouped = Grouped(order: seq<Id>, members: map<Id, seq<Id>>)

  ghost predicate Collected(parent: map<Id, Id>, ids: seq<Id>, dict: Grouped)
    requires Forest(parent) && AllIn(parent, ids)
  {
    && dict.order == Roots(parent, ids)
    && (forall r :: r in dict.members <==> r in dict.order)
    && (forall r <- dict.order :: dict.members[r] == Members(parent, r, ids))
    && (forall x <- ids :: Root(parent, x) in dict.order)
  }

  /** result.setdefault(root, []).append(item) */
  function Append(dict: Grouped, root: Id, item: Id): Grouped {
    if root in dict.members then dict.(members := dict.members[root := dict.members[root] + [item]])
    else Grouped(dict.order + [root], dict.members[root := [item]])
  }

  lemma MembersSnoc(parent: map<Id, Id>, r: Id, ids: seq<Id>, item: Id)
    requires Forest(parent) && AllIn(parent, ids) && AllIn(parent, ids + [item])
    ensures Members(parent, r, ids + [item])
         == if Root(parent, item) == r then Members(parent, r, ids) + [item] else Members(parent, r, ids)
    ensures Roots(parent, ids + [item])
         == if Root(parent, item) == item then Roots(parent, ids) + [item] else Roots(parent, ids)
  {
    var all := ids + [item];
    assert all[..|all| - 1] == ids;
  }

  /** The first member of a class in sorted order is its root, and nothing before it belongs to the class. */
  lemma FirstOfClass(parent: map<Id, Id>, ids: seq<Id>, item: Id)
    requires Forest(parent) && AllIn(parent, ids) && item in parent && Increasing(ids + [item])
    requires Root(parent, item) == item || Root(parent, item) in ids
    ensures Root(parent, item) in Roots(parent, ids) <==> Root(parent, item) != item
    ensures Root(parent, item) == item ==> Members(parent, item, ids) == []
  {
    IncreasingSnoc(ids, item);
    RootsAre(parent, ids);
    RootOfRoot(parent, item);
    MembersAre(parent, item, ids);
    var m := Members(parent, item, ids);
    if m != [] {
      assert m[0] in m;
    }
  }

  lemma AppendCollects(parent: map<Id, Id>, ids: seq<Id>, item: Id, dict: Grouped)
    requires Forest(parent) && AllIn(parent, ids) && item in parent && Increasing(ids + [item])
    requires Root(parent, item) == item || Root(parent, item) in ids
    requires Collected(parent, ids, dict)
    ensures AllIn(parent, ids + [item])
    ensures Collected(parent, ids + [item], Append(dict, Root(parent, item), item))
  {
    var r := Root(parent, item);
    FirstOfClass(parent, ids, item);
    MembersSnoc(parent, r, ids, item);
    var all, next := ids + [item], Append(dict, r, item);
    forall q | q in next.order ensures q in next.members && next.members[q] == Members(parent, q, all) {
      MembersSnoc(parent, q, ids, item);
    }
    forall x | x in all ensures Root(parent, x) in next.order {
      if x != item {
        assert x in ids;
      }
    }
  }

  lemma RootComesFirst(parent: map<Id, Id>, ids: seq<Id>, i: nat)
    requires Forest(parent) && SortedKeys(parent, ids) && i < |ids|
    ensures ids[..i + 1] == ids[..i] + [ids[i]] && Increasing(ids[..i + 1]) && AllIn(parent, ids[..i])
    ensures ids[i] in parent && (Root(parent, ids[i]) == ids[i] || Root(parent, ids[i]) in ids[..i])
  {
    assert ids[i] in ids;
    var r := Root(parent, ids[i]);
    assert r in ids;
    var k :| 0 <= k < |ids| && ids[k] == r;
    if k < i {
      assert ids[..i][k] == r;
    }
  }

  lemma CollectNext(parent: map<Id, Id>, ids: seq<Id>, i: nat, dict: Grouped)
    requires Forest(parent) && SortedKeys(parent, ids) && i < |ids| && ids[i] in parent
    requires AllIn(parent, ids[..i]) && Collected(parent, ids[..i], dict)
    ensures AllIn(parent, ids[..i + 1])
    ensures Collected(parent, ids[..i + 1], Append(dict, Root(parent, ids[i]), ids[i]))
  {
    RootComesFirst(parent, ids, i);
    AppendCollects(parent, ids[..i], ids[i], dict);
  }

  lemma CollectedIsGrouping(start: map<Id, Id>, parent: map<Id, Id>, ids: seq<Id>, dict: Grouped, groups: seq<seq<Id>>)
    requires Forest(start) && SameRoots(start, parent) && SortedKeys(start, ids) && Collected(start, ids, dict)
    requires |groups| == |dict.order| && forall i :: 0 <= i < |groups| ==> groups[i] == dict.members[dict.order[i]]
    ensures IsGrouping(parent, groups)
  {
    SameRootsSameGroups(start, parent, ids);
    assert SortedKeys(parent, ids);
    assert GroupsOf(parent, ids, groups);
  }

  // ----- The class

  lemma SameRootsTransitive(a: map<Id, Id>, b: map<Id, Id>, c: map<Id, Id>)
    requires Forest(a) && SameRoots(a, b) && SameRoots(b, c)
    ensures SameRoots(a, c)
  {}

  /** One round of the loop in find. */
  lemma HalvingStep(parent: map<Id, Id>, v: Id) returns (halved: map<Id, Id>)
    requires Forest(parent) && v in parent && parent[v] != v
    ensures parent[v] in parent && halved == parent[v := parent[parent[v]]]
    ensures SameRoots(parent, halved)
    ensures halved[v] in parent && Root(halved, halved[v]) == Root(parent, v)
    ensures halved[v] < v
  {
    assert Sound(parent, v) && Sound(parent, parent[v]);
    halved := parent[v := parent[parent[v]]];
    HalvingKeepsForest(parent, v);
    forall x | x in parent ensures Root(halved, x) == Root(parent, x) {
      HalvingKeepsRoot(parent, v, x);
    }
    assert halved.Keys == parent.Keys;
    assert Root(parent, halved[v]) == Root(parent, parent[v]) == Root(parent, v);
  }

  /** Whoever had root a or b now has a. */
  ghost predicate RootsMove(before: map<Id, Id>, after: map<Id, Id>, a: Id, b: Id)
    requires Forest(before) && Forest(after)
  {
    && after.Keys == before.Keys
    && forall x {:trigger Root(after, x)} {:trigger Root(before, x)} :: x in before ==>
         Root(after, x) == if Root(before, x) == a || Root(before, x) == b then a else Root(before, x)
  }

  lemma LinkMovesRoots(before: map<Id, Id>, found: map<Id, Id>, a: Id, b: Id)
    requires Forest(before) && SameRoots(before, found) && a < b
    requires a in found && b in found && found[a] == a && found[b] == b
    ensures Forest(found[b := a]) && RootsMove(before, found[b := a], a, b)
  {
    LinkKeepsForest(found, a, b);
    assert found[b := a].Keys == before.Keys;
    forall x | x in before
      ensures Root(found[b := a], x) == if Root(before, x) == a || Root(before, x) == b then a else Root(before, x)
    {
      LinkedRoot(before, found, a, b, x);
    }
  }

  ghost predicate AreRoots(parent: map<Id, Id>, left: Id, right: Id, a: Id, b: Id)
    requires Forest(parent) && left in parent && right in parent
  {
    || (a == Root(parent, left) && b == Root(parent, right))
    || (b == Root(parent, left) && a == Root(parent, right))
  }

  lemma MovedIsMerged(before: map<Id, Id>, after: map<Id, Id>, left: Id, right: Id, a: Id, b: Id)
    requires Forest(before) && Forest(after) && left in before && right in before && RootsMove(before, after, a, b)
    requires a < b && AreRoots(before, left, right, a, b)
    ensures Merged(before, after, left, right)
  {}

  lemma RootsAreFound(before: map<Id, Id>, found: map<Id, Id>, left: Id, right: Id, a: Id, b: Id)
    requires Forest(before) && left in before && right in before && SameRoots(before, found)
    requires AreRoots(before, left, right, a, b)
    ensures a in found && b in found && found[a] == a && found[b] == b
  {
    RootsStay(before, found, left);
    RootsStay(before, found, right);
  }

  /** The last line of union: the larger root b goes under the smaller root a. */
  lemma LinkMerges(before: map<Id, Id>, found: map<Id, Id>, left: Id, right: Id, a: Id, b: Id)
    requires Forest(before) && left in before && right in before && SameRoots(before, found)
    requires a < b && AreRoots(before, left, right, a, b)
    ensures Merged(before, found[b := a], left, right)
  {
    RootsAreFound(before, found, left, right, a, b);
    LinkMovesRoots(before, found, a, b);
    MovedIsMerged(before, found[b := a], left, right, a, b);
  }

  lemma LinkedRoot(before: map<Id, Id>, found: map<Id, Id>, a: Id, b: Id, x: Id)
    requires Forest(before) && SameRoots(before, found) && x in before && a < b
    requires a in found && b in found && found[a] == a && found[b] == b && Forest(found[b := a])
    ensures x in found[b := a]
    ensures Root(found[b := a], x) == if Root(before, x) == a || Root(before, x) == b then a else Root(before, x)
  {
    LinkMovesRoot(found, a, b, x);
  }

  lemma RootsStay(before: map<Id, Id>, found: map<Id, Id>, x: Id)
    requires Forest(before) && x in before && SameRoots(before, found)
    ensures Root(before, x) in found && found[Root(before, x)] == Root(before, x)
  {
    assert Root(found, x) == Root(before, x);
  }

  lemma NothingToMerge(before: map<Id, Id>, found: map<Id, Id>, left: Id, right: Id)
    requires Forest(before) && left in before && right in before && SameRoots(before, found)
    requires Root(before, left) == Root(before, right)
    ensures Merged(before, found, left, right)
  {}

  class UnionFind {
    var parent: map<Id, Id>

    ghost predicate Valid()
      reads this
    {
      Forest(parent)
    }

    constructor (ids: set<Id>)
      ensures Valid() && parent.Keys == ids
      ensures Represents(parent, {})
    {
      parent := map id | id in ids :: id;
      new;
      DiscreteRepresents(parent);
    }

    method Find(item: Id) returns (root: Id)
      requires Valid() && item in parent
      modifies this
      ensures Valid() && SameRoots(old(parent), parent)
      ensures root == Root(old(parent), item)
    {
      root := item;
      while parent[root] != root
        invariant Valid() && SameRoots(old(parent), parent)
        invariant root in parent && Root(parent, root) == Root(old(parent), item)
        decreases root
      {
        ghost var halved := HalvingStep(parent, root);
        SameRootsTransitive(old(parent), parent, halved);
        parent := parent[root := parent[parent[root]]];
        root := parent[root];
      }
    }

    method Union(left: Id, right: Id)
      requires Valid() && left in parent && right in parent
      modifies this
      ensures Valid() && Merged(old(parent), parent, left, right)
    {
      var a := Find(left);
      ghost var once := parent;
      var b := Find(right);
      SameRootsTransitive(old(parent), once, parent);
      if a == b {
        NothingToMerge(old(parent), parent, left, right);
        return;
      }
      if b < a {
        a, b := b, a;
      }
      LinkMerges(old(parent), parent, left, right, a, b);
      parent := parent[b := a];
    }

    method Groups() returns (groups: seq<seq<Id>>)
      requires Valid()
      modifies this
      ensures Valid() && SameRoots(old(parent), parent)
      ensures IsGrouping(parent, groups)
    {
      var ids := SortedItems(parent.Keys);
      var result := Grouped([], map[]);
      ghost var start := parent;
      for i := 0 to |ids|
        invariant Valid() && SameRoots(start, parent)
        invariant AllIn(start, ids[..i]) && Collected(start, ids[..i], result)
      {
        ghost var before := parent;
        assert ids[i] in ids;
        var root := Find(ids[i]);
        SameRootsTransitive(start, before, parent);
        CollectNext(start, ids, i, result);
        result := Append(result, root, ids[i]);
      }
      assert ids[..|ids|] == ids;
      groups := seq(|result.order|, i requires 0 <= i < |result.order| => result.members[result.order[i]]);
      CollectedIsGrouping(start, parent, ids, result, groups);
    }
  }

  /** union(u, v), seen as adding the edge (u, v) to the edges represented so far. */
  method AddEdge(uf: UnionFind, u: Id, v: Id, ghost edges: Edges)
    requires uf.Valid() && u in uf.parent && v in uf.parent && Represents(uf.parent, edges)
    requires forall e <- edges :: e.0 in uf.parent && e.1 in uf.parent
    modifies uf
    ensures uf.Valid() && uf.parent.Keys == old(uf.parent).Keys
    ensures Represents(uf.parent, edges + {(u, v)})
  {
    ghost var before := uf.parent;
    uf.Union(u, v);
    MergeRepresents(before, uf.parent, edges, u, v);
  }

  /** sorted() of a set of ids. */
  method SortedItems(ids: set<Id>) returns (sorted: seq<Id>)
    ensures Increasing(sorted)
    ensures forall x :: x in ids <==> x in sorted
  {
    var rest, items: seq<Id> := ids, [];
    while rest != {}
      invariant rest <= ids
      invariant forall x :: x in items <==> x in ids - rest
      invariant multiset(items) == multiset(ids - rest)
    {
      var x :| x in rest;
      assert ids - (rest - {x}) == (ids - rest) + {x};
      rest := rest - {x};
      items := items + [x];
    }
    assert ids - rest == ids;
    sorted := Sort(NatLeq, items);
    SortPermutes(NatLeq, items);
    SortSorts(NatLeq, items);
    SortedSetIncreases(sorted, ids);
  }

  lemma SortedSetIncreases(sorted: seq<Id>, ids: set<Id>)
    requires Sorted(NatLeq, sorted) && multiset(sorted) == multiset(ids)
    ensures Increasing(sorted)
  {
    forall i, j | 0 <= i < j < |sorted| ensures sorted[i] < sorted[j] {
      if sorted[i] == sorted[j] {
        TwiceInMultiset(sorted, i, j);
      }
    }
  }

  lemma TwiceInMultiset<T>(xs: seq<T>, i: nat, j: nat)
    requires i < j < |xs| && xs[i] == xs[j]
    ensures multiset(xs)[xs[i]] >= 2
  {
    assert xs == xs[..i] + [xs[i]] + xs[i + 1..j] + [xs[j]] + xs[j + 1..];
  }
}
