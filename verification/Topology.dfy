/**
  The local topology of src/drc_agent/regions/topology.py: routing objects clipped to the windows of
  violations, the indexes over the fragments, and the pairs of fragments that are close on one layer.
 */
module Topology {
  import opened Basics
  import opened Boxes
  import opened Separation
  import opened Forests
  import opened UnionFinds

  /** drawn: of kind polygon or path. */
  datatype LayoutObject = LayoutObject(id: Id, anchor: Option<Id>, hasGeometry: bool, routing: bool, drawn: bool,
                                       layer: Id, box: Box)

  datatype Violation = Violation(id: Id, marker: Box, layers: set<Id>)

  datatype Fragment = Fragment(id: Id, parent: Id, anchor: Id, violation: Id, layer: Id, box: Box)

  /** A fragment id is a hash of its object, its violation and what they determine: the clipped box. */
  type Naming = (Id, Id) -> Id

  ghost predicate Injective(name: Naming) {
    forall o, v, p, w :: name(o, v) == name(p, w) ==> o == p && v == w
  }

  function Window(v: Violation, minimum: nat): Box {
    var influence := Max(minimum, Max(v.marker.Width(), v.marker.Height()));
    Box(v.marker.x1 - influence, v.marker.y1 - influence, v.marker.x2 + influence, v.marker.y2 + influence)
  }

  predicate IsSource(o: LayoutObject) { o.anchor.Some? && o.hasGeometry && o.routing }

  function FragmentOf(v: Violation, o: LayoutObject, minimum: nat, name: Naming): Option<Fragment>
    requires IsSource(o)
  {
    if !o.drawn || (v.layers != {} && o.layer !in v.layers) then None
    else
      var clipped := Intersection(o.box, Window(v, minimum));
      if clipped.None? then None
      else Some(Fragment(name(o.id, v.id), o.id, o.anchor.value, v.id, o.layer, clipped.value))
  }

  ghost predicate AreSources(objects: seq<LayoutObject>) { forall o <- objects :: IsSource(o) }

  ghost predicate Identified(violations: seq<Violation>, objects: seq<LayoutObject>) {
    && (forall v, w :: v in violations && w in violations && v.id == w.id ==> v == w)
    && (forall o, p :: o in objects && p in objects && o.id == p.id ==> o == p)
  }

  /** One fragment for every violation and object whose layer and box fit. */
  ghost function Made(violations: seq<Violation>, objects: seq<LayoutObject>, minimum: nat, name: Naming): set<Fragment>
    requires AreSources(objects)
  {
    set v, o | v in violations && o in objects && FragmentOf(v, o, minimum, name).Some? ::
      FragmentOf(v, o, minimum, name).value
  }

  // ----- The tables

  type Index = map<Id, set<Id>>

  datatype Tables = Tables(fragments: map<Id, Fragment>, byParent: Index, byAnchor: Index)

  /** The index lists, under each key, the ids of exactly the fragments with that key. */
  ghost predicate IsIndex(index: Index, made: set<Fragment>, key: Fragment -> Id) {
    && (forall k <- index.Keys :: index[k] != {})
    && (forall f <- made :: key(f) in index && f.id in index[key(f)])
    && (forall k, id {:trigger id in index[k]} :: k in index && id in index[k] ==>
          exists f :: f in made && key(f) == k && f.id == id)
  }

  ghost predicate IsTable(fragments: map<Id, Fragment>, made: set<Fragment>) {
    && (forall id <- fragments.Keys :: fragments[id].id == id)
    && fragments.Values == made
  }

  ghost predicate Agree(t: Tables, made: set<Fragment>) {
    && IsTable(t.fragments, made)
    && IsIndex(t.byParent, made, (f: Fragment) => f.parent)
    && IsIndex(t.byAnchor, made, (f: Fragment) => f.anchor)
  }

  function Enter(index: Index, key: Id, id: Id): Index {
    index[key := (if key in index then index[key] else {}) + {id}]
  }

  lemma EnterIndexes(index: Index, made: set<Fragment>, key: Fragment -> Id, f: Fragment)
    requires IsIndex(index, made, key)
    ensures IsIndex(Enter(index, key(f), f.id), made + {f}, key)
  {}

  /** No other fragment has the id of f. */
  ghost predicate NoClash(made: set<Fragment>, f: Fragment) {
    forall g <- made :: g.id == f.id ==> g == f
  }

  lemma StoreKeepsTable(fragments: map<Id, Fragment>, made: set<Fragment>, f: Fragment)
    requires IsTable(fragments, made) && NoClash(made, f)
    ensures IsTable(fragments[f.id := f], made + {f})
  {
    var stored := fragments[f.id := f];
    forall g ensures g in stored.Values <==> g in made + {f} {
      if g in made {
        assert g in fragments.Values;
        var id :| id in fragments && fragments[id] == g;
        assert stored[id] == g;
      }
      assert stored[f.id] == f;
    }
  }

  ghost function AsSet(f: Option<Fragment>): set<Fragment> { if f.Some? then {f.value} else {} }

  /** What the loops have made when the violation at i has met the objects before j. */
  ghost function MadeUpTo(violations: seq<Violation>, i: nat, objects: seq<LayoutObject>, j: nat,
                          minimum: nat, name: Naming): set<Fragment>
    requires AreSources(objects) && i < |violations| && j <= |objects|
  {
    assert AreSources(objects[..j]);
    Made(violations[..i], objects, minimum, name) + Made([violations[i]], objects[..j], minimum, name)
  }

  lemma MadeStep(violations: seq<Violation>, i: nat, objects: seq<LayoutObject>, j: nat, minimum: nat, name: Naming)
    requires AreSources(objects) && i < |violations| && j < |objects|
    ensures MadeUpTo(violations, i, objects, j + 1, minimum, name)
         == MadeUpTo(violations, i, objects, j, minimum, name)
            + AsSet(FragmentOf(violations[i], objects[j], minimum, name))
  {
    assert objects[..j + 1] == objects[..j] + [objects[j]];
  }

  lemma MadeRow(violations: seq<Violation>, i: nat, objects: seq<LayoutObject>, minimum: nat, name: Naming)
    requires AreSources(objects) && i < |violations|
    ensures MadeUpTo(violations, i, objects, 0, minimum, name) == Made(violations[..i], objects, minimum, name)
    ensures MadeUpTo(violations, i, objects, |objects|, minimum, name)
         == Made(violations[..i + 1], objects, minimum, name)
  {
    assert violations[..i + 1] == violations[..i] + [violations[i]];
    assert objects[..|objects|] == objects;
  }

  lemma NewIdIsFree(violations: seq<Violation>, i: nat, objects: seq<LayoutObject>, j: nat, minimum: nat, name: Naming)
    requires AreSources(objects) && Identified(violations, objects) && Injective(name)
    requires i < |violations| && j < |objects| && FragmentOf(violations[i], objects[j], minimum, name).Some?
    ensures NoClash(MadeUpTo(violations, i, objects, j, minimum, name),
                    FragmentOf(violations[i], objects[j], minimum, name).value)
  {
    var v, o := violations[i], objects[j];
    var f := FragmentOf(v, o, minimum, name).value;
    forall g | g in MadeUpTo(violations, i, objects, j, minimum, name) && g.id == f.id ensures g == f {
      var w, p :| w in violations && p in objects && FragmentOf(w, p, minimum, name) == Some(g);
      SameIds(v, o, w, p, minimum, name);
      assert v in violations && o in objects;
    }
  }

  lemma SameIds(v: Violation, o: LayoutObject, w: Violation, p: LayoutObject, minimum: nat, name: Naming)
    requires IsSource(o) && IsSource(p) && Injective(name)
    requires FragmentOf(v, o, minimum, name).Some? && FragmentOf(w, p, minimum, name).Some?
    requires FragmentOf(v, o, minimum, name).value.id == FragmentOf(w, p, minimum, name).value.id
    ensures v.id == w.id && o.id == p.id
  {
    assert name(o.id, v.id) == name(p.id, w.id);
  }

  method AddFragment(t: Tables, f: Fragment, ghost made: set<Fragment>) returns (next: Tables)
    requires Agree(t, made) && NoClash(made, f)
    ensures Agree(next, made + {f})
  {
    StoreKeepsTable(t.fragments, made, f);
    EnterIndexes(t.byParent, made, (f: Fragment) => f.parent, f);
    EnterIndexes(t.byAnchor, made, (f: Fragment) => f.anchor, f);
    next := Tables(t.fragments[f.id := f], Enter(t.byParent, f.parent, f.id), Enter(t.byAnchor, f.anchor, f.id));
  }

  lemma NothingMade(made: set<Fragment>, fragment: Option<Fragment>)
    ensures fragment.None? ==> made + AsSet(fragment) == made
    ensures fragment.Some? ==> made + AsSet(fragment) == made + {fragment.value}
  {}

  method AddPair(t: Tables, violations: seq<Violation>, i: nat, objects: seq<LayoutObject>, j: nat, minimum: nat,
                 name: Naming)
    returns (next: Tables)
    requires AreSources(objects) && Identified(violations, objects) && Injective(name)
    requires i < |violations| && j < |objects|
    requires Agree(t, MadeUpTo(violations, i, objects, j, minimum, name))
    ensures Agree(next, MadeUpTo(violations, i, objects, j + 1, minimum, name))
  {
    var fragment := FragmentOf(violations[i], objects[j], minimum, name);
    ghost var made := MadeUpTo(violations, i, objects, j, minimum, name);
    MadeStep(violations, i, objects, j, minimum, name);
    NothingMade(made, fragment);
    if fragment.Some? {
      NewIdIsFree(violations, i, objects, j, minimum, name);
      next := AddFragment(t, fragment.value, made);
    } else {
      next := t;
    }
  }

  /** The inner loop: the fragments of one violation. */
  method AddViolation(t: Tables, violations: seq<Violation>, i: nat, objects: seq<LayoutObject>, minimum: nat,
                      name: Naming)
    returns (next: Tables)
    requires AreSources(objects) && Identified(violations, objects) && Injective(name) && i < |violations|
    requires Agree(t, Made(violations[..i], objects, minimum, name))
    ensures Agree(next, Made(violations[..i + 1], objects, minimum, name))
  {
    next := t;
    MadeRow(violations, i, objects, minimum, name);
    for j := 0 to |objects|
      invariant Agree(next, MadeUpTo(violations, i, objects, j, minimum, name))
    {
      next := AddPair(next, violations, i, objects, j, minimum, name);
    }
  }

  function Sources(objects: seq<LayoutObject>): (sources: seq<LayoutObject>)
    ensures AreSources(sources)
    ensures forall o :: o in sources <==> o in objects && IsSource(o)
  {
    if objects == [] then [] else (if IsSource(objects[0]) then [objects[0]] else []) + Sources(objects[1..])
  }

  method BuildFragments(violations: seq<Violation>, objects: seq<LayoutObject>, minimum: nat, name: Naming)
    returns (t: Tables)
    requires Identified(violations, objects) && Injective(name)
    ensures Agree(t, Made(violations, Sources(objects), minimum, name))
  {
    var sources := Sources(objects);
    t := Tables(map[], map[], map[]);
    for i := 0 to |violations|
      invariant Agree(t, Made(violations[..i], sources, minimum, name))
    {
      t := AddViolation(t, violations, i, sources, minimum, name);
    }
    assert violations[..|violations|] == violations;
  }

  // ----- Same-layer adjacencies

  datatype Adjacency = Adjacency(a: Id, b: Id, layer: Id, gap: nat)

  predicate Close(f: Fragment, g: Fragment, minimum: nat) {
    f.layer == g.layer && f.parent != g.parent && OutwardGap(f.box, g.box) <= minimum
  }

  function AdjacencyOf(f: Fragment, g: Fragment): Adjacency {
    Adjacency(f.id, g.id, f.layer, OutwardGap(f.box, g.box))
  }

  ghost predicate Found(fragments: map<Id, Fragment>, minimum: nat, e: Adjacency) {
    && e.a in fragments && e.b in fragments && e.a < e.b
    && Close(fragments[e.a], fragments[e.b], minimum) && e == AdjacencyOf(fragments[e.a], fragments[e.b])
  }

  ghost predicate Before(e: Adjacency, f: Adjacency) { e.a < f.a || (e.a == f.a && e.b < f.b) }

  /** In increasing order of the pair, so each pair at most once. */
  ghost predicate Ascending(es: seq<Adjacency>) {
    forall k, l :: 0 <= k < l < |es| ==> Before(es[k], es[l])
  }

  ghost predicate Keyed(fragments: map<Id, Fragment>) {
    forall id <- fragments.Keys :: fragments[id].id == id
  }

  /** The inner loop: the later fragments close to the one at i. */
  method AdjacentTo(fragments: map<Id, Fragment>, ids: seq<Id>, i: nat, minimum: nat) returns (es: seq<Adjacency>)
    requires Keyed(fragments) && Increasing(ids) && (forall id :: id in ids <==> id in fragments) && i < |ids|
    ensures Ascending(es)
    ensures forall e :: e in es <==> Found(fragments, minimum, e) && e.a == ids[i]
  {
    es := [];
    for j := i + 1 to |ids|
      invariant Ascending(es)
      invariant forall e :: e in es <==> Found(fragments, minimum, e) && e.a == ids[i] && e.b in ids[i + 1..j]
    {
      assert ids[i] in ids && ids[j] in ids;
      var a, b := fragments[ids[i]], fragments[ids[j]];
      assert ids[i + 1..j + 1] == ids[i + 1..j] + [ids[j]];
      if Close(a, b, minimum) {
        forall k | 0 <= k < |es| ensures Before(es[k], AdjacencyOf(a, b)) {
          assert es[k] in es;
        }
        es := es + [AdjacencyOf(a, b)];
      }
    }
    forall e | Found(fragments, minimum, e) && e.a == ids[i] ensures e.b in ids[i + 1..] {
      LaterIds(ids, i, e.b);
    }
    assert ids[i + 1..|ids|] == ids[i + 1..];
  }

  lemma AppendAscending(es: seq<Adjacency>, fs: seq<Adjacency>)
    requires Ascending(es) && Ascending(fs) && forall e, f :: e in es && f in fs ==> e.a < f.a
    ensures Ascending(es + fs)
  {
    var all := es + fs;
    forall k, l | 0 <= k < l < |all| ensures Before(all[k], all[l]) {
      if k < |es| <= l {
        assert es[k] in es && fs[l - |es|] in fs;
      }
    }
  }

  method SameLayer(fragments: map<Id, Fragment>, minimum: nat) returns (es: seq<Adjacency>)
    requires Keyed(fragments)
    ensures Ascending(es)
    ensures forall e :: e in es <==> Found(fragments, minimum, e)
  {
    var ids := SortedItems(fragments.Keys);
    es := [];
    for i := 0 to |ids|
      invariant Ascending(es)
      invariant forall e :: e in es <==> Found(fragments, minimum, e) && e.a in ids[..i]
    {
      var more := AdjacentTo(fragments, ids, i, minimum);
      assert ids[..i + 1] == ids[..i] + [ids[i]];
      forall e, f | e in es && f in more ensures e.a < f.a {
        var k :| 0 <= k < i && ids[..i][k] == e.a;
        assert ids[k] < ids[i];
      }
      AppendAscending(es, more);
      es := es + more;
    }
    assert ids[..|ids|] == ids;
  }

  // ----- What the adjacencies mean

  ghost predicate Pairs(e: Adjacency, f: Fragment, g: Fragment) {
    (e.a == f.id && e.b == g.id) || (e.a == g.id && e.b == f.id)
  }

  /** Two fragments are listed together, and then once, exactly when some of their points are within the window. */
  lemma AdjacencyIsReach(fragments: map<Id, Fragment>, minimum: nat, es: seq<Adjacency>, f: Fragment, g: Fragment)
    requires Keyed(fragments) && Ascending(es) && forall e :: e in es <==> Found(fragments, minimum, e)
    requires f in fragments.Values && g in fragments.Values && f != g
    ensures (exists e :: e in es && Pairs(e, f, g)) <==>
            f.layer == g.layer && f.parent != g.parent && WithinReach(f.box, g.box, minimum)
    ensures forall k, l :: 0 <= k < l < |es| && Pairs(es[k], f, g) ==> !Pairs(es[l], f, g)
    ensures forall e :: e in es && Pairs(e, f, g) ==>
              e.a < e.b && e.layer == f.layer && forall n: nat :: e.gap <= n <==> WithinReach(f.box, g.box, n)
  {
    OutwardGapIsLeastReach(f.box, g.box, minimum);
    OutwardGapSymmetric(f.box, g.box);
    var a, b := if f.id < g.id then f else g, if f.id < g.id then g else f;
    assert fragments[f.id] == f && fragments[g.id] == g;
    if Close(f, g, minimum) {
      assert Found(fragments, minimum, AdjacencyOf(a, b));
      assert Pairs(AdjacencyOf(a, b), f, g);
    }
    forall e | e in es && Pairs(e, f, g)
      ensures Close(f, g, minimum) && e.a < e.b && e.layer == f.layer && e.gap == OutwardGap(f.box, g.box)
    {
      assert Found(fragments, minimum, e);
    }
    forall n: nat ensures OutwardGap(f.box, g.box) <= n <==> WithinReach(f.box, g.box, n) {
      OutwardGapIsLeastReach(f.box, g.box, n);
    }
    forall k, l | 0 <= k < l < |es| && Pairs(es[k], f, g) ensures !Pairs(es[l], f, g) {
      assert es[k] in es && es[l] in es;
      assert Found(fragments, minimum, es[k]) && Found(fragments, minimum, es[l]) && Before(es[k], es[l]);
    }
  }

  /** A fragment lies in its object and in the window of its violation, and holds every point of both. */
  lemma FragmentsAreClippings(violations: seq<Violation>, objects: seq<LayoutObject>, minimum: nat, name: Naming,
                              f: Fragment)
    requires f in Made(violations, Sources(objects), minimum, name)
    ensures f.id == name(f.parent, f.violation)
    ensures exists v, o :: v in violations && o in objects && v.id == f.violation && o.id == f.parent
              && o.anchor == Some(f.anchor) && o.layer == f.layer && (v.layers == {} || f.layer in v.layers)
              && forall x: real, y: real ::
                   Holds(f.box, x, y) <==> Holds(o.box, x, y) && Holds(Window(v, minimum), x, y)
  {
    var v, o :| v in violations && o in Sources(objects) && FragmentOf(v, o, minimum, name) == Some(f);
    IntersectionIsExact(o.box, Window(v, minimum));
  }

  // ----- Windows and fragments, told by fields

  /** The reach of a violation: the least that covers the minimum and both sides of its marker. */
  ghost predicate IsReach(v: Violation, minimum: nat, reach: nat) {
    && minimum <= reach && v.marker.x2 - v.marker.x1 <= reach && v.marker.y2 - v.marker.y1 <= reach
    && reach in {minimum, v.marker.x2 - v.marker.x1, v.marker.y2 - v.marker.y1}
  }

  /** The marker has a point within reach of (x, y) along both axes. */
  ghost predicate NearMarker(marker: Box, reach: real, x: real, y: real) {
    exists mx: real, my: real :: Beside(marker, reach, x, y, mx, my)
  }

  ghost predicate Beside(marker: Box, reach: real, x: real, y: real, mx: real, my: real) {
    Holds(marker, mx, my) && mx - reach <= x <= mx + reach && my - reach <= y <= my + reach
  }

  function Clamp(lo: real, hi: real, x: real): real { if x < lo then lo else if x > hi then hi else x }

  /** The window holds exactly the points within reach of the marker. */
  lemma WindowIsReach(v: Violation, minimum: nat, reach: nat, x: real, y: real)
    requires IsReach(v, minimum, reach)
    ensures Holds(Window(v, minimum), x, y) <==> NearMarker(v.marker, reach as real, x, y)
  {
    var m, r := v.marker, reach as real;
    assert Window(v, minimum) == Box(m.x1 - reach, m.y1 - reach, m.x2 + reach, m.y2 + reach);
    if Holds(Window(v, minimum), x, y) {
      var mx, my := Clamp(m.x1 as real, m.x2 as real, x), Clamp(m.y1 as real, m.y2 as real, y);
      assert Beside(m, r, x, y, mx, my);
    }
  }

  /** A violation and an object of its layers whose insides meet. */
  ghost predicate Fits(v: Violation, o: LayoutObject, minimum: nat) {
    && o.anchor.Some? && o.hasGeometry && o.routing && o.drawn && (v.layers == {} || o.layer in v.layers)
    && exists x: real, y: real :: HoldsInside(o.box, x, y) && HoldsInside(Window(v, minimum), x, y)
  }

  /** A pair of a violation and an object has a fragment exactly when it fits. */
  lemma FragmentIff(violations: seq<Violation>, objects: seq<LayoutObject>, minimum: nat, name: Naming,
                    v: Violation, o: LayoutObject)
    requires Identified(violations, objects) && v in violations && o in objects
    ensures (exists f :: f in Made(violations, Sources(objects), minimum, name)
                         && f.violation == v.id && f.parent == o.id)
       <==> Fits(v, o, minimum)
  {
    var made := Made(violations, Sources(objects), minimum, name);
    if IsSource(o) {
      IntersectionIsExact(o.box, Window(v, minimum));
      assert FragmentOf(v, o, minimum, name).Some? <==> Fits(v, o, minimum);
      if Fits(v, o, minimum) {
        assert o in Sources(objects);
        assert FragmentOf(v, o, minimum, name).value in made;
      }
    }
    if f :| f in made && f.violation == v.id && f.parent == o.id {
      var w, p :| w in violations && p in Sources(objects) && FragmentOf(w, p, minimum, name) == Some(f);
      assert w == v && p == o;
    }
  }
}
