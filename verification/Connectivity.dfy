/**
  The connectivity mapping of src/drc_agent/regions/connectivity.py: path endpoints are matched to
  routing objects by layer and outline, and objects joined by chains of matched paths share a component.
 */
module Connectivity {
  import opened Basics
  import opened Orders
  import opened Forests
  import opened UnionFinds
  import opened Outlines

  /**
    The fields of LayoutObject the mapping reads or writes. A component identifier is a hash of the
    sorted member ids; it stands here as those ids themselves.
   */
  datatype LayoutObject = LayoutObject(id: Id, routing: bool, layer: Option<int>, geometry: seq<Point>,
                                       component: Option<seq<Id>>)

  /** Malformed: reading the layer or the points raises KeyError, TypeError or ValueError. */
  datatype Endpoint = Malformed | Endpoint(layer: int, points: seq<Point>)

  datatype Path = Path(start: Endpoint, end: Endpoint)

  datatype Key = Key(layer: int, outline: seq<Point>)

  datatype Report = Report(objects: nat, endpoints: nat, unique: nat, ambiguous: nat, mapped: nat,
                           unavailable: int, components: nat, mappedIds: seq<Id>)

  // ----- What it means for an endpoint to match

  predicate Indexed(item: LayoutObject) { item.routing && item.layer.Some? && item.geometry != [] }

  /** The object lies on the endpoint's layer and draws the endpoint's outline. */
  ghost predicate Draws(item: LayoutObject, e: Endpoint) {
    Indexed(item) && e.Endpoint? && item.layer.value == e.layer && SameOutline(item.geometry, e.points)
  }

  ghost predicate MatchesUniquely(objects: seq<LayoutObject>, e: Endpoint, id: Id) {
    exists i :: 0 <= i < |objects| && Draws(objects[i], e) && objects[i].id == id
             && forall j :: 0 <= j < |objects| && Draws(objects[j], e) ==> j == i
  }

  ghost predicate IsAmbiguous(objects: seq<LayoutObject>, e: Endpoint) {
    exists i, j :: 0 <= i < j < |objects| && Draws(objects[i], e) && Draws(objects[j], e)
  }

  // ----- The index

  function KeyOf(item: LayoutObject): Key
    requires Indexed(item)
  {
    Key(item.layer.value, CanonicalPolygon(item.geometry))
  }

  predicate Under(item: LayoutObject, key: Key) { Indexed(item) && KeyOf(item) == key }

  /** What the index lists under a key. */
  function Matches(objects: seq<LayoutObject>, key: Key): seq<Id> {
    if objects == [] then []
    else
      var init := Matches(objects[..|objects| - 1], key);
      var last := objects[|objects| - 1];
      if Under(last, key) then init + [last.id] else init
  }

  /** Where the matches stand. */
  ghost function Places(objects: seq<LayoutObject>, key: Key): seq<nat> {
    if objects == [] then []
    else
      var init := Places(objects[..|objects| - 1], key);
      if Under(objects[|objects| - 1], key) then init + [|objects| - 1] else init
  }

  /** at lists where the key's objects stand, in order, and ids are their ids. */
  ghost predicate StandAt(objects: seq<LayoutObject>, key: Key, at: seq<nat>, ids: seq<Id>) {
    && Increasing(at) && |at| == |ids|
    && (forall i: nat :: i in at <==> i < |objects| && Under(objects[i], key))
    && (forall k :: 0 <= k < |at| ==> at[k] < |objects| && ids[k] == objects[at[k]].id)
  }

  lemma StandAtSnoc(objects: seq<LayoutObject>, item: LayoutObject, key: Key, at: seq<nat>, ids: seq<Id>)
    requires StandAt(objects, key, at, ids)
    ensures if Under(item, key) then StandAt(objects + [item], key, at + [|objects|], ids + [item.id])
            else StandAt(objects + [item], key, at, ids)
  {
    IncreasingSnoc(at, |objects|);
    var hit := Under(item, key);
    var at' := if hit then at + [|objects|] else at;
    forall i: nat ensures i in at' <==> i < |objects + [item]| && Under((objects + [item])[i], key) {
      HitAt(objects, item, i);
      assert i in at' <==> i in at || (hit && i == |objects|);
    }
    forall k | 0 <= k < |at| ensures at[k] < |objects| && (objects + [item])[at[k]].id == ids[k] {
      HitAt(objects, item, at[k]);
    }
  }

  lemma HitAt(objects: seq<LayoutObject>, item: LayoutObject, i: nat)
    ensures i < |objects| ==> (objects + [item])[i] == objects[i]
    ensures i == |objects| ==> (objects + [item])[i] == item
  {}

  lemma {:induction false} PlacesOfMatches(objects: seq<LayoutObject>, key: Key)
    ensures StandAt(objects, key, Places(objects, key), Matches(objects, key))
  {
    if objects != [] {
      var init, last := objects[..|objects| - 1], objects[|objects| - 1];
      PlacesOfMatches(init, key);
      StandAtSnoc(init, last, key, Places(init, key), Matches(init, key));
      assert objects == init + [last];
    }
  }

  lemma MatchesCount(objects: seq<LayoutObject>, key: Key)
    ensures |Matches(objects, key)| == 0 ==> forall i :: 0 <= i < |objects| ==> !Under(objects[i], key)
    ensures |Matches(objects, key)| == 1 ==>
              exists i :: 0 <= i < |objects| && Under(objects[i], key) && objects[i].id == Matches(objects, key)[0]
                       && forall j :: 0 <= j < |objects| && Under(objects[j], key) ==> j == i
    ensures |Matches(objects, key)| > 1 ==>
              exists i, j :: 0 <= i < j < |objects| && Under(objects[i], key) && Under(objects[j], key)
  {
    PlacesOfMatches(objects, key);
    var at := Places(objects, key);
    if |at| == 1 {
      assert at[0] in at;
    } else if |at| > 1 {
      assert at[0] in at && at[1] in at;
    }
  }

  function Resolve(objects: seq<LayoutObject>, e: Endpoint): Option<Id> {
    if e.Malformed? then None
    else
      var matches := Matches(objects, Key(e.layer, CanonicalPolygon(e.points)));
      if |matches| == 1 then Some(matches[0]) else None
  }

  function Ambiguous(objects: seq<LayoutObject>, e: Endpoint): bool {
    e.Endpoint? && |Matches(objects, Key(e.layer, CanonicalPolygon(e.points)))| > 1
  }

  /** Looking up the canonical key finds exactly the objects that draw the endpoint's outline. */
  lemma DrawsIsUnder(item: LayoutObject, e: Endpoint)
    requires e.Endpoint?
    ensures Draws(item, e) <==> Under(item, Key(e.layer, CanonicalPolygon(e.points)))
  {
    CanonicalDecidesOutline(item.geometry, e.points);
  }

  /** An endpoint resolves to an object exactly when that object alone draws it. */
  lemma ResolveIsUniqueMatch(objects: seq<LayoutObject>, e: Endpoint)
    ensures forall id: Id :: Resolve(objects, e) == Some(id) <==> MatchesUniquely(objects, e, id)
    ensures Ambiguous(objects, e) <==> IsAmbiguous(objects, e)
  {
    if e.Endpoint? {
      var key := Key(e.layer, CanonicalPolygon(e.points));
      forall i | 0 <= i < |objects| ensures Draws(objects[i], e) <==> Under(objects[i], key) {
        DrawsIsUnder(objects[i], e);
      }
      MatchesCount(objects, key);
    }
  }

  // ----- What the paths say

  function Ends(path: Path): seq<Endpoint> { [path.start, path.end] }

  function Endpoints(paths: seq<Path>): (ends: seq<Endpoint>)
    ensures |ends| == 2 * |paths|
  {
    if paths == [] then [] else Endpoints(paths[..|paths| - 1]) + Ends(paths[|paths| - 1])
  }

  function CountUnique(objects: seq<LayoutObject>, ends: seq<Endpoint>): nat {
    if ends == [] then 0
    else CountUnique(objects, ends[..|ends| - 1]) + if Resolve(objects, ends[|ends| - 1]).Some? then 1 else 0
  }

  function CountAmbiguous(objects: seq<LayoutObject>, ends: seq<Endpoint>): nat {
    if ends == [] then 0
    else CountAmbiguous(objects, ends[..|ends| - 1]) + if Ambiguous(objects, ends[|ends| - 1]) then 1 else 0
  }

  ghost function MatchedIds(objects: seq<LayoutObject>, ends: seq<Endpoint>): set<Id> {
    set e | e in ends && Resolve(objects, e).Some? :: Resolve(objects, e).value
  }

  type Resolution = (Option<Id>, Option<Id>)

  function PathResolution(objects: seq<LayoutObject>, path: Path): Resolution {
    (Resolve(objects, path.start), Resolve(objects, path.end))
  }

  ghost function EdgesOf(r: Resolution): Edges {
    if r.0.Some? && r.1.Some? then {(r.0.value, r.1.value)} else {}
  }

  predicate Joined(objects: seq<LayoutObject>, path: Path) {
    Resolve(objects, path.start).Some? && Resolve(objects, path.end).Some?
  }

  ghost function EdgeOf(objects: seq<LayoutObject>, path: Path): (Id, Id)
    requires Joined(objects, path)
  {
    (Resolve(objects, path.start).value, Resolve(objects, path.end).value)
  }

  /** One edge for every path whose two endpoints both match uniquely. */
  ghost function PathEdges(objects: seq<LayoutObject>, paths: seq<Path>): Edges {
    set path | path in paths && Joined(objects, path) :: EdgeOf(objects, path)
  }

  // ----- The result

  /** The objects joined to x by a chain of matched paths, in sorted order. */
  ghost predicate IsComponent(matched: set<Id>, edges: Edges, x: Id, ids: seq<Id>) {
    Increasing(ids) && forall y: Id :: y in ids <==> y in matched && Connected(edges, x, y)
  }

  ghost predicate IsMapped(matched: set<Id>, edges: Edges, item: LayoutObject, result: LayoutObject) {
    if item.id in matched then
      result.component.Some? && IsComponent(matched, edges, item.id, result.component.value)
      && result == item.(component := result.component)
    else result == item
  }

  ghost predicate HasComponent(matched: set<Id>, edges: Edges, x: Id, ids: seq<Id>) {
    x in matched && IsComponent(matched, edges, x, ids)
  }

  ghost predicate IsPart(matched: set<Id>, edges: Edges, part: seq<Id>) {
    part != [] && forall x <- part :: HasComponent(matched, edges, x, part)
  }

  /** parts lists the components, each once. */
  ghost predicate AreComponents(matched: set<Id>, edges: Edges, parts: seq<seq<Id>>) {
    && (forall x <- matched :: InSome(parts, x))
    && (forall g :: 0 <= g < |parts| ==> IsPart(matched, edges, parts[g]))
    && (forall g, h :: 0 <= g < h < |parts| ==> Disjoint(parts[g], parts[h]))
  }

  ghost predicate IsReport(objects: seq<LayoutObject>, paths: seq<Path>, report: Report) {
    var ends := Endpoints(paths);
    var matched := MatchedIds(objects, ends);
    && report.objects == |objects| && report.endpoints == 2 * |paths|
    && report.unique == CountUnique(objects, ends) && report.ambiguous == CountAmbiguous(objects, ends)
    && report.mapped == |matched| && report.unavailable == |objects| - |matched|
    && Increasing(report.mappedIds) && (forall x: Id :: x in report.mappedIds <==> x in matched)
    && exists parts: seq<seq<Id>> ::
         |parts| == report.components && AreComponents(matched, PathEdges(objects, paths), parts)
  }

  ghost predicate IsMapping(objects: seq<LayoutObject>, paths: seq<Path>, mapped: seq<LayoutObject>, report: Report) {
    && |mapped| == |objects|
    && (forall i :: 0 <= i < |objects| ==>
          IsMapped(MatchedIds(objects, Endpoints(paths)), PathEdges(objects, paths), objects[i], mapped[i]))
    && IsReport(objects, paths, report)
  }

  // ----- The loop over objects: the index

  function Lookup(index: map<Key, seq<Id>>, key: Key): seq<Id> { if key in index then index[key] else [] }

  ghost predicate IsIndex(objects: seq<LayoutObject>, index: map<Key, seq<Id>>) {
    forall key {:trigger Matches(objects, key)} :: Lookup(index, key) == Matches(objects, key)
  }

  lemma MatchesSnoc(objects: seq<LayoutObject>, item: LayoutObject, key: Key)
    ensures Matches(objects + [item], key)
         == if Under(item, key) then Matches(objects, key) + [item.id] else Matches(objects, key)
  {
    var all := objects + [item];
    assert all[..|all| - 1] == objects;
  }

  method IndexObjects(objects: seq<LayoutObject>) returns (index: map<Key, seq<Id>>)
    ensures IsIndex(objects, index)
  {
    index := map[];
    for i := 0 to |objects|
      invariant IsIndex(objects[..i], index)
    {
      var item := objects[i];
      assert objects[..i + 1] == objects[..i] + [item];
      ghost var before := index;
      if Indexed(item) {
        var key := KeyOf(item);
        assert Lookup(index, key) == Matches(objects[..i], key);
        index := index[key := Lookup(index, key) + [item.id]];
      }
      forall key ensures Lookup(index, key) == Matches(objects[..i + 1], key) {
        MatchesSnoc(objects[..i], item, key);
        assert Lookup(before, key) == Matches(objects[..i], key);
      }
    }
    assert objects[..|objects|] == objects;
  }

  // ----- The loop over paths: endpoints

  datatype Tally = Tally(matched: set<Id>, endpoints: nat, unique: nat, ambiguous: nat)

  ghost predicate Counts(objects: seq<LayoutObject>, ends: seq<Endpoint>, tally: Tally) {
    && tally.matched == MatchedIds(objects, ends) && tally.endpoints == |ends|
    && tally.unique == CountUnique(objects, ends) && tally.ambiguous == CountAmbiguous(objects, ends)
  }

  lemma CountsSnoc(objects: seq<LayoutObject>, ends: seq<Endpoint>, e: Endpoint)
    ensures CountUnique(objects, ends + [e])
         == CountUnique(objects, ends) + if Resolve(objects, e).Some? then 1 else 0
    ensures CountAmbiguous(objects, ends + [e])
         == CountAmbiguous(objects, ends) + if Ambiguous(objects, e) then 1 else 0
    ensures MatchedIds(objects, ends + [e])
         == MatchedIds(objects, ends) + if Resolve(objects, e).Some? then {Resolve(objects, e).value} else {}
  {
    var all := ends + [e];
    assert all[..|all| - 1] == ends;
  }

  /** One round of the inner loop, for one endpoint. */
  method MatchEndpoint(ghost objects: seq<LayoutObject>, index: map<Key, seq<Id>>, e: Endpoint,
                       tally: Tally, ghost ends: seq<Endpoint>)
    returns (match_: Option<Id>, next: Tally)
    requires IsIndex(objects, index) && Counts(objects, ends, tally)
    ensures match_ == Resolve(objects, e) && Counts(objects, ends + [e], next)
  {
    CountsSnoc(objects, ends, e);
    next := tally.(endpoints := tally.endpoints + 1);
    if e.Malformed? {
      return None, next;
    }
    var key := Key(e.layer, CanonicalPolygon(e.points));
    var matches := Lookup(index, key);
    assert matches == Matches(objects, key);
    if |matches| == 1 {
      match_ := Some(matches[0]);
      next := next.(matched := next.matched + {matches[0]}, unique := next.unique + 1);
    } else {
      next := next.(ambiguous := next.ambiguous + if |matches| > 1 then 1 else 0);
      match_ := None;
    }
  }

  lemma EndpointsSnoc(paths: seq<Path>, path: Path)
    ensures Endpoints(paths + [path]) == Endpoints(paths) + [path.start] + [path.end]
  {
    var all := paths + [path];
    assert all[..|all| - 1] == paths;
  }

  /** The inner loop, over the two endpoints of a path. */
  method MatchPath(ghost objects: seq<LayoutObject>, index: map<Key, seq<Id>>, path: Path,
                   tally: Tally, ghost before: seq<Path>)
    returns (matched: Resolution, next: Tally)
    requires IsIndex(objects, index) && Counts(objects, Endpoints(before), tally)
    ensures matched == PathResolution(objects, path)
    ensures Counts(objects, Endpoints(before + [path]), next)
  {
    EndpointsSnoc(before, path);
    var left, half := MatchEndpoint(objects, index, path.start, tally, Endpoints(before));
    var right, full := MatchEndpoint(objects, index, path.end, half, Endpoints(before) + [path.start]);
    matched, next := (left, right), full;
  }

  ghost predicate Resolved(objects: seq<LayoutObject>, paths: seq<Path>, matched: seq<Resolution>) {
    |matched| == |paths| && forall i :: 0 <= i < |paths| ==> matched[i] == PathResolution(objects, paths[i])
  }

  lemma NoPaths(objects: seq<LayoutObject>)
    ensures Counts(objects, Endpoints([]), Tally({}, 0, 0, 0)) && Resolved(objects, [], [])
  {}

  method MatchPaths(ghost objects: seq<LayoutObject>, index: map<Key, seq<Id>>, paths: seq<Path>)
    returns (matched: seq<Resolution>, tally: Tally)
    requires IsIndex(objects, index)
    ensures Resolved(objects, paths, matched) && Counts(objects, Endpoints(paths), tally)
  {
    matched, tally := [], Tally({}, 0, 0, 0);
    NoPaths(objects);
    for i := 0 to |paths|
      invariant Resolved(objects, paths[..i], matched) && Counts(objects, Endpoints(paths[..i]), tally)
    {
      var r, next := MatchPath(objects, index, paths[i], tally, paths[..i]);
      matched, tally := matched + [r], next;
      assert paths[..i + 1] == paths[..i] + [paths[i]];
    }
    assert paths[..|paths|] == paths;
  }

  // ----- The union-find over matched paths

  lemma PathEdgesSnoc(objects: seq<LayoutObject>, paths: seq<Path>, path: Path)
    ensures PathEdges(objects, paths + [path])
         == PathEdges(objects, paths) + if Joined(objects, path) then {EdgeOf(objects, path)} else {}
  {}

  lemma EndsAreMatched(objects: seq<LayoutObject>, paths: seq<Path>)
    ensures forall e <- PathEdges(objects, paths) ::
              e.0 in MatchedIds(objects, Endpoints(paths)) && e.1 in MatchedIds(objects, Endpoints(paths))
  {
    forall path | path in paths ensures path.start in Endpoints(paths) && path.end in Endpoints(paths) {
      EndpointsHold(paths, path);
    }
  }

  lemma {:induction false} EndpointsHold(paths: seq<Path>, path: Path)
    requires path in paths
    ensures path.start in Endpoints(paths) && path.end in Endpoints(paths)
  {
    var last := paths[|paths| - 1];
    assert last.start in Ends(last) && last.end in Ends(last);
    if path != last {
      EndpointsHold(paths[..|paths| - 1], path);
    }
  }

  ghost predicate Within(edges: Edges, ids: set<Id>) {
    forall e {:trigger e in edges} :: e in edges ==> e.0 in ids && e.1 in ids
  }

  lemma NextEdges(objects: seq<LayoutObject>, paths: seq<Path>, i: nat)
    requires i < |paths|
    ensures PathEdges(objects, paths[..i + 1])
         == PathEdges(objects, paths[..i]) + EdgesOf(PathResolution(objects, paths[i]))
    ensures Within(PathEdges(objects, paths[..i + 1]), MatchedIds(objects, Endpoints(paths)))
  {
    EdgesAreWithin(objects, paths, i + 1);
    EdgeStep(objects, paths, i);
  }

  lemma EdgeStep(objects: seq<LayoutObject>, paths: seq<Path>, i: nat)
    requires i < |paths|
    ensures PathEdges(objects, paths[..i + 1])
         == PathEdges(objects, paths[..i]) + EdgesOf(PathResolution(objects, paths[i]))
  {
    assert paths[..i + 1] == paths[..i] + [paths[i]];
    PathEdgesSnoc(objects, paths[..i], paths[i]);
  }

  lemma EdgesAreWithin(objects: seq<LayoutObject>, paths: seq<Path>, i: nat)
    requires i <= |paths|
    ensures Within(PathEdges(objects, paths[..i]), MatchedIds(objects, Endpoints(paths)))
  {
    EndsAreMatched(objects, paths);
    MorePathsMoreEdges(objects, paths[..i], paths);
  }

  lemma MorePathsMoreEdges(objects: seq<LayoutObject>, few: seq<Path>, more: seq<Path>)
    requires forall path :: path in few ==> path in more
    ensures PathEdges(objects, few) <= PathEdges(objects, more)
  {}

  method UnitePath(uf: UnionFind, r: Resolution, ghost edges: Edges)
    requires uf.Valid() && Represents(uf.parent, edges) && Within(edges + EdgesOf(r), uf.parent.Keys)
    modifies uf
    ensures uf.Valid() && uf.parent.Keys == old(uf.parent).Keys
    ensures Represents(uf.parent, edges + EdgesOf(r))
  {
    if r.0.Some? && r.1.Some? {
      assert (r.0.value, r.1.value) in edges + EdgesOf(r);
      AddEdge(uf, r.0.value, r.1.value, edges);
    } else {
      assert edges + EdgesOf(r) == edges;
    }
  }

  method UnitePaths(ghost objects: seq<LayoutObject>, paths: seq<Path>, matched: seq<Resolution>, ids: set<Id>)
    returns (uf: UnionFind)
    requires Resolved(objects, paths, matched) && ids == MatchedIds(objects, Endpoints(paths))
    ensures fresh(uf) && uf.Valid() && uf.parent.Keys == ids
    ensures Represents(uf.parent, PathEdges(objects, paths))
  {
    uf := new UnionFind(ids);
    ghost var edges: Edges := {};
    for i := 0 to |paths|
      invariant fresh(uf) && uf.Valid() && uf.parent.Keys == ids
      invariant Represents(uf.parent, edges) && edges == PathEdges(objects, paths[..i])
    {
      NextEdges(objects, paths, i);
      UnitePath(uf, matched[i], edges);
      edges := edges + EdgesOf(matched[i]);
    }
    assert paths[..|paths|] == paths;
  }

  /** The groups of a forest that represents the edges are its components. */
  lemma GroupsAreComponents(parent: map<Id, Id>, edges: Edges, groups: seq<seq<Id>>)
    requires Represents(parent, edges) && IsGrouping(parent, groups)
    ensures AreComponents(parent.Keys, edges, groups)
  {
    GroupingPartitions(parent, groups);
    forall g | 0 <= g < |groups| ensures IsPart(parent.Keys, edges, groups[g]) {
      assert IsClass(parent, groups[g]);
      forall x | x in groups[g] ensures HasComponent(parent.Keys, edges, x, groups[g]) {
        ClassIsComponent(parent, edges, groups[g], x);
      }
    }
    forall x | x in parent.Keys ensures InSome(groups, x) {}
  }

  lemma ClassIsComponent(parent: map<Id, Id>, edges: Edges, group: seq<Id>, x: Id)
    requires Represents(parent, edges) && IsClass(parent, group) && x in group
    ensures x in parent && IsComponent(parent.Keys, edges, x, group)
  {
    assert Same(parent, group[0], x);
    forall y: Id ensures y in group <==> y in parent && Connected(edges, x, y) {
      assert y in group <==> Same(parent, group[0], y);
    }
  }

  ghost predicate Covers(ids: set<Id>, part: seq<Id>) {
    forall x <- part :: x in ids
  }

  ghost predicate OwnComponents(ids: set<Id>, edges: Edges, components: map<Id, seq<Id>>) {
    forall x {:trigger components[x]} :: x in components ==> HasComponent(ids, edges, x, components[x])
  }

  /** The inner loop: every member of a part is given the part. */
  method AssignPart(ids: set<Id>, part: seq<Id>, components: map<Id, seq<Id>>, ghost edges: Edges)
    returns (next: map<Id, seq<Id>>)
    requires IsPart(ids, edges, part) && OwnComponents(ids, edges, components)
    ensures components.Keys <= next.Keys && Covers(next.Keys, part) && OwnComponents(ids, edges, next)
  {
    next := components;
    for k := 0 to |part|
      invariant components.Keys <= next.Keys && OwnComponents(ids, edges, next)
      invariant forall j :: 0 <= j < k ==> part[j] in next
    {
      assert HasComponent(ids, edges, part[k], part);
      next := next[part[k] := part];
    }
  }

  /** component_by_object. */
  method ComponentOf(ids: set<Id>, parts: seq<seq<Id>>, ghost edges: Edges)
    returns (components: map<Id, seq<Id>>)
    requires AreComponents(ids, edges, parts)
    ensures components.Keys == ids && OwnComponents(ids, edges, components)
  {
    components := map[];
    for g := 0 to |parts|
      invariant OwnComponents(ids, edges, components)
      invariant forall h :: 0 <= h < g ==> Covers(components.Keys, parts[h])
    {
      components := AssignPart(ids, parts[g], components, edges);
    }
    forall x ensures x in ids <==> x in components {
      if x in components {
        assert HasComponent(ids, edges, x, components[x]);
      }
      if x in ids {
        assert InSome(parts, x);
      }
    }
  }

  method Attach(objects: seq<LayoutObject>, ids: set<Id>, components: map<Id, seq<Id>>, ghost edges: Edges)
    returns (mapped: seq<LayoutObject>)
    requires components.Keys == ids && OwnComponents(ids, edges, components)
    ensures |mapped| == |objects|
    ensures forall i :: 0 <= i < |objects| ==> IsMapped(ids, edges, objects[i], mapped[i])
  {
    mapped := [];
    for i := 0 to |objects|
      invariant |mapped| == i
      invariant forall k :: 0 <= k < i ==> IsMapped(ids, edges, objects[k], mapped[k])
    {
      var item := objects[i];
      if item.id in components {
        assert HasComponent(ids, edges, item.id, components[item.id]);
        mapped := mapped + [item.(component := Some(components[item.id]))];
      } else {
        mapped := mapped + [item];
      }
    }
  }

  method MapConnectivityComponents(objects: seq<LayoutObject>, paths: seq<Path>)
    returns (mapped: seq<LayoutObject>, report: Report)
    ensures IsMapping(objects, paths, mapped, report)
  {
    var index := IndexObjects(objects);
    var matched, tally := MatchPaths(objects, index, paths);
    var ids := tally.matched;
    var uf := UnitePaths(objects, paths, matched, ids);
    ghost var united, edges := uf.parent, PathEdges(objects, paths);
    var groups := uf.Groups();
    SameRootsRepresent(united, uf.parent, edges);
    GroupsAreComponents(uf.parent, edges, groups);
    var components := ComponentOf(ids, groups, edges);
    mapped := Attach(objects, ids, components, edges);
    var mappedIds := SortedItems(ids);
    report := Report(|objects|, tally.endpoints, tally.unique, tally.ambiguous, |ids|, |objects| - |ids|,
                     |groups|, mappedIds);
  }

  // ----- What the mapping means

  /** An object is matched when it alone draws some endpoint of some path. */
  lemma MatchedMeansUniqueEndpoint(objects: seq<LayoutObject>, paths: seq<Path>, id: Id)
    ensures id in MatchedIds(objects, Endpoints(paths)) <==>
            exists path :: path in paths
                        && (MatchesUniquely(objects, path.start, id) || MatchesUniquely(objects, path.end, id))
  {
    if id in MatchedIds(objects, Endpoints(paths)) {
      var e :| e in Endpoints(paths) && Resolve(objects, e) == Some(id);
      ResolveIsUniqueMatch(objects, e);
      var path := PathOfEndpoint(paths, e);
      assert path in paths;
    }
    if path :| path in paths && (MatchesUniquely(objects, path.start, id) || MatchesUniquely(objects, path.end, id)) {
      EndpointsHold(paths, path);
      ResolveIsUniqueMatch(objects, path.start);
      ResolveIsUniqueMatch(objects, path.end);
    }
  }

  lemma {:induction false} PathOfEndpoint(paths: seq<Path>, e: Endpoint) returns (path: Path)
    requires e in Endpoints(paths)
    ensures path in paths && (e == path.start || e == path.end)
  {
    path := paths[|paths| - 1];
    if e !in Ends(path) {
      path := PathOfEndpoint(paths[..|paths| - 1], e);
    }
  }

  /** Matched objects carry the same component exactly when a chain of matched paths joins them. */
  lemma SameComponentIffJoined(objects: seq<LayoutObject>, paths: seq<Path>, mapped: seq<LayoutObject>, report: Report,
                               i: nat, j: nat)
    requires IsMapping(objects, paths, mapped, report) && i < |objects| && j < |objects|
    requires objects[i].id in MatchedIds(objects, Endpoints(paths))
    requires objects[j].id in MatchedIds(objects, Endpoints(paths))
    ensures mapped[i].component == mapped[j].component <==>
            Connected(PathEdges(objects, paths), objects[i].id, objects[j].id)
  {
    var matched, edges := MatchedIds(objects, Endpoints(paths)), PathEdges(objects, paths);
    var x, y := objects[i].id, objects[j].id;
    assert IsMapped(matched, edges, objects[i], mapped[i]) && IsMapped(matched, edges, objects[j], mapped[j]);
    ConnectedReflexive(edges, y);
    if Connected(edges, x, y) {
      ComponentsAgree(matched, edges, x, mapped[i].component.value, y, mapped[j].component.value);
    }
  }

  /** A component is determined by any of its members. */
  lemma ComponentsAgree(matched: set<Id>, edges: Edges, x: Id, ids: seq<Id>, y: Id, ids': seq<Id>)
    requires IsComponent(matched, edges, x, ids) && IsComponent(matched, edges, y, ids')
    requires Connected(edges, x, y)
    ensures ids == ids'
  {
    ConnectedSymmetric(edges, x, y);
    forall z: Id ensures z in ids <==> z in ids' {
      if Connected(edges, x, z) {
        ConnectedTransitive(edges, y, x, z);
      }
      if Connected(edges, y, z) {
        ConnectedTransitive(edges, x, y, z);
      }
    }
    IncreasingUnique(ids, ids');
  }

  // ----- The order of paths does not matter

  lemma {:induction false} CountsAppend(objects: seq<LayoutObject>, xs: seq<Endpoint>, ys: seq<Endpoint>)
    ensures CountUnique(objects, xs + ys) == CountUnique(objects, xs) + CountUnique(objects, ys)
    ensures CountAmbiguous(objects, xs + ys) == CountAmbiguous(objects, xs) + CountAmbiguous(objects, ys)
  {
    if ys == [] {
      assert xs + ys == xs;
    } else {
      var init, last := ys[..|ys| - 1], ys[|ys| - 1];
      assert ys == init + [last] && xs + ys == (xs + init) + [last];
      CountsAppend(objects, xs, init);
      CountsSnoc(objects, init, last);
      CountsSnoc(objects, xs + init, last);
    }
  }

  lemma {:induction false} CountsPermute(objects: seq<LayoutObject>, xs: seq<Endpoint>, ys: seq<Endpoint>)
    requires multiset(xs) == multiset(ys)
    ensures CountUnique(objects, xs) == CountUnique(objects, ys)
    ensures CountAmbiguous(objects, xs) == CountAmbiguous(objects, ys)
  {
    SameElements(xs, ys);
    if xs != [] {
      var init, last := xs[..|xs| - 1], xs[|xs| - 1];
      assert xs == init + [last];
      var k := TakeOut(init, last, ys);
      var front, back := ys[..k], ys[k + 1..];
      CountsPermute(objects, init, front + back);
      CountsSnoc(objects, init, last);
      CountsSnoc(objects, front, last);
      CountsAppend(objects, front + [last], back);
      CountsAppend(objects, front, back);
    }
  }

  lemma {:induction false} EndpointsAppend(xs: seq<Path>, ys: seq<Path>)
    ensures Endpoints(xs + ys) == Endpoints(xs) + Endpoints(ys)
  {
    if ys == [] {
      assert xs + ys == xs;
    } else {
      var init, last := ys[..|ys| - 1], ys[|ys| - 1];
      assert ys == init + [last] && xs + ys == (xs + init) + [last];
      EndpointsAppend(xs, init);
      EndpointsSnoc(init, last);
      EndpointsSnoc(xs + init, last);
    }
  }

  lemma {:induction false} EndpointsPermute(xs: seq<Path>, ys: seq<Path>)
    requires multiset(xs) == multiset(ys)
    ensures multiset(Endpoints(xs)) == multiset(Endpoints(ys))
  {
    SameElements(xs, ys);
    if xs != [] {
      var init, last := xs[..|xs| - 1], xs[|xs| - 1];
      assert xs == init + [last];
      var k := TakeOut(init, last, ys);
      var front, back := ys[..k], ys[k + 1..];
      EndpointsPermute(init, front + back);
      EndpointsSnoc(init, last);
      EndpointsSnoc(front, last);
      EndpointsAppend(front + [last], back);
      EndpointsAppend(front, back);
    }
  }

  ghost function Elements(parts: seq<seq<Id>>): set<seq<Id>> {
    set part | part in parts
  }

  lemma LastIsNew(parts: seq<seq<Id>>)
    requires parts != [] && parts[|parts| - 1] != []
    requires forall g, h :: 0 <= g < h < |parts| ==> Disjoint(parts[g], parts[h])
    ensures parts[|parts| - 1] !in parts[..|parts| - 1]
  {
    forall g | 0 <= g < |parts| - 1 ensures parts[g] != parts[|parts| - 1] {
      assert Disjoint(parts[g], parts[|parts| - 1]);
      var last := parts[|parts| - 1];
      assert last[0] in last;
    }
  }

  lemma {:induction false} PartsAreDistinct(parts: seq<seq<Id>>)
    requires forall g :: 0 <= g < |parts| ==> parts[g] != []
    requires forall g, h :: 0 <= g < h < |parts| ==> Disjoint(parts[g], parts[h])
    ensures |Elements(parts)| == |parts|
  {
    if parts != [] {
      var init, last := parts[..|parts| - 1], parts[|parts| - 1];
      PartsAreDistinct(init);
      LastIsNew(parts);
      assert Elements(parts) == Elements(init) + {last};
    }
  }

  lemma ComponentIsListed(matched: set<Id>, edges: Edges, parts: seq<seq<Id>>, parts': seq<seq<Id>>, part: seq<Id>)
    requires AreComponents(matched, edges, parts) && AreComponents(matched, edges, parts') && part in parts
    ensures part in parts'
  {
    assert IsPart(matched, edges, part);
    var x := part[0];
    assert HasComponent(matched, edges, x, part);
    assert InSome(parts', x);
    var h :| 0 <= h < |parts'| && x in parts'[h];
    assert IsPart(matched, edges, parts'[h]);
    assert HasComponent(matched, edges, x, parts'[h]);
    ConnectedReflexive(edges, x);
    ComponentsAgree(matched, edges, x, part, x, parts'[h]);
  }

  lemma ComponentCountIsDetermined(matched: set<Id>, edges: Edges, parts: seq<seq<Id>>, parts': seq<seq<Id>>)
    requires AreComponents(matched, edges, parts) && AreComponents(matched, edges, parts')
    ensures |parts| == |parts'|
  {
    forall part ensures part in parts <==> part in parts' {
      if part in parts {
        ComponentIsListed(matched, edges, parts, parts', part);
      }
      if part in parts' {
        ComponentIsListed(matched, edges, parts', parts, part);
      }
    }
    PartsAreDistinct(parts);
    PartsAreDistinct(parts');
    assert Elements(parts) == Elements(parts');
  }

  /** Listing the paths in another order changes neither the objects nor the report. */
  lemma MappingIgnoresPathOrder(objects: seq<LayoutObject>, paths: seq<Path>, paths': seq<Path>,
                                mapped: seq<LayoutObject>, report: Report,
                                mapped': seq<LayoutObject>, report': Report)
    requires multiset(paths) == multiset(paths')
    requires IsMapping(objects, paths, mapped, report) && IsMapping(objects, paths', mapped', report')
    ensures mapped == mapped' && report == report'
  {
    var ends, ends' := Endpoints(paths), Endpoints(paths');
    EndpointsPermute(paths, paths');
    SameElements(ends, ends');
    SameElements(paths, paths');
    CountsPermute(objects, ends, ends');
    SameMatches(objects, paths, paths');
    var matched, edges := MatchedIds(objects, ends), PathEdges(objects, paths);
    forall i | 0 <= i < |objects| ensures mapped[i] == mapped'[i] {
      MappedIsDetermined(matched, edges, objects[i], mapped[i], mapped'[i]);
    }
    ReportIsDetermined(objects, paths, paths', report, report');
  }

  lemma SameMatches(objects: seq<LayoutObject>, paths: seq<Path>, paths': seq<Path>)
    requires forall path :: path in paths <==> path in paths'
    requires forall e :: e in Endpoints(paths) <==> e in Endpoints(paths')
    ensures MatchedIds(objects, Endpoints(paths)) == MatchedIds(objects, Endpoints(paths'))
    ensures PathEdges(objects, paths) == PathEdges(objects, paths')
  {}

  lemma MappedIsDetermined(matched: set<Id>, edges: Edges, item: LayoutObject, result: LayoutObject,
                           result': LayoutObject)
    requires IsMapped(matched, edges, item, result) && IsMapped(matched, edges, item, result')
    ensures result == result'
  {
    if item.id in matched {
      ConnectedReflexive(edges, item.id);
      ComponentsAgree(matched, edges, item.id, result.component.value, item.id, result'.component.value);
    }
  }

  lemma ReportIsDetermined(objects: seq<LayoutObject>, paths: seq<Path>, paths': seq<Path>, report: Report,
                           report': Report)
    requires IsReport(objects, paths, report) && IsReport(objects, paths', report') && |paths| == |paths'|
    requires MatchedIds(objects, Endpoints(paths)) == MatchedIds(objects, Endpoints(paths'))
    requires PathEdges(objects, paths) == PathEdges(objects, paths')
    requires CountUnique(objects, Endpoints(paths)) == CountUnique(objects, Endpoints(paths'))
    requires CountAmbiguous(objects, Endpoints(paths)) == CountAmbiguous(objects, Endpoints(paths'))
    ensures report == report'
  {
    var matched, edges := MatchedIds(objects, Endpoints(paths)), PathEdges(objects, paths);
    var parts :| |parts| == report.components && AreComponents(matched, edges, parts);
    var parts' :| |parts'| == report'.components && AreComponents(matched, edges, parts');
    ComponentCountIsDetermined(matched, edges, parts, parts');
    IncreasingUnique(report.mappedIds, report'.mappedIds);
  }

  // ----- Counts of objects

  ghost predicate UniqueIds(objects: seq<LayoutObject>) {
    forall i, j :: 0 <= i < j < |objects| ==> objects[i].id != objects[j].id
  }

  ghost function PlacesOf(objects: seq<LayoutObject>, ids: set<Id>): set<nat> {
    set i: nat | i < |objects| && objects[i].id in ids
  }

  lemma OnePlace(objects: seq<LayoutObject>, ids: set<Id>, x: Id, i: nat)
    requires UniqueIds(objects) && x in ids && i < |objects| && objects[i].id == x
    ensures PlacesOf(objects, ids) == PlacesOf(objects, ids - {x}) + {i}
    ensures i !in PlacesOf(objects, ids - {x})
  {
    forall j: nat ensures j in PlacesOf(objects, ids) <==> j in PlacesOf(objects, ids - {x}) || j == i {
      if j < |objects| && j != i {
        assert objects[if i < j then i else j].id != objects[if i < j then j else i].id;
      }
    }
  }

  lemma {:induction false} PlacesCount(objects: seq<LayoutObject>, ids: set<Id>)
    requires UniqueIds(objects) && forall x <- ids :: exists i :: 0 <= i < |objects| && objects[i].id == x
    ensures |PlacesOf(objects, ids)| == |ids|
  {
    if ids == {} {
      assert PlacesOf(objects, ids) == {};
    } else {
      var x :| x in ids;
      var i: nat :| i < |objects| && objects[i].id == x;
      PlacesCount(objects, ids - {x});
      OnePlace(objects, ids, x, i);
    }
  }

  /** With unique ids, the report counts the objects that were given a component, and the rest. */
  lemma ReportCountsObjects(objects: seq<LayoutObject>, paths: seq<Path>, mapped: seq<LayoutObject>, report: Report)
    requires UniqueIds(objects) && IsMapping(objects, paths, mapped, report)
    ensures report.mapped == |PlacesOf(objects, MatchedIds(objects, Endpoints(paths)))|
    ensures report.mapped + report.unavailable == |objects| && 0 <= report.unavailable
    ensures report.components <= report.mapped
  {
    var matched, edges := MatchedIds(objects, Endpoints(paths)), PathEdges(objects, paths);
    forall x | x in matched ensures exists i :: 0 <= i < |objects| && objects[i].id == x {
      var e :| e in Endpoints(paths) && Resolve(objects, e) == Some(x);
      ResolveIsUniqueMatch(objects, e);
      assert MatchesUniquely(objects, e, x);
    }
    PlacesCount(objects, matched);
    PlacesBound(objects, matched);
    var parts :| |parts| == report.components && AreComponents(matched, edges, parts);
    PartsAreFew(matched, edges, parts);
  }

  lemma {:induction false} PlacesBound(objects: seq<LayoutObject>, ids: set<Id>)
    ensures |PlacesOf(objects, ids)| <= |objects|
  {
    if objects != [] {
      var init := objects[..|objects| - 1];
      PlacesBound(init, ids);
      SubsetSize(PlacesOf(objects, ids), PlacesOf(init, ids) + {|init|});
    }
  }

  lemma {:induction false} FirstsAreDistinct(parts: seq<seq<Id>>, firsts: set<Id>)
    requires forall g :: 0 <= g < |parts| ==> parts[g] != [] && parts[g][0] in firsts
    requires forall g, h :: 0 <= g < h < |parts| ==> Disjoint(parts[g], parts[h])
    ensures |parts| <= |firsts|
  {
    if parts != [] {
      var init, last := parts[..|parts| - 1], parts[|parts| - 1];
      forall g | 0 <= g < |init| ensures init[g][0] != last[0] {
        assert Disjoint(parts[g], parts[|init|]) && init[g][0] in init[g] && last[0] in last;
      }
      FirstsAreDistinct(init, firsts - {last[0]});
    }
  }

  lemma PartsAreFew(matched: set<Id>, edges: Edges, parts: seq<seq<Id>>)
    requires AreComponents(matched, edges, parts)
    ensures |parts| <= |matched|
  {
    forall g | 0 <= g < |parts| ensures parts[g] != [] && parts[g][0] in matched {
      assert IsPart(matched, edges, parts[g]);
      assert HasComponent(matched, edges, parts[g][0], parts[g]);
    }
    FirstsAreDistinct(parts, matched);
  }
}
