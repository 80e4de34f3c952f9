/**
  What the edges and the counters of src/drc_agent/regions/connectivity.py stand for, told by the paths: which
  objects a path joins, and how many endpoints match one object or several.
 */
module ConnectivityReport {
  import opened Basics
  import opened Orders
  import opened Forests
  import opened Connectivity

  /** Two ids are joined directly exactly when some path has them as the only matches of its two ends. */
  lemma PathEdgesIff(objects: seq<LayoutObject>, paths: seq<Path>, x: Id, y: Id)
    ensures (x, y) in PathEdges(objects, paths) <==>
            exists path <- paths :: MatchesUniquely(objects, path.start, x) && MatchesUniquely(objects, path.end, y)
  {
    if (x, y) in PathEdges(objects, paths) {
      var path :| path in paths && Joined(objects, path) && EdgeOf(objects, path) == (x, y);
      ResolveIsUniqueMatch(objects, path.start);
      ResolveIsUniqueMatch(objects, path.end);
      assert MatchesUniquely(objects, path.start, x) && MatchesUniquely(objects, path.end, y);
    }
    if path :| path in paths && MatchesUniquely(objects, path.start, x) && MatchesUniquely(objects, path.end, y) {
      ResolveIsUniqueMatch(objects, path.start);
      ResolveIsUniqueMatch(objects, path.end);
      assert Joined(objects, path) && EdgeOf(objects, path) == (x, y);
    }
  }

  /** Endpoint k of the paths: two for each path, its start first. */
  function EndAt(paths: seq<Path>, k: nat): Endpoint
    requires k < 2 * |paths|
  {
    if k % 2 == 0 then paths[k / 2].start else paths[k / 2].end
  }

  lemma {:induction false} EndpointsAre(paths: seq<Path>, k: nat)
    requires k < 2 * |paths|
    ensures Endpoints(paths)[k] == EndAt(paths, k)
  {
    var n := |paths| - 1;
    if k < 2 * n {
      EndpointsAre(paths[..n], k);
    }
  }

  ghost predicate MatchesOne(objects: seq<LayoutObject>, e: Endpoint) {
    exists id: Id :: MatchesUniquely(objects, e, id)
  }

  lemma {:induction false} CountersCount(objects: seq<LayoutObject>, ends: seq<Endpoint>)
    ensures CountUnique(objects, ends) == CountWhere(ends, (e: Endpoint) => Resolve(objects, e).Some?)
    ensures CountAmbiguous(objects, ends) == CountWhere(ends, (e: Endpoint) => Ambiguous(objects, e))
  {
    if ends != [] {
      CountersCount(objects, ends[..|ends| - 1]);
    }
  }

  lemma MatchesAreResolved(objects: seq<LayoutObject>, e: Endpoint)
    ensures Resolve(objects, e).Some? <==> MatchesOne(objects, e)
    ensures Ambiguous(objects, e) <==> IsAmbiguous(objects, e)
  {
    ResolveIsUniqueMatch(objects, e);
    if Resolve(objects, e).Some? {
      assert MatchesUniquely(objects, e, Resolve(objects, e).value);
    }
  }

  lemma CountersCountEnds(objects: seq<LayoutObject>, paths: seq<Path>, ones: set<int>, several: set<int>)
    requires forall k :: k in ones <==> 0 <= k < 2 * |paths| && MatchesOne(objects, EndAt(paths, k))
    requires forall k :: k in several <==> 0 <= k < 2 * |paths| && IsAmbiguous(objects, EndAt(paths, k))
    ensures CountUnique(objects, Endpoints(paths)) == |ones| && CountAmbiguous(objects, Endpoints(paths)) == |several|
  {
    var ends := Endpoints(paths);
    var resolved, ambiguous := (e: Endpoint) => Resolve(objects, e).Some?, (e: Endpoint) => Ambiguous(objects, e);
    CountersCount(objects, ends);
    forall k | 0 <= k < 2 * |paths|
      ensures resolved(ends[k]) <==> k in ones
      ensures ambiguous(ends[k]) <==> k in several
    {
      EndpointsAre(paths, k);
      MatchesAreResolved(objects, ends[k]);
    }
    CountIsOfPlaces(ends, resolved, ones);
    CountIsOfPlaces(ends, ambiguous, several);
  }

  /** The counters of the report: endpoints with exactly one match, and endpoints with several. */
  lemma ReportCountsEndpoints(objects: seq<LayoutObject>, paths: seq<Path>, report: Report)
    requires IsReport(objects, paths, report)
    ensures report.unique == |set k | 0 <= k < 2 * |paths| && MatchesOne(objects, EndAt(paths, k))|
    ensures report.ambiguous == |set k | 0 <= k < 2 * |paths| && IsAmbiguous(objects, EndAt(paths, k))|
  {
    CountersCountEnds(objects, paths, set k | 0 <= k < 2 * |paths| && MatchesOne(objects, EndAt(paths, k)),
                      set k | 0 <= k < 2 * |paths| && IsAmbiguous(objects, EndAt(paths, k)));
  }
}
