/**
  The order of the soft merges in src/drc_agent/regions/builder.py: which soft links are accepted, told without the
  loop. A link is accepted exactly when, at its turn, its ends are apart and their two classes fit the caps together.
 */
module SoftOrder {
  import opened Basics
  import opened Orders
  import opened Forests
  import opened UnionFinds
  import opened Clustering
  import opened SoftMerges

  // ----- Edges

  ghost predicate SoftLinked(cfg: Config, dict: map<Id, Seed>, evidence: (Seed, Seed) -> Evidence, x: Id, y: Id) {
    x in dict && y in dict && x < y && NearEnough(cfg, dict[x], dict[y]) && evidence(dict[x], dict[y]).merge
  }

  ghost function SoftLinks(cfg: Config, dict: map<Id, Seed>, evidence: (Seed, Seed) -> Evidence): Edges {
    set x <- dict.Keys, y <- dict.Keys | SoftLinked(cfg, dict, evidence, x, y) :: (x, y)
  }

  /** An edge of the list that build sorts: a pair of near violations and their soft evidence. */
  ghost predicate IsEdge(cfg: Config, dict: map<Id, Seed>, evidence: (Seed, Seed) -> Evidence, e: Edge) {
    && e.u in dict && e.v in dict && e.u < e.v && NearEnough(cfg, dict[e.u], dict[e.v])
    && e.evidence == evidence(dict[e.u], dict[e.v])
  }

  ghost predicate AreEdges(cfg: Config, dict: map<Id, Seed>, evidence: (Seed, Seed) -> Evidence, edges: seq<Edge>) {
    forall e {:trigger e in edges} :: e in edges <==> IsEdge(cfg, dict, evidence, e)
  }

  function Pair(e: Edge): (Id, Id) { (e.u, e.v) }

  ghost predicate OncePerPair(edges: seq<Edge>) {
    forall i, j :: 0 <= i < j < |edges| ==> Pair(edges[i]) != Pair(edges[j])
  }

  /** e has its turn before f: it overlaps more, or as much with a better gap score, or has the smaller ids. */
  ghost predicate Precedes(e: Edge, f: Edge) {
    var x, y := e.evidence, f.evidence;
    if x.overlap != y.overlap then x.overlap > y.overlap
    else if x.gapScore != y.gapScore then x.gapScore > y.gapScore
    else if e.u != f.u then e.u < f.u
    else e.v < f.v
  }

  // ----- Accepting a link

  /** The violations joined to u or to v, in id order. */
  ghost predicate IsJoint(dict: map<Id, Seed>, links: Edges, u: Id, v: Id, group: seq<Id>) {
    Increasing(group) && forall y: Id :: y in group <==> y in dict && (Connected(links, u, y) || Connected(links, v, y))
  }

  ghost predicate Fits(cfg: Config, dict: map<Id, Seed>, links: Edges, u: Id, v: Id) {
    exists group: seq<Id> :: IsJoint(dict, links, u, v, group) && WithinCaps(cfg, SeedsOf(dict, group))
  }

  /** The ends are apart, and their two classes fit the caps together. */
  ghost predicate Accepts(cfg: Config, dict: map<Id, Seed>, links: Edges, u: Id, v: Id) {
    !Connected(links, u, v) && Fits(cfg, dict, links, u, v)
  }

  /** The links that the loop accepts, edge by edge. */
  ghost function Accepted(cfg: Config, dict: map<Id, Seed>, edges: seq<Edge>): Edges {
    if edges == [] then {}
    else
      var earlier, last := Accepted(cfg, dict, edges[..|edges| - 1]), edges[|edges| - 1];
      if last.evidence.merge && Accepts(cfg, dict, HardEdges(cfg, dict) + earlier, last.u, last.v)
      then earlier + {Pair(last)} else earlier
  }

  lemma {:induction false} JointIncreasing(parent: map<Id, Id>, a: Id, b: Id, ids: seq<Id>)
    requires Forest(parent) && AllIn(parent, ids) && Increasing(ids)
    ensures Increasing(Joint(parent, a, b, ids))
  {
    if ids != [] {
      var init, last := ids[..|ids| - 1], ids[|ids| - 1];
      assert ids == init + [last];
      IncreasingSnoc(init, last);
      JointIncreasing(parent, a, b, init);
      JointIn(parent, a, b, init);
      IncreasingSnoc(Joint(parent, a, b, init), last);
    }
  }

  /** What the code collects are the violations joined to one of the ends. */
  lemma JointIsJoint(dict: map<Id, Seed>, ids: seq<Id>, parent: map<Id, Id>, links: Edges, u: Id, v: Id)
    requires DictIds(dict, ids) && Represents(parent, links) && parent.Keys == dict.Keys && u in dict && v in dict
    ensures AllIn(parent, ids) && IsJoint(dict, links, u, v, Joint(parent, Root(parent, u), Root(parent, v), ids))
  {
    var joint := Joint(parent, Root(parent, u), Root(parent, v), ids);
    JointIncreasing(parent, Root(parent, u), Root(parent, v), ids);
    JointIn(parent, Root(parent, u), Root(parent, v), ids);
    forall y: Id ensures y in joint <==> y in dict && (Connected(links, u, y) || Connected(links, v, y)) {
      if y in dict {
        assert Same(parent, u, y) <==> Connected(links, u, y);
        assert Same(parent, v, y) <==> Connected(links, v, y);
      }
    }
  }

  /** The two tests of the loop decide acceptance. */
  lemma TestsDecide(cfg: Config, dict: map<Id, Seed>, ids: seq<Id>, parent: map<Id, Id>, links: Edges, u: Id, v: Id)
    requires DictIds(dict, ids) && Represents(parent, links) && parent.Keys == dict.Keys && u in dict && v in dict
    ensures Accepts(cfg, dict, links, u, v) <==>
            Root(parent, u) != Root(parent, v) && !JointOver(cfg, dict, ids, parent, Root(parent, u), Root(parent, v))
  {
    var joint := Joint(parent, Root(parent, u), Root(parent, v), ids);
    JointIsJoint(dict, ids, parent, links, u, v);
    assert Same(parent, u, v) <==> Connected(links, u, v);
    forall group: seq<Id> | IsJoint(dict, links, u, v, group) ensures group == joint {
      IncreasingUnique(group, joint);
    }
  }

  // ----- The state of the loop

  /** After the edges done, the classes are those of the hard links and of the accepted links. */
  ghost predicate Turned(cfg: Config, dict: map<Id, Seed>, parent: map<Id, Id>, done: seq<Edge>) {
    && parent.Keys == dict.Keys && Represents(parent, HardEdges(cfg, dict) + Accepted(cfg, dict, done))
    && forall p <- Accepted(cfg, dict, done) :: p.0 in dict && p.1 in dict
  }

  lemma TurnedStart(cfg: Config, dict: map<Id, Seed>, parent: map<Id, Id>)
    requires parent.Keys == dict.Keys && Represents(parent, HardEdges(cfg, dict))
    ensures Turned(cfg, dict, parent, [])
  {
    assert HardEdges(cfg, dict) + Accepted(cfg, dict, []) == HardEdges(cfg, dict);
  }

  lemma TurnedKeep(cfg: Config, dict: map<Id, Seed>, parent: map<Id, Id>, found: map<Id, Id>, done: seq<Edge>)
    requires Turned(cfg, dict, parent, done) && SameRoots(parent, found)
    ensures Turned(cfg, dict, found, done)
  {
    SameRootsRepresent(parent, found, HardEdges(cfg, dict) + Accepted(cfg, dict, done));
  }

  lemma AcceptedSnoc(cfg: Config, dict: map<Id, Seed>, done: seq<Edge>, edge: Edge)
    ensures Accepted(cfg, dict, done + [edge])
         == if edge.evidence.merge
               && Accepts(cfg, dict, HardEdges(cfg, dict) + Accepted(cfg, dict, done), edge.u, edge.v)
            then Accepted(cfg, dict, done) + {Pair(edge)} else Accepted(cfg, dict, done)
  {
    assert (done + [edge])[..|done|] == done;
  }

  /** An edge that is no soft link, or fails one of the two tests, changes nothing. */
  lemma TurnedDown(cfg: Config, dict: map<Id, Seed>, ids: seq<Id>, parent: map<Id, Id>, done: seq<Edge>, edge: Edge)
    requires DictIds(dict, ids) && Turned(cfg, dict, parent, done) && edge.u in dict && edge.v in dict
    requires || !edge.evidence.merge || Root(parent, edge.u) == Root(parent, edge.v)
             || JointOver(cfg, dict, ids, parent, Root(parent, edge.u), Root(parent, edge.v))
    ensures Turned(cfg, dict, parent, done + [edge])
  {
    TestsDecide(cfg, dict, ids, parent, HardEdges(cfg, dict) + Accepted(cfg, dict, done), edge.u, edge.v);
    AcceptedSnoc(cfg, dict, done, edge);
  }

  /** A soft link that passes both tests is accepted, and its classes are merged. */
  lemma TurnedMerge(cfg: Config, dict: map<Id, Seed>, ids: seq<Id>, before: map<Id, Id>, after: map<Id, Id>,
                    done: seq<Edge>, edge: Edge)
    requires DictIds(dict, ids) && Turned(cfg, dict, before, done) && edge.u in dict && edge.v in dict
    requires edge.evidence.merge && Root(before, edge.u) != Root(before, edge.v)
    requires !JointOver(cfg, dict, ids, before, Root(before, edge.u), Root(before, edge.v))
    requires Merged(before, after, edge.u, edge.v)
    ensures Turned(cfg, dict, after, done + [edge])
  {
    var links := HardEdges(cfg, dict) + Accepted(cfg, dict, done);
    TestsDecide(cfg, dict, ids, before, links, edge.u, edge.v);
    AcceptedSnoc(cfg, dict, done, edge);
    AcceptedMerge(cfg, dict, before, after, done, edge);
  }

  lemma AcceptedMerge(cfg: Config, dict: map<Id, Seed>, before: map<Id, Id>, after: map<Id, Id>, done: seq<Edge>,
                      edge: Edge)
    requires Turned(cfg, dict, before, done) && edge.u in dict && edge.v in dict
    requires Merged(before, after, edge.u, edge.v)
    requires Accepted(cfg, dict, done + [edge]) == Accepted(cfg, dict, done) + {Pair(edge)}
    ensures Turned(cfg, dict, after, done + [edge])
  {
    var links := HardEdges(cfg, dict) + Accepted(cfg, dict, done);
    MergeRepresents(before, after, links, edge.u, edge.v);
    assert links + {Pair(edge)} == HardEdges(cfg, dict) + Accepted(cfg, dict, done + [edge]);
  }

  // ----- The loop's links, told without the loop

  lemma {:induction false} AcceptedFrom(cfg: Config, dict: map<Id, Seed>, edges: seq<Edge>, p: (Id, Id))
    requires p in Accepted(cfg, dict, edges)
    ensures exists j :: 0 <= j < |edges| && Pair(edges[j]) == p && edges[j].evidence.merge
  {
    var n := |edges| - 1;
    if p in Accepted(cfg, dict, edges[..n]) {
      AcceptedFrom(cfg, dict, edges[..n], p);
      var j :| 0 <= j < n && Pair(edges[..n][j]) == p && edges[..n][j].evidence.merge;
      assert Pair(edges[j]) == p && edges[j].evidence.merge;
    } else {
      assert Pair(edges[n]) == p;
    }
  }

  /** Edge k is accepted exactly when it is a soft link that passes after the links accepted before it. */
  lemma {:induction false} AcceptedAt(cfg: Config, dict: map<Id, Seed>, edges: seq<Edge>, k: nat)
    requires OncePerPair(edges) && k < |edges|
    ensures Pair(edges[k]) in Accepted(cfg, dict, edges) <==>
            edges[k].evidence.merge
            && Accepts(cfg, dict, HardEdges(cfg, dict) + Accepted(cfg, dict, edges[..k]), edges[k].u, edges[k].v)
  {
    var n := |edges| - 1;
    var init := edges[..n];
    if k == n {
      if Pair(edges[n]) in Accepted(cfg, dict, init) {
        AcceptedFrom(cfg, dict, init, Pair(edges[n]));
        assert false;
      }
    } else {
      assert init[..k] == edges[..k] && init[k] == edges[k];
      AcceptedAt(cfg, dict, init, k);
      assert Pair(edges[k]) != Pair(edges[n]);
    }
  }

  ghost predicate Stands(edges: seq<Edge>, p: (Id, Id), j: nat) { j < |edges| && Pair(edges[j]) == p }

  /** The links accepted before edge k are those accepted links that stand before it. */
  lemma {:induction false} AcceptedPrefix(cfg: Config, dict: map<Id, Seed>, edges: seq<Edge>, k: nat, p: (Id, Id))
    requires OncePerPair(edges) && k <= |edges|
    ensures p in Accepted(cfg, dict, edges[..k]) <==>
            p in Accepted(cfg, dict, edges) && exists j: nat :: j < k && Stands(edges, p, j)
  {
    var n := |edges| - 1;
    if k == |edges| {
      assert edges[..k] == edges;
      if p in Accepted(cfg, dict, edges) {
        AcceptedFrom(cfg, dict, edges, p);
        var j: nat :| j < |edges| && Pair(edges[j]) == p;
        assert Stands(edges, p, j);
      }
    } else {
      var init := edges[..n];
      assert init[..k] == edges[..k];
      AcceptedPrefix(cfg, dict, init, k, p);
      if j: nat :| j < k && Stands(edges, p, j) {
        assert Stands(init, p, j);
        assert p != Pair(edges[n]);
      }
      if j: nat :| j < k && Stands(init, p, j) {
        assert Stands(edges, p, j);
      }
    }
  }

  // ----- The order of turns

  ghost function EdgeOf(dict: map<Id, Seed>, evidence: (Seed, Seed) -> Evidence, p: (Id, Id)): Edge
    requires p.0 in dict && p.1 in dict
  {
    Edge(p.0, p.1, evidence(dict[p.0], dict[p.1]))
  }

  /** The links among them whose turn comes before that of p. */
  ghost function Earlier(cfg: Config, dict: map<Id, Seed>, evidence: (Seed, Seed) -> Evidence, links: Edges,
                         p: (Id, Id)): Edges
    requires p in SoftLinks(cfg, dict, evidence) && links <= SoftLinks(cfg, dict, evidence)
  {
    set q <- links | Precedes(EdgeOf(dict, evidence, q), EdgeOf(dict, evidence, p))
  }

  /** Each soft link is accepted exactly when it passes after the hard links and the links accepted earlier. */
  ghost predicate Greedy(cfg: Config, dict: map<Id, Seed>, evidence: (Seed, Seed) -> Evidence, accepted: Edges) {
    && accepted <= SoftLinks(cfg, dict, evidence)
    && forall p <- SoftLinks(cfg, dict, evidence) ::
         p in accepted <==>
         Accepts(cfg, dict, HardEdges(cfg, dict) + Earlier(cfg, dict, evidence, accepted, p), p.0, p.1)
  }

  lemma OrderIsTotal()
    ensures TotalPreorder(EdgeOrder)
  {}

  /** In a sorted list, the edges with an earlier turn stand before. */
  lemma SortedByTurn(edges: seq<Edge>, j: nat, k: nat)
    requires Sorted(EdgeOrder, edges) && OncePerPair(edges) && j < |edges| && k < |edges|
    ensures Precedes(edges[j], edges[k]) <==> j < k
  {
    if j < k {
      assert EdgeOrder(edges[j], edges[k]) && Pair(edges[j]) != Pair(edges[k]);
    } else if k < j {
      assert EdgeOrder(edges[k], edges[j]) && Pair(edges[k]) != Pair(edges[j]);
    }
  }

  lemma LinkStands(cfg: Config, dict: map<Id, Seed>, evidence: (Seed, Seed) -> Evidence, edges: seq<Edge>, p: (Id, Id))
    returns (k: nat)
    requires AreEdges(cfg, dict, evidence, edges) && p in SoftLinks(cfg, dict, evidence)
    ensures k < |edges| && Pair(edges[k]) == p && edges[k] == EdgeOf(dict, evidence, p) && edges[k].evidence.merge
  {
    var e := EdgeOf(dict, evidence, p);
    assert IsEdge(cfg, dict, evidence, e) && e in edges;
    k :| 0 <= k < |edges| && edges[k] == e;
  }

  lemma AcceptedAreSoft(cfg: Config, dict: map<Id, Seed>, evidence: (Seed, Seed) -> Evidence, edges: seq<Edge>)
    requires AreEdges(cfg, dict, evidence, edges)
    ensures Accepted(cfg, dict, edges) <= SoftLinks(cfg, dict, evidence)
  {
    forall p | p in Accepted(cfg, dict, edges) ensures p in SoftLinks(cfg, dict, evidence) {
      AcceptedFrom(cfg, dict, edges, p);
      var j :| 0 <= j < |edges| && Pair(edges[j]) == p && edges[j].evidence.merge;
      assert edges[j] in edges && IsEdge(cfg, dict, evidence, edges[j]);
      assert SoftLinked(cfg, dict, evidence, p.0, p.1);
    }
  }

  lemma EarlierIsPrefix(cfg: Config, dict: map<Id, Seed>, evidence: (Seed, Seed) -> Evidence, edges: seq<Edge>, k: nat)
    requires AreEdges(cfg, dict, evidence, edges) && Sorted(EdgeOrder, edges) && OncePerPair(edges)
    requires k < |edges| && Pair(edges[k]) in SoftLinks(cfg, dict, evidence)
    requires Accepted(cfg, dict, edges) <= SoftLinks(cfg, dict, evidence)
    requires edges[k] == EdgeOf(dict, evidence, Pair(edges[k]))
    ensures Earlier(cfg, dict, evidence, Accepted(cfg, dict, edges), Pair(edges[k]))
         == Accepted(cfg, dict, edges[..k])
  {
    var accepted, p := Accepted(cfg, dict, edges), Pair(edges[k]);
    forall q ensures q in Earlier(cfg, dict, evidence, accepted, p) <==> q in Accepted(cfg, dict, edges[..k]) {
      AcceptedPrefix(cfg, dict, edges, k, q);
      if q in accepted {
        var j := LinkStands(cfg, dict, evidence, edges, q);
        SortedByTurn(edges, j, k);
        if i: nat :| i < k && Stands(edges, q, i) {
          assert i == j;
        }
        assert j < k ==> Stands(edges, q, j);
      }
    }
  }

  /** Over the sorted edges, the loop accepts the greedy links. */
  lemma AcceptedIsGreedy(cfg: Config, dict: map<Id, Seed>, evidence: (Seed, Seed) -> Evidence, edges: seq<Edge>)
    requires AreEdges(cfg, dict, evidence, edges) && Sorted(EdgeOrder, edges) && OncePerPair(edges)
    ensures Greedy(cfg, dict, evidence, Accepted(cfg, dict, edges))
  {
    var accepted := Accepted(cfg, dict, edges);
    AcceptedAreSoft(cfg, dict, evidence, edges);
    forall p | p in SoftLinks(cfg, dict, evidence)
      ensures p in accepted <==>
              Accepts(cfg, dict, HardEdges(cfg, dict) + Earlier(cfg, dict, evidence, accepted, p), p.0, p.1)
    {
      var k := LinkStands(cfg, dict, evidence, edges, p);
      AcceptedAt(cfg, dict, edges, k);
      EarlierIsPrefix(cfg, dict, evidence, edges, k);
    }
  }

  // ----- The greedy links are determined

  /** Of any soft links there is one whose turn comes first. */
  lemma {:induction false} FirstTurn(cfg: Config, dict: map<Id, Seed>, evidence: (Seed, Seed) -> Evidence, links: Edges)
    returns (p: (Id, Id))
    requires links != {} && links <= SoftLinks(cfg, dict, evidence)
    ensures p in links
    ensures forall q <- links :: q != p ==> Precedes(EdgeOf(dict, evidence, p), EdgeOf(dict, evidence, q))
  {
    p :| p in links;
    var rest := links - {p};
    assert forall q <- links :: q == p || q in rest;
    if rest != {} {
      var q := FirstTurn(cfg, dict, evidence, rest);
      if Precedes(EdgeOf(dict, evidence, q), EdgeOf(dict, evidence, p)) {
        p := q;
      }
    }
  }

  lemma SameEarlier(cfg: Config, dict: map<Id, Seed>, evidence: (Seed, Seed) -> Evidence, a: Edges, b: Edges,
                    p: (Id, Id))
    requires p in SoftLinks(cfg, dict, evidence)
    requires a <= SoftLinks(cfg, dict, evidence) && b <= SoftLinks(cfg, dict, evidence)
    requires forall q <- (a - b) + (b - a) :: q != p ==> Precedes(EdgeOf(dict, evidence, p), EdgeOf(dict, evidence, q))
    ensures Earlier(cfg, dict, evidence, a, p) == Earlier(cfg, dict, evidence, b, p)
  {
    forall q ensures q in Earlier(cfg, dict, evidence, a, p) <==> q in Earlier(cfg, dict, evidence, b, p) {
      assert q in (a - b) + (b - a) || (q in a <==> q in b);
    }
  }

  /** Two greedy sets of links are the same: no other choice of links is greedy. */
  lemma GreedyIsDetermined(cfg: Config, dict: map<Id, Seed>, evidence: (Seed, Seed) -> Evidence, a: Edges, b: Edges)
    requires Greedy(cfg, dict, evidence, a) && Greedy(cfg, dict, evidence, b)
    ensures a == b
  {
    if (a - b) + (b - a) != {} {
      var p := FirstTurn(cfg, dict, evidence, (a - b) + (b - a));
      SameEarlier(cfg, dict, evidence, a, b, p);
      assert false;
    }
  }
}
