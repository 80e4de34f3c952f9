/**
  Parent maps of the two union-finds (src/drc_agent/regions/builder.py and regions/connectivity.py):
  every parent is at most its child, so following parents ends in the least element of the class.
 */
module Forests {
  /** An identifier string, standing for its place in string order: the code only compares and hashes it. */
  type Id = nat

  ghost predicate Sound(parent: map<Id, Id>, x: Id) {
    x in parent && parent[x] in parent && parent[x] <= x
  }

  ghost predicate Forest(parent: map<Id, Id>) {
    forall x {:trigger Sound(parent, x)} :: x in parent ==> Sound(parent, x)
  }

  // ----- Roots

  ghost function Root(parent: map<Id, Id>, x: Id): (r: Id)
    requires Forest(parent) && x in parent
    ensures r in parent && parent[r] == r && r <= x
    decreases x
  {
    assert Sound(parent, x);
    if parent[x] == x then x
    else
      Root(parent, parent[x])
  }

  /** Same class: what the two union-finds are asked about. */
  ghost predicate Same(parent: map<Id, Id>, x: Id, y: Id)
    requires Forest(parent)
  {
    x in parent && y in parent && Root(parent, x) == Root(parent, y)
  }

  lemma RootOfRoot(parent: map<Id, Id>, x: Id)
    requires Forest(parent) && x in parent
    ensures Root(parent, Root(parent, x)) == Root(parent, x)
  {}

  lemma RootIsLeast(parent: map<Id, Id>, x: Id, y: Id)
    requires Forest(parent) && Same(parent, x, y)
    ensures Root(parent, x) <= y
  {}

  lemma HalvingKeepsForest(parent: map<Id, Id>, v: Id)
    requires Forest(parent) && v in parent
    ensures parent[v] in parent
    ensures Forest(parent[v := parent[parent[v]]])
  {
    assert Sound(parent, v) && Sound(parent, parent[v]);
    forall x | x in parent ensures Sound(parent[v := parent[parent[v]]], x) {
      assert Sound(parent, x);
    }
  }

  /** One step of path halving leaves every root where it was. */
  lemma {:induction false} HalvingKeepsRoot(parent: map<Id, Id>, v: Id, x: Id)
    requires Forest(parent) && v in parent && x in parent && parent[v] in parent
    requires Forest(parent[v := parent[parent[v]]])
    ensures Root(parent[v := parent[parent[v]]], x) == Root(parent, x)
    decreases x
  {
    var halved := parent[v := parent[parent[v]]];
    assert halved.Keys == parent.Keys;
    assert Sound(parent, x) && Sound(parent, parent[x]);
    if parent[x] != x {
      if x != v {
        HalvingKeepsRoot(parent, v, parent[x]);
      } else if parent[parent[x]] != parent[x] {
        HalvingKeepsRoot(parent, v, parent[parent[x]]);
      } else {
        HalvingKeepsRoot(parent, v, parent[x]);
      }
    }
  }

  lemma LinkKeepsForest(parent: map<Id, Id>, a: Id, b: Id)
    requires Forest(parent) && a in parent && b in parent && a <= b
    ensures Forest(parent[b := a])
  {
    var linked := parent[b := a];
    forall x | x in linked ensures Sound(linked, x) {
      assert Sound(parent, x);
    }
  }

  /** Hanging root b under the smaller root a merges the two classes and touches no other. */
  lemma {:induction false} LinkMovesRoot(parent: map<Id, Id>, a: Id, b: Id, x: Id)
    requires Forest(parent) && a in parent && b in parent && x in parent
    requires parent[a] == a && parent[b] == b && a < b && Forest(parent[b := a])
    ensures Root(parent[b := a], x) == if Root(parent, x) == b then a else Root(parent, x)
    decreases x
  {
    var linked := parent[b := a];
    assert linked.Keys == parent.Keys;
    assert Sound(parent, x);
    if parent[x] != x {
      LinkMovesRoot(parent, a, b, parent[x]);
    } else if x == b {
      assert Root(linked, a) == a;
    }
  }

  // ----- Chains: the reachability the classes must agree with

  type Edges = set<(Id, Id)>

  ghost predicate Linked(edges: Edges, x: Id, y: Id) { (x, y) in edges || (y, x) in edges }

  ghost predicate IsChain(edges: Edges, p: seq<Id>) {
    |p| > 0 && forall i :: 0 <= i < |p| - 1 ==> Linked(edges, p[i], p[i + 1])
  }

  ghost predicate Connected(edges: Edges, x: Id, y: Id) {
    exists p: seq<Id> :: IsChain(edges, p) && p[0] == x && p[|p| - 1] == y
  }

  lemma ConnectedReflexive(edges: Edges, x: Id)
    ensures Connected(edges, x, x)
  {
    assert IsChain(edges, [x]);
  }

  lemma ConnectedByLink(edges: Edges, x: Id, y: Id)
    requires Linked(edges, x, y)
    ensures Connected(edges, x, y)
  {
    assert IsChain(edges, [x, y]);
  }

  lemma ConnectedTransitive(edges: Edges, x: Id, y: Id, z: Id)
    requires Connected(edges, x, y) && Connected(edges, y, z)
    ensures Connected(edges, x, z)
  {
    var p: seq<Id> :| IsChain(edges, p) && p[0] == x && p[|p| - 1] == y;
    var q: seq<Id> :| IsChain(edges, q) && q[0] == y && q[|q| - 1] == z;
    var r := p + q[1..];
    forall i | 0 <= i < |r| - 1
      ensures Linked(edges, r[i], r[i + 1])
    {
      if i >= |p| - 1 {
        assert r[i] == q[i - |p| + 1] && r[i + 1] == q[i - |p| + 2];
      }
    }
    assert IsChain(edges, r);
  }

  lemma ConnectedSymmetric(edges: Edges, x: Id, y: Id)
    requires Connected(edges, x, y)
    ensures Connected(edges, y, x)
  {
    var p: seq<Id> :| IsChain(edges, p) && p[0] == x && p[|p| - 1] == y;
    var r := seq(|p|, i requires 0 <= i < |p| => p[|p| - 1 - i]);
    forall i | 0 <= i < |r| - 1
      ensures Linked(edges, r[i], r[i + 1])
    {
      assert Linked(edges, p[|p| - 2 - i], p[|p| - 1 - i]);
    }
    assert IsChain(edges, r);
  }

  lemma ConnectedMonotone(edges: Edges, more: Edges, x: Id, y: Id)
    requires edges <= more && Connected(edges, x, y)
    ensures Connected(more, x, y)
  {
    var p: seq<Id> :| IsChain(edges, p) && p[0] == x && p[|p| - 1] == y;
    assert IsChain(more, p);
  }

  // ----- Classes against chains

  /** The forest represents exactly the equivalence generated by the edges. */
  ghost predicate Represents(parent: map<Id, Id>, edges: Edges) {
    && Forest(parent)
    && forall x, y {:trigger Same(parent, x, y)} {:trigger Connected(edges, x, y)} ::
         x in parent && y in parent ==> (Same(parent, x, y) <==> Connected(edges, x, y))
  }

  /** A chain never leaves the class it starts in, once the two ends of every edge are together. */
  lemma {:induction false} ChainStaysInClass(parent: map<Id, Id>, edges: Edges, p: seq<Id>)
    requires Forest(parent) && IsChain(edges, p) && p[0] in parent
    requires forall e <- edges :: Same(parent, e.0, e.1)
    ensures Same(parent, p[0], p[|p| - 1])
  {
    if |p| > 1 {
      assert Linked(edges, p[0], p[1]);
      assert IsChain(edges, p[1..]) by {
        forall i | 0 <= i < |p[1..]| - 1 ensures Linked(edges, p[1..][i], p[1..][i + 1]) {
          assert Linked(edges, p[i + 1], p[i + 2]);
        }
      }
      ChainStaysInClass(parent, edges, p[1..]);
    }
  }

  /** A forest in which edges stay together and roots are reachable represents the edges. */
  lemma RepresentsFromParts(parent: map<Id, Id>, edges: Edges)
    requires Forest(parent)
    requires forall e <- edges :: Same(parent, e.0, e.1)
    requires forall x <- parent.Keys :: Connected(edges, x, Root(parent, x))
    ensures Represents(parent, edges)
  {
    forall x, y | x in parent && y in parent
      ensures Same(parent, x, y) <==> Connected(edges, x, y)
    {
      if Same(parent, x, y) {
        ConnectedSymmetric(edges, y, Root(parent, y));
        ConnectedTransitive(edges, x, Root(parent, x), y);
      }
      if Connected(edges, x, y) {
        var p: seq<Id> :| IsChain(edges, p) && p[0] == x && p[|p| - 1] == y;
        ChainStaysInClass(parent, edges, p);
      }
    }
  }

  /** Before any union: every element alone, no edges. */
  lemma DiscreteRepresents(parent: map<Id, Id>)
    requires forall x <- parent.Keys :: parent[x] == x
    ensures Represents(parent, {})
  {
    forall x | x in parent ensures Sound(parent, x) {
    }
    forall x | x in parent ensures Connected({}, x, Root(parent, x)) {
      ConnectedReflexive({}, x);
    }
    RepresentsFromParts(parent, {});
  }

  /** The effect of union(left, right) on roots: both classes get the smaller of the two roots. */
  ghost predicate Merged(before: map<Id, Id>, after: map<Id, Id>, left: Id, right: Id)
    requires Forest(before) && left in before && right in before
  {
    && Forest(after) && after.Keys == before.Keys
    && var a, b := Root(before, left), Root(before, right);
       var least := if a <= b then a else b;
       forall x <- before.Keys ::
         Root(after, x) == if Root(before, x) == a || Root(before, x) == b then least else Root(before, x)
  }

  ghost predicate SameRoots(before: map<Id, Id>, after: map<Id, Id>)
    requires Forest(before)
  {
    && Forest(after) && after.Keys == before.Keys
    && forall x <- before.Keys :: Root(after, x) == Root(before, x)
  }

  lemma SameRootsRepresent(before: map<Id, Id>, after: map<Id, Id>, edges: Edges)
    requires Represents(before, edges) && SameRoots(before, after)
    ensures Represents(after, edges)
  {
    forall x, y | x in after && y in after ensures Same(after, x, y) <==> Connected(edges, x, y) {
      assert Same(before, x, y) <==> Connected(edges, x, y);
    }
  }

  lemma MergeRepresents(before: map<Id, Id>, after: map<Id, Id>, edges: Edges, left: Id, right: Id)
    requires Represents(before, edges) && left in before && right in before
    requires forall e <- edges :: e.0 in before && e.1 in before
    requires Merged(before, after, left, right)
    ensures Represents(after, edges + {(left, right)})
  {
    var more := edges + {(left, right)};
    forall e | e in more ensures Same(after, e.0, e.1) {
      if e in edges {
        ConnectedByLink(edges, e.0, e.1);
        assert Same(before, e.0, e.1);
      }
    }
    forall x | x in after ensures Connected(more, x, Root(after, x)) {
      ReachesOldRoot(before, edges, more, x);
      if Root(after, x) != Root(before, x) {
        ReachesOldRoot(before, edges, more, left);
        ReachesOldRoot(before, edges, more, right);
        ConnectedByLink(more, left, right);
        ConnectedSymmetric(more, left, Root(before, left));
        ConnectedSymmetric(more, right, Root(before, right));
        ConnectedTransitive(more, Root(before, left), left, right);
        ConnectedTransitive(more, Root(before, left), right, Root(before, right));
        ConnectedSymmetric(more, Root(before, left), Root(before, right));
        ConnectedTransitive(more, x, Root(before, x), Root(after, x));
      }
    }
    RepresentsFromParts(after, more);
  }

  lemma ReachesOldRoot(before: map<Id, Id>, edges: Edges, more: Edges, x: Id)
    requires Represents(before, edges) && edges <= more && x in before
    ensures Connected(more, x, Root(before, x))
  {
    RootOfRoot(before, x);
    assert Same(before, x, Root(before, x));
    ConnectedMonotone(edges, more, x, Root(before, x));
  }

  /** Two forests over the same keys that represent the same edges have the same roots. */
  lemma RootsAreDetermined(parent: map<Id, Id>, other: map<Id, Id>, edges: Edges)
    requires Represents(parent, edges) && Represents(other, edges) && parent.Keys == other.Keys
    ensures SameRoots(parent, other)
  {
    forall x | x in parent ensures Root(other, x) == Root(parent, x) {
      var r, q := Root(parent, x), Root(other, x);
      RootOfRoot(parent, x);
      RootOfRoot(other, x);
      assert Same(parent, x, r) && Same(other, x, q);
      assert Same(other, x, r) && Same(parent, x, q);
      RootIsLeast(parent, x, q);
      RootIsLeast(other, x, r);
    }
  }
}
