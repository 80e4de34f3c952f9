/**
  Orders and sorting as the repository relies on them: Python's sorted() is stable, and tuples
  compare lexicographically.
 */
module Orders {

  ghost predicate TotalPreorder<T(!new)>(leq: (T, T) -> bool) {
    && (forall x, y :: leq(x, y) || leq(y, x))
    && (forall x, y, z :: leq(x, y) && leq(y, z) ==> leq(x, z))
  }

  ghost predicate TotalOrder<T(!new)>(leq: (T, T) -> bool) {
    TotalPreorder(leq) && forall x, y :: leq(x, y) && leq(y, x) ==> x == y
  }

  ghost predicate Sorted<T>(leq: (T, T) -> bool, xs: seq<T>) {
    forall i, j :: 0 <= i < j < |xs| ==> leq(xs[i], xs[j])
  }

  // ----- sorted()

  /** Puts x before the elements equal to it, so that inserting from the back keeps the sort stable. */
  function Insert<T>(leq: (T, T) -> bool, x: T, xs: seq<T>): seq<T> {
    if xs == [] then [x]
    else if leq(x, xs[0]) then [x] + xs
    else [xs[0]] + Insert(leq, x, xs[1..])
  }

  function Sort<T>(leq: (T, T) -> bool, xs: seq<T>): seq<T> {
    if xs == [] then [] else Insert(leq, xs[0], Sort(leq, xs[1..]))
  }

  lemma {:induction false} InsertPermutes<T>(leq: (T, T) -> bool, x: T, xs: seq<T>)
    ensures multiset(Insert(leq, x, xs)) == multiset{x} + multiset(xs)
  {
    if xs != [] && !leq(x, xs[0]) {
      InsertPermutes(leq, x, xs[1..]);
      assert xs == [xs[0]] + xs[1..];
    }
  }

  lemma {:induction false} SortPermutes<T>(leq: (T, T) -> bool, xs: seq<T>)
    ensures multiset(Sort(leq, xs)) == multiset(xs)
    ensures |Sort(leq, xs)| == |xs|
    ensures forall x :: x in Sort(leq, xs) <==> x in xs
  {
    if xs != [] {
      SortPermutes(leq, xs[1..]);
      InsertPermutes(leq, xs[0], Sort(leq, xs[1..]));
      assert xs == [xs[0]] + xs[1..];
    }
    SameElements(Sort(leq, xs), xs);
  }

  lemma SameElements<T>(xs: seq<T>, ys: seq<T>)
    requires multiset(xs) == multiset(ys)
    ensures |xs| == |ys| && forall x :: x in xs <==> x in ys
  {
    assert |multiset(xs)| == |multiset(ys)|;
    forall x ensures x in xs <==> x in ys {
      assert x in multiset(xs) <==> x in multiset(ys);
    }
  }

  /** Where the last of init + [last] stands in a permutation of it, and what is left without it. */
  lemma TakeOut<T>(init: seq<T>, last: T, ys: seq<T>) returns (k: nat)
    requires multiset(init + [last]) == multiset(ys)
    ensures k < |ys| && ys[k] == last && ys == ys[..k] + [last] + ys[k + 1..]
    ensures multiset(init) == multiset(ys[..k] + ys[k + 1..])
  {
    SameElements(init + [last], ys);
    assert (init + [last])[|init|] == last;
    assert last in ys;
    k :| 0 <= k < |ys| && ys[k] == last;
    assert ys == ys[..k] + [last] + ys[k + 1..];
    var rest := ys[..k] + ys[k + 1..];
    assert multiset(ys) == multiset(rest) + multiset{last};
    assert multiset(rest) == multiset(ys) - multiset{last};
    assert multiset(init) == multiset(init + [last]) - multiset{last};
  }

  ghost predicate Below<T>(leq: (T, T) -> bool, x: T, xs: seq<T>) {
    forall y <- xs :: leq(x, y)
  }

  lemma SortedCons<T>(leq: (T, T) -> bool, x: T, xs: seq<T>)
    ensures Sorted(leq, [x] + xs) <==> Below(leq, x, xs) && Sorted(leq, xs)
  {
    var all := [x] + xs;
    if Sorted(leq, all) {
      forall y | y in xs ensures leq(x, y) {
        var j :| 0 <= j < |xs| && xs[j] == y;
        assert all[0] == x && all[j + 1] == y;
      }
      forall i, j | 0 <= i < j < |xs| ensures leq(xs[i], xs[j]) {
        assert all[i + 1] == xs[i] && all[j + 1] == xs[j];
      }
    }
  }

  lemma BelowTrans<T(!new)>(leq: (T, T) -> bool, x: T, y: T, ys: seq<T>)
    requires TotalPreorder(leq) && leq(x, y) && Below(leq, y, ys)
    ensures Below(leq, x, [y] + ys)
  {}

  lemma {:induction false} InsertSorts<T(!new)>(leq: (T, T) -> bool, x: T, xs: seq<T>)
    requires TotalPreorder(leq) && Sorted(leq, xs)
    ensures Sorted(leq, Insert(leq, x, xs))
  {
    if xs != [] {
      assert xs == [xs[0]] + xs[1..];
      SortedCons(leq, xs[0], xs[1..]);
      if leq(x, xs[0]) {
        BelowTrans(leq, x, xs[0], xs[1..]);
        SortedCons(leq, x, xs);
      } else {
        var tail := Insert(leq, x, xs[1..]);
        InsertSorts(leq, x, xs[1..]);
        InsertPermutes(leq, x, xs[1..]);
        SameElements(tail, [x] + xs[1..]);
        assert leq(xs[0], x);
        SortedCons(leq, xs[0], tail);
      }
    }
  }

  lemma {:induction false} SortSorts<T(!new)>(leq: (T, T) -> bool, xs: seq<T>)
    requires TotalPreorder(leq)
    ensures Sorted(leq, Sort(leq, xs))
  {
    if xs != [] {
      SortSorts(leq, xs[1..]);
      InsertSorts(leq, xs[0], Sort(leq, xs[1..]));
    }
  }

  // ----- Distinct keys

  ghost predicate DistinctBy<T, K>(key: T -> K, xs: seq<T>) {
    forall i, j :: 0 <= i < j < |xs| ==> key(xs[i]) != key(xs[j])
  }

  ghost predicate NewKey<T, K>(key: T -> K, x: T, xs: seq<T>) {
    forall y <- xs :: key(y) != key(x)
  }

  lemma DistinctCons<T, K>(key: T -> K, x: T, xs: seq<T>)
    ensures DistinctBy(key, [x] + xs) <==> DistinctBy(key, xs) && NewKey(key, x, xs)
  {
    var all := [x] + xs;
    assert forall i | 0 <= i < |xs| :: all[i + 1] == xs[i];
    if DistinctBy(key, all) {
      forall i, j | 0 <= i < j < |xs| ensures key(xs[i]) != key(xs[j]) {
        assert key(all[i + 1]) != key(all[j + 1]);
      }
      forall y | y in xs ensures key(y) != key(x) {
        var i :| 0 <= i < |xs| && xs[i] == y;
        assert key(all[0]) != key(all[i + 1]);
      }
    }
  }

  lemma {:induction false} InsertAdds<T>(leq: (T, T) -> bool, x: T, xs: seq<T>)
    ensures forall y :: y in Insert(leq, x, xs) <==> y == x || y in xs
  {
    InsertPermutes(leq, x, xs);
    assert multiset([x] + xs) == multiset(Insert(leq, x, xs));
    SameElements([x] + xs, Insert(leq, x, xs));
    assert forall y :: y in [x] + xs <==> y == x || y in xs;
  }

  lemma {:induction false} InsertKeepsDistinct<T, K>(leq: (T, T) -> bool, key: T -> K, x: T, xs: seq<T>)
    requires DistinctBy(key, xs) && NewKey(key, x, xs)
    ensures DistinctBy(key, Insert(leq, x, xs))
  {
    if xs == [] || leq(x, xs[0]) {
      DistinctCons(key, x, xs);
    } else {
      var rest := xs[1..];
      assert xs == [xs[0]] + rest;
      DistinctCons(key, xs[0], rest);
      InsertKeepsDistinct(leq, key, x, rest);
      InsertAdds(leq, x, rest);
      assert xs[0] in xs && key(xs[0]) != key(x);
      assert NewKey(key, xs[0], Insert(leq, x, rest));
      DistinctCons(key, xs[0], Insert(leq, x, rest));
      assert Insert(leq, x, xs) == [xs[0]] + Insert(leq, x, rest);
    }
  }

  lemma {:induction false} SortKeepsDistinct<T, K>(leq: (T, T) -> bool, key: T -> K, xs: seq<T>)
    requires DistinctBy(key, xs)
    ensures DistinctBy(key, Sort(leq, xs))
  {
    if xs != [] {
      assert xs == [xs[0]] + xs[1..];
      DistinctCons(key, xs[0], xs[1..]);
      SortKeepsDistinct(leq, key, xs[1..]);
      SortPermutes(leq, xs[1..]);
      assert NewKey(key, xs[0], Sort(leq, xs[1..]));
      InsertKeepsDistinct(leq, key, xs[0], Sort(leq, xs[1..]));
    }
  }

  // ----- Counting

  function CountWhere<T>(xs: seq<T>, hit: T -> bool): nat {
    if xs == [] then 0
    else CountWhere(xs[..|xs| - 1], hit) + if hit(xs[|xs| - 1]) then 1 else 0
  }

  /** The first n places, as far as they hold a hit. */
  ghost function Hits<T>(xs: seq<T>, hit: T -> bool, n: nat): set<int>
    requires n <= |xs|
  {
    set k | 0 <= k < n && hit(xs[k])
  }

  lemma HitsStep<T>(xs: seq<T>, hit: T -> bool, n: nat)
    requires n < |xs|
    ensures Hits(xs, hit, n + 1) == if hit(xs[n]) then Hits(xs, hit, n) + {n} else Hits(xs, hit, n)
  {}

  lemma {:induction false} CountsHits<T>(xs: seq<T>, hit: T -> bool, n: nat)
    requires n <= |xs|
    ensures CountWhere(xs[..n], hit) == |Hits(xs, hit, n)|
  {
    if n > 0 {
      assert xs[..n][..n - 1] == xs[..n - 1];
      CountsHits(xs, hit, n - 1);
      HitsStep(xs, hit, n - 1);
    }
  }

  lemma CountIsOfPlaces<T>(xs: seq<T>, hit: T -> bool, places: set<int>)
    requires forall k :: k in places <==> 0 <= k < |xs| && hit(xs[k])
    ensures CountWhere(xs, hit) == |places|
  {
    CountsHits(xs, hit, |xs|);
    assert xs[..|xs|] == xs;
    assert Hits(xs, hit, |xs|) == places;
  }

  lemma {:induction false} SubsetSize<T>(a: set<T>, b: set<T>)
    requires a <= b
    ensures |a| <= |b|
  {
    if a != {} {
      var x :| x in a;
      SubsetSize(a - {x}, b - {x});
    }
  }

  // ----- Lexicographic order

  predicate LexLeq<T(==)>(leq: (T, T) -> bool, a: seq<T>, b: seq<T>) {
    if a == [] then true
    else if b == [] then false
    else if a[0] == b[0] then LexLeq(leq, a[1..], b[1..])
    else leq(a[0], b[0])
  }

  lemma {:induction false} LexTotal<T(!new)>(leq: (T, T) -> bool, a: seq<T>, b: seq<T>)
    requires TotalOrder(leq)
    ensures LexLeq(leq, a, b) || LexLeq(leq, b, a)
    ensures LexLeq(leq, a, b) && LexLeq(leq, b, a) ==> a == b
  {
    if a != [] && b != [] && a[0] == b[0] {
      LexTotal(leq, a[1..], b[1..]);
      assert a == [a[0]] + a[1..] && b == [b[0]] + b[1..];
    }
  }

  lemma {:induction false} LexTransitive<T(!new)>(leq: (T, T) -> bool, a: seq<T>, b: seq<T>, c: seq<T>)
    requires TotalOrder(leq) && LexLeq(leq, a, b) && LexLeq(leq, b, c)
    ensures LexLeq(leq, a, c)
  {
    if a != [] && a[0] == b[0] == c[0] {
      LexTransitive(leq, a[1..], b[1..], c[1..]);
    }
  }

  // ----- The orders in use

  predicate NatLeq(a: nat, b: nat) { a <= b }

  predicate PairLeq(a: (int, int), b: (int, int)) { a.0 < b.0 || (a.0 == b.0 && a.1 <= b.1) }

  predicate PairsLeq(a: seq<(int, int)>, b: seq<(int, int)>) { LexLeq(PairLeq, a, b) }

  lemma PairOrder()
    ensures TotalOrder(PairLeq) && TotalOrder(PairsLeq)
  {
    forall a, b ensures PairsLeq(a, b) || PairsLeq(b, a)
      ensures PairsLeq(a, b) && PairsLeq(b, a) ==> a == b
    {
      LexTotal(PairLeq, a, b);
    }
    forall a, b, c | PairsLeq(a, b) && PairsLeq(b, c)
      ensures PairsLeq(a, c)
    {
      LexTransitive(PairLeq, a, b, c);
    }
  }
}
