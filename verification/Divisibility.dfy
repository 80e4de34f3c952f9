/** math.lcm as intersect_dof_domains uses it: common multiples are exactly the multiples of the result. */
module Divisibility {
  import opened Basics

  /** g divides x, with g = 0 dividing only zero. */
  ghost predicate Divides(g: int, x: int) {
    exists k: int :: x == g * k
  }

  function Gcd(a: nat, b: nat): (g: nat)
    requires a > 0 || b > 0
    ensures g > 0
    decreases b
  {
    if b == 0 then a else Gcd(b, a % b)
  }

  function Lcm2(a: int, b: int): nat {
    if a == 0 || b == 0 then 0 else Abs(a) / Gcd(Abs(a), Abs(b)) * Abs(b)
  }

  /** lcm(*grids): 1 for no arguments, 0 as soon as one of them is 0, never negative. */
  function Lcm(grids: seq<int>): nat {
    if grids == [] then 1 else Lcm2(Lcm(grids[..|grids| - 1]), grids[|grids| - 1])
  }

  // ----- Bezout

  ghost predicate Bezout(a: int, b: int, g: int) {
    exists u: int, v: int :: BezoutWith(a, b, g, u, v)
  }

  ghost predicate BezoutWith(a: int, b: int, g: int, u: int, v: int) { g == u * a + v * b }

  lemma DividesBy(g: int, x: int, k: int)
    requires x == g * k
    ensures Divides(g, x)
  {}

  lemma DividesSum(g: int, x: int, y: int, n: int)
    requires Divides(g, x) && Divides(g, y)
    ensures Divides(g, n * x + y)
  {
    var k: int :| x == g * k;
    var m: int :| y == g * m;
    Distribute(n, g, k, m);
    DividesBy(g, n * x + y, n * k + m);
  }

  lemma Distribute(n: int, g: int, k: int, m: int)
    ensures n * (g * k) + g * m == g * (n * k + m)
  {}

  lemma {:induction false} GcdProperties(a: nat, b: nat)
    requires a > 0 || b > 0
    ensures Divides(Gcd(a, b), a) && Divides(Gcd(a, b), b) && Bezout(a, b, Gcd(a, b))
    decreases b
  {
    var g := Gcd(a, b);
    if b == 0 {
      DividesBy(g, a, 1);
      DividesBy(g, 0, 0);
      assert BezoutWith(a, b, g, 1, 0);
    } else {
      GcdProperties(b, a % b);
      DividesSum(g, b, a % b, a / b);
      assert a == a / b * b + a % b;
      var u: int, v: int :| BezoutWith(b, a % b, g, u, v);
      BackSubstitute(a, b, a / b, a % b, u, v);
      assert BezoutWith(a, b, g, v, u - v * (a / b));
    }
  }

  lemma BackSubstitute(a: int, b: int, q: int, r: int, u: int, v: int)
    requires a == q * b + r
    ensures u * b + v * r == v * a + (u - v * q) * b
  {
    assert v * (a - q * b) == v * a - v * q * b;
  }

  // ----- Two numbers

  lemma Lcm2Divides(a: int, b: int, x: int)
    ensures Divides(Lcm2(a, b), x) <==> Divides(a, x) && Divides(b, x)
  {
    if a == 0 || b == 0 {
      ZeroDivides(x);
      if a == 0 && Divides(0, x) {
        DividesBy(b, x, 0);
      } else if Divides(0, x) {
        DividesBy(a, x, 0);
      }
    } else {
      AbsDivides(a, x);
      AbsDivides(b, x);
      PositiveLcm(Abs(a), Abs(b), x);
    }
  }

  lemma ZeroDivides(x: int)
    ensures Divides(0, x) <==> x == 0
  {
    if x == 0 {
      DividesBy(0, x, 0);
    }
  }

  lemma AbsDivides(a: int, x: int)
    ensures Divides(Abs(a), x) <==> Divides(a, x)
  {
    if a < 0 {
      if Divides(a, x) {
        var k: int :| x == a * k;
        assert x == -a * -k;
        DividesBy(-a, x, -k);
      }
      if Divides(-a, x) {
        var k: int :| x == -a * k;
        assert x == a * -k;
        DividesBy(a, x, -k);
      }
    }
  }

  lemma PositiveLcm(a: nat, b: nat, x: int)
    requires a > 0 && b > 0
    ensures Divides(a / Gcd(a, b) * b, x) <==> Divides(a, x) && Divides(b, x)
  {
    var g := Gcd(a, b);
    GcdProperties(a, b);
    var p: int :| a == g * p;
    var q: int :| b == g * q;
    ExactQuotient(a, g, p);
    var m := p * b;
    if Divides(m, x) {
      var k: int :| x == m * k;
      CommonMultiple(a, b, g, p, q, k);
      DividesBy(b, x, p * k);
      DividesBy(a, x, q * k);
    }
    if Divides(a, x) && Divides(b, x) {
      var i: int :| x == a * i;
      var j: int :| x == b * j;
      var u: int, v: int :| BezoutWith(a, b, g, u, v);
      Combine(a, b, g, p, q, u, v, i, j, x);
      DividesBy(m, x, u * j + v * i);
    }
  }

  lemma CommonMultiple(a: int, b: int, g: int, p: int, q: int, k: int)
    requires a == g * p && b == g * q
    ensures p * b * k == b * (p * k) && p * b * k == a * (q * k)
  {
    calc {
      p * b * k;
      p * (g * q) * k;
      g * p * (q * k);
    }
  }

  lemma ExactQuotient(a: int, g: int, p: int)
    requires g > 0 && a == g * p
    ensures a / g == p
  {
    var d := p - a / g;
    assert g * d == a % g by { assert g * (p - a / g) == g * p - g * (a / g); }
    NoSmallMultiple(g, d);
  }

  lemma NoSmallMultiple(g: int, d: int)
    requires g > 0
    ensures d >= 1 ==> g * d >= g
    ensures d <= -1 ==> g * d <= -g
  {}

  /** g x = u a x + v b x with a x = a b j and b x = b a i; cancel g. */
  lemma Combine(a: int, b: int, g: int, p: int, q: int, u: int, v: int, i: int, j: int, x: int)
    requires g > 0 && a == g * p && b == g * q && BezoutWith(a, b, g, u, v) && x == a * i && x == b * j
    ensures x == p * b * (u * j + v * i)
  {
    calc {
      g * x;
      (u * a + v * b) * x;
      u * a * x + v * b * x;
      u * a * (b * j) + v * b * (a * i);
      a * b * (u * j + v * i);
      g * p * b * (u * j + v * i);
      g * (p * b * (u * j + v * i));
    }
  }

  // ----- Any number of them

  lemma {:induction false} LcmDivides(grids: seq<int>, x: int)
    ensures Divides(Lcm(grids), x) <==> forall i :: 0 <= i < |grids| ==> Divides(grids[i], x)
  {
    if grids == [] {
      DividesBy(1, x, x);
    } else {
      var init := grids[..|grids| - 1];
      LcmDivides(init, x);
      Lcm2Divides(Lcm(init), grids[|grids| - 1], x);
      assert forall i | 0 <= i < |init| :: init[i] == grids[i];
    }
  }

  lemma {:induction false} LcmZero(grids: seq<int>)
    ensures Lcm(grids) == 0 <==> 0 in grids
  {
    if grids != [] {
      var init, last := grids[..|grids| - 1], grids[|grids| - 1];
      LcmZero(init);
      assert grids == init + [last];
      if Lcm(init) != 0 && last != 0 {
        var a, b := Abs(Lcm(init)), Abs(last);
        GcdProperties(a, b);
        var g := Gcd(a, b);
        var p: int :| a == g * p;
        ExactQuotient(a, g, p);
        assert p > 0;
        assert p * b > 0;
      }
    }
  }

  /** A natural number is determined by its multiples. */
  lemma MultiplesDetermine(m: nat, n: nat)
    requires forall x :: Divides(m, x) <==> Divides(n, x)
    ensures m == n
  {
    DividesBy(m, m, 1);
    DividesBy(n, n, 1);
    var k: int :| n == m * k;
    var j: int :| m == n * j;
    if m > 0 && n > 0 {
      assert k >= 1 by { NonPositiveMultiple(m, k); }
      assert j >= 1 by { NonPositiveMultiple(n, j); }
      NoSmallMultiple(m, k);
      NoSmallMultiple(n, j);
    }
  }

  lemma NonPositiveMultiple(m: int, k: int)
    requires m > 0
    ensures m * k > 0 ==> k >= 1
  {}

  /** For a positive grid, Divides is the remainder test. */
  lemma DividesIsRemainder(g: int, x: int)
    requires g > 0
    ensures Divides(g, x) <==> x % g == 0
  {
    if x % g == 0 {
      DividesBy(g, x, x / g);
    }
    if Divides(g, x) {
      var k: int :| x == g * k;
      ExactQuotient(x, g, k);
    }
  }
}
