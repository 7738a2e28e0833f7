/** Greatest common divisors: what subtracting one scalar from another keeps. */
module Euclid {
  import opened Words

  function Gcd(a: nat, b: nat): nat
    decreases b
  {
    if b == 0 then a else Gcd(b, a % b)
  }

  predicate Divides(d: nat, n: int)
    requires d > 0
  {
    n % d == 0
  }

  lemma DividesBy(d: nat, n: int, q: int)
    requires d > 0 && n == d * q
    ensures Divides(d, n)
  {
    DivModUnique(n, d, q, 0);
  }

  lemma DividesSub(d: nat, a: int, b: int)
    requires d > 0 && Divides(d, b)
    ensures Divides(d, a - b) <==> Divides(d, a)
  {
    var q := b / d;
    assert b == d * q;
    if Divides(d, a) {
      assert a == d * (a / d);
      DividesBy(d, a - b, a / d - q);
    }
    if Divides(d, a - b) {
      assert a - b == d * ((a - b) / d);
      DividesBy(d, a, (a - b) / d + q);
    }
  }

  lemma DividesMultiple(d: nat, b: int, k: int)
    requires d > 0 && Divides(d, b)
    ensures Divides(d, b * k)
  {
    var q := b / d;
    assert b == d * q;
    DividesBy(d, b * k, q * k);
  }

  lemma {:induction false} GcdDivisors(a: nat, b: nat, d: nat)
    requires d > 0
    ensures Divides(d, Gcd(a, b)) <==> Divides(d, a) && Divides(d, b)
    decreases b
  {
    hide Divides;
    if b == 0 {
      assert Divides(d, 0) by { DividesBy(d, 0, 0); }
    } else {
      GcdDivisors(b, a % b, d);
      if Divides(d, b) {
        DividesMultiple(d, b, a / b);
        DividesSub(d, a, b * (a / b));
        assert a - b * (a / b) == a % b;
      }
    }
  }

  /** A number is determined by its divisors. */
  lemma SameDivisors(x: nat, y: nat)
    requires forall d: nat :: d > 0 ==> (Divides(d, x) <==> Divides(d, y))
    ensures x == y
  {
    if x == 0 {
      assert Divides(y + 1, 0);
    } else if y == 0 {
      assert Divides(x + 1, 0);
    } else {
      assert Divides(x, x) && Divides(y, y);
      DivisorAtMost(x, y);
      DivisorAtMost(y, x);
    }
  }

  lemma DivisorAtMost(d: nat, n: nat)
    requires d > 0 && n > 0 && Divides(d, n)
    ensures d <= n
  {
  }

  // ---- the first n of a sequence -----------------------------------------------------------

  ghost predicate NonNegative(v: seq<int>, n: nat) {
    n <= |v| && forall i :: 0 <= i < n ==> v[i] >= 0
  }

  ghost function GcdOf(v: seq<int>, n: nat): nat
    requires NonNegative(v, n)
  {
    if n == 0 then 0 else Gcd(GcdOf(v, n - 1), v[n - 1])
  }

  ghost predicate DividesAll(d: nat, v: seq<int>, n: nat)
    requires d > 0 && n <= |v|
  {
    forall i :: 0 <= i < n ==> Divides(d, v[i])
  }

  lemma {:induction false} CommonDivisors(v: seq<int>, n: nat, d: nat)
    requires NonNegative(v, n) && d > 0
    ensures Divides(d, GcdOf(v, n)) <==> DividesAll(d, v, n)
  {
    hide Gcd, Divides;
    if n == 0 {
      assert Divides(d, 0) by { DividesBy(d, 0, 0); }
    } else {
      CommonDivisors(v, n - 1, d);
      GcdDivisors(GcdOf(v, n - 1), v[n - 1], d);
    }
  }

  lemma GcdDividesAll(v: seq<int>, n: nat)
    requires NonNegative(v, n) && GcdOf(v, n) > 0
    ensures DividesAll(GcdOf(v, n), v, n)
  {
    hide GcdOf, Divides;
    var d := GcdOf(v, n);
    DividesBy(d, d, 1);
    CommonDivisors(v, n, d);
  }

  /** Taking one entry from another keeps the greatest common divisor. */
  lemma GcdKept(v: seq<int>, w: seq<int>, n: nat, x: nat, y: nat)
    requires NonNegative(v, n) && x < n && y < n && x != y && v[y] <= v[x]
    requires w == v[x := v[x] - v[y]]
    ensures NonNegative(w, n) && GcdOf(w, n) == GcdOf(v, n)
  {
    hide Divides, GcdOf;
    forall d: nat | d > 0
      ensures Divides(d, GcdOf(w, n)) <==> Divides(d, GcdOf(v, n))
    {
      CommonDivisors(v, n, d);
      CommonDivisors(w, n, d);
      if Divides(d, v[y]) {
        DividesSub(d, v[x], v[y]);
      }
      SameDividesAll(v, w, n, x, y, d);
    }
    SameDivisors(GcdOf(w, n), GcdOf(v, n));
  }

  lemma SameDividesAll(v: seq<int>, w: seq<int>, n: nat, x: nat, y: nat, d: nat)
    requires n <= |v| && x < n && y < n && x != y && w == v[x := v[x] - v[y]] && d > 0
    requires Divides(d, v[y]) ==> (Divides(d, v[x] - v[y]) <==> Divides(d, v[x]))
    ensures DividesAll(d, w, n) <==> DividesAll(d, v, n)
  {
    hide Divides;
    assert w[y] == v[y] && w[x] == v[x] - v[y];
    if DividesAll(d, v, n) || DividesAll(d, w, n) {
      assert Divides(d, v[y]);
      assert Divides(d, v[x]) && Divides(d, w[x]);
      forall i | 0 <= i < n
        ensures Divides(d, v[i]) && Divides(d, w[i])
      {
        assert i != x ==> w[i] == v[i];
      }
    }
  }

  lemma GcdAtMost(v: seq<int>, n: nat, x: nat)
    requires NonNegative(v, n) && x < n && v[x] > 0
    ensures 0 < GcdOf(v, n) <= v[x]
  {
    hide GcdOf, Gcd;
    var c := GcdOf(v, n);
    if c == 0 {
      CommonDivisors(v, n, v[x] + 1);
      assert Divides(v[x] + 1, 0);
      DivisorAtMost(v[x] + 1, v[x]);
      assert false;
    }
    assert Divides(c, c);
    CommonDivisors(v, n, c);
    DivisorAtMost(c, v[x]);
  }

  /** With a single entry left, that entry is the greatest common divisor. */
  lemma GcdSingle(v: seq<int>, n: nat, x: nat)
    requires NonNegative(v, n) && x < n && forall i :: 0 <= i < n && i != x ==> v[i] == 0
    ensures GcdOf(v, n) == v[x]
  {
    hide GcdOf, Gcd;
    forall d: nat | d > 0
      ensures Divides(d, GcdOf(v, n)) <==> Divides(d, v[x])
    {
      CommonDivisors(v, n, d);
      DividesBy(d, 0, 0);
    }
    SameDivisors(GcdOf(v, n), v[x]);
  }

  // ---- primes --------------------------------------------------------------------------------

  ghost predicate Prime(m: nat) {
    m > 1 && forall d: nat :: 1 < d < m ==> !Divides(d, m)
  }

  lemma CoprimeToPrime(n: nat, m: nat)
    requires Prime(m) && 0 < n < m
    ensures Gcd(n, m) == 1
  {
    hide Gcd;
    var c := Gcd(n, m);
    if c == 0 {
      GcdDivisors(n, m, n + 1);
      DividesBy(n + 1, 0, 0);
      DivisorAtMost(n + 1, n);
      assert false;
    }
    DividesBy(c, c, 1);
    GcdDivisors(n, m, c);
    DivisorAtMost(c, n);
  }
}
