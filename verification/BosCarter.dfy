/** Sums of multiples, and what the Bos-Carter step keeps of them. */
module BosCarter {
  import opened Words
  import opened AbelianGroups
  import opened Euclid

  /** The values after subtracting entry y from entry x. */
  ghost function Lowered(v: seq<int>, x: nat, y: nat): seq<int>
    requires x < |v| && y < |v|
  {
    v[x := v[x] - v[y]]
  }

  /** The points after adding entry x to entry y. */
  ghost function Merged<T(!new)>(g: Group<T>, a: seq<T>, x: nat, y: nat): seq<T>
    requires x < |a| && y < |a|
  {
    a[y := g.add(a[y], a[x])]
  }

  lemma {:induction false} SumFrame<T(!new)>(g: Group<T>, v: seq<int>, a: seq<T>, w: seq<int>, b: seq<T>, k: nat)
    requires k <= |v| && k <= |a| && k <= |w| && k <= |b|
    requires forall i :: 0 <= i < k ==> v[i] == w[i] && a[i] == b[i]
    ensures SumTimes(g, v, a, k) == SumTimes(g, w, b, k)
  {
    hide Times;
    if k > 0 {
      SumFrame(g, v, a, w, b, k - 1);
    }
  }

  /** Replacing one term: new sum + old term = old sum + new term. */
  lemma {:induction false} SumReplace<T(!new)>(g: Group<T>, v: seq<int>, a: seq<T>, w: seq<int>, b: seq<T>, k: nat, x: nat)
    requires Abelian(g) && k <= |v| && k <= |a| && k <= |w| && k <= |b| && x < k
    requires forall i :: 0 <= i < k && i != x ==> v[i] == w[i] && a[i] == b[i]
    ensures g.add(SumTimes(g, w, b, k), Times(g, v[x], a[x])) == g.add(SumTimes(g, v, a, k), Times(g, w[x], b[x]))
    decreases k
  {
    hide Times, Abelian;
    if k == x + 1 {
      SumFrame(g, v, a, w, b, x);
      Rotate(g, SumTimes(g, v, a, x), Times(g, w[x], b[x]), Times(g, v[x], a[x]));
    } else {
      SumReplace(g, v, a, w, b, k - 1, x);
      var last := Times(g, v[k - 1], a[k - 1]);
      Rotate(g, SumTimes(g, w, b, k - 1), last, Times(g, v[x], a[x]));
      Rotate(g, SumTimes(g, v, a, k - 1), last, Times(g, w[x], b[x]));
    }
  }

  lemma Rotate<T(!new)>(g: Group<T>, s: T, x: T, y: T)
    requires Abelian(g)
    ensures g.add(g.add(s, x), y) == g.add(g.add(s, y), x)
  {
  }

  lemma CancelRight<T(!new)>(g: Group<T>, a: T, b: T, c: T)
    requires Abelian(g) && g.add(a, c) == g.add(b, c)
    ensures a == b
  {
    hide Abelian;
    Assoc(g, a, c, g.neg(c));
    Assoc(g, b, c, g.neg(c));
    Inverse(g, c);
    Zero(g, a);
    Zero(g, b);
  }

  /** [n - m]P + [m](Q + P) = [n]P + [m]Q, so the whole sum stays. */
  lemma SumKept<T(!new)>(g: Group<T>, v: seq<int>, a: seq<T>, k: nat, x: nat, y: nat)
    requires Abelian(g) && k <= |v| && k <= |a| && x < k && y < k && x != y
    ensures SumTimes(g, Lowered(v, x, y), Merged(g, a, x, y), k) == SumTimes(g, v, a, k)
  {
    hide Abelian, Times, SumTimes;
    var w, b := Lowered(v, x, y), Merged(g, a, x, y);
    var s0, s1, s2 := SumTimes(g, v, a, k), SumTimes(g, w, a, k), SumTimes(g, w, b, k);
    var px, py := a[x], a[y];
    SumReplace(g, v, a, w, a, k, x);
    SumReplace(g, w, a, w, b, k, y);
    var moved := Times(g, v[y], px);
    // s2 = s1 + [v[y]]px
    TimesDistributes(g, v[y], py, px);
    Comm(g, Times(g, v[y], py), moved);
    Assoc(g, s1, moved, Times(g, v[y], py));
    CancelRight(g, s2, g.add(s1, moved), Times(g, v[y], py));
    // s1 + [v[y]]px = s0
    TimesAdd(g, v[y], v[x] - v[y], px);
    Assoc(g, s1, moved, Times(g, v[x] - v[y], px));
    CancelRight(g, g.add(s1, moved), s0, Times(g, v[x] - v[y], px));
  }

  lemma {:induction false} SumZeros<T(!new)>(g: Group<T>, v: seq<int>, a: seq<T>, k: nat)
    requires Abelian(g) && k <= |v| && k <= |a| && forall i :: 0 <= i < k ==> v[i] == 0
    ensures SumTimes(g, v, a, k) == g.zero
  {
    hide Abelian;
    if k > 0 {
      SumZeros(g, v, a, k - 1);
      Zero(g, g.zero);
    }
  }

  /** With a single nonzero scalar left, the sum is that one multiple. */
  lemma {:induction false} SumSingle<T(!new)>(g: Group<T>, v: seq<int>, a: seq<T>, k: nat, x: nat)
    requires Abelian(g) && k <= |v| && k <= |a| && x < k && forall i :: 0 <= i < k && i != x ==> v[i] == 0
    ensures SumTimes(g, v, a, k) == Times(g, v[x], a[x])
    decreases k
  {
    hide Abelian, Times;
    if k == x + 1 {
      SumZeros(g, v, a, x);
      Zero(g, Times(g, v[x], a[x]));
    } else {
      SumSingle(g, v, a, k - 1, x);
      TimesZero(g, a[k - 1]);
      Zero(g, Times(g, v[x], a[x]));
    }
  }

  // ---- dividing the scalars -------------------------------------------------------------------

  ghost function Divided(v: seq<int>, d: nat): (w: seq<int>)
    requires d > 0
    ensures |w| == |v|
  {
    seq(|v|, i requires 0 <= i < |v| => v[i] / d)
  }

  lemma QuotientOfDifference(x: int, y: int, d: nat)
    requires d > 0 && Divides(d, x) && Divides(d, y)
    ensures (x - y) / d == x / d - y / d
  {
    assert x == d * (x / d) && y == d * (y / d);
    assert x - y == (x / d - y / d) * d + 0;
    DivModUnique(x - y, d, x / d - y / d, 0);
  }

  lemma DividedLowered(v: seq<int>, d: nat, x: nat, y: nat)
    requires x < |v| && y < |v| && d > 0 && Divides(d, v[x]) && Divides(d, v[y])
    ensures Divided(Lowered(v, x, y), d) == Lowered(Divided(v, d), x, y)
  {
    hide Divides;
    QuotientOfDifference(v[x], v[y], d);
    var l, r := Divided(Lowered(v, x, y), d), Lowered(Divided(v, d), x, y);
    assert forall i :: 0 <= i < |v| ==> l[i] == r[i];
  }

  /** A common divisor comes out of a sum of multiples. */
  lemma {:induction false} SumScaled<T(!new)>(g: Group<T>, v: seq<int>, d: nat, a: seq<T>, k: nat)
    requires Abelian(g) && d > 0 && k <= |v| && k <= |a| && DividesAll(d, v, k)
    ensures Times(g, d, SumTimes(g, Divided(v, d), a, k)) == SumTimes(g, v, a, k)
  {
    hide Abelian, Times, Divides;
    if k == 0 {
      TimesOfZero(g, d);
    } else {
      SumScaled(g, v, d, a, k - 1);
      var q := Divided(v, d);
      TimesDistributes(g, d, SumTimes(g, q, a, k - 1), Times(g, q[k - 1], a[k - 1]));
      TimesTimes(g, d, q[k - 1], a[k - 1]);
      ExactQuotient(v[k - 1], d);
    }
  }

  lemma ExactQuotient(x: int, d: nat)
    requires d > 0 && Divides(d, x)
    ensures d * (x / d) == x
  {
  }

  // ---- the conserved quantities -----------------------------------------------------------------

  /** The sum of the multiples of the first k points by their scalars' shares of d is as at the start. */
  ghost predicate SharesKept<T(!new)>(g: Group<T>, v: seq<int>, a: seq<T>, v0: seq<int>, a0: seq<T>, k: nat, d: nat)
    requires k <= |v| && k <= |a| && k <= |v0| && k <= |a0|
  {
    d > 0 ==> SumTimes(g, Divided(v, d), a, k) == SumTimes(g, Divided(v0, d), a0, k)
  }

  /** Of the first k, the sum of multiples and the greatest common divisor are as at the start, and
      so is the sum with the divisor taken out of the scalars. */
  ghost predicate Conserved<T(!new)>(g: Group<T>, v: seq<int>, a: seq<T>, v0: seq<int>, a0: seq<T>, k: nat) {
    k <= |a| && k <= |a0| && NonNegative(v, k) && NonNegative(v0, k) &&
    SumTimes(g, v, a, k) == SumTimes(g, v0, a0, k) && GcdOf(v, k) == GcdOf(v0, k) &&
    SharesKept(g, v, a, v0, a0, k, GcdOf(v0, k))
  }

  lemma StepConserves<T(!new)>(g: Group<T>, v: seq<int>, a: seq<T>, v0: seq<int>, a0: seq<T>, k: nat, x: nat, y: nat)
    requires Abelian(g) && Conserved(g, v, a, v0, a0, k) && x < k && y < k && x != y && v[y] <= v[x]
    ensures Conserved(g, Lowered(v, x, y), Merged(g, a, x, y), v0, a0, k)
  {
    hide Abelian, SumTimes, GcdOf, Divided, Divides;
    SumKept(g, v, a, k, x, y);
    GcdKept(v, Lowered(v, x, y), k, x, y);
    var d := GcdOf(v0, k);
    if d > 0 {
      GcdDividesAll(v, k);
      DividedLowered(v, d, x, y);
      SumKept(g, Divided(v, d), a, k, x, y);
    }
  }

  // ---- points of finite order ---------------------------------------------------------------------

  /** [n] takes the first k points to zero. */
  ghost predicate Killed<T(!new)>(g: Group<T>, n: int, a: seq<T>, k: nat) {
    k <= |a| && forall i :: 0 <= i < k ==> Times(g, n, a[i]) == g.zero
  }

  lemma {:induction false} SumKilled<T(!new)>(g: Group<T>, n: int, v: seq<int>, a: seq<T>, k: nat)
    requires Abelian(g) && k <= |v| && Killed(g, n, a, k)
    ensures Times(g, n, SumTimes(g, v, a, k)) == g.zero
  {
    hide Abelian, Times;
    if k == 0 {
      TimesOfZero(g, n);
    } else {
      SumKilled(g, n, v, a, k - 1);
      TimesDistributes(g, n, SumTimes(g, v, a, k - 1), Times(g, v[k - 1], a[k - 1]));
      MultipleKilled(g, n, v[k - 1], a[k - 1]);
      Zero(g, g.zero);
    }
  }

  lemma MultipleKilled<T(!new)>(g: Group<T>, n: int, m: int, p: T)
    requires Abelian(g) && Times(g, n, p) == g.zero
    ensures Times(g, n, Times(g, m, p)) == g.zero
  {
    hide Abelian, Times;
    TimesTimes(g, n, m, p);
    TimesTimes(g, m, n, p);
    assert n * m == m * n;
    TimesOfZero(g, m);
  }

  /** What two numbers take to zero, their greatest common divisor does. */
  lemma {:induction false} GcdKills<T(!new)>(g: Group<T>, m: nat, n: nat, p: T)
    requires Abelian(g) && Times(g, m, p) == g.zero && Times(g, n, p) == g.zero
    ensures Times(g, Gcd(m, n), p) == g.zero
    decreases n
  {
    hide Abelian, Times;
    if n > 0 {
      TimesMod(g, m, n, p);
      GcdKills(g, n, m % n, p);
    }
  }

  /** Of the points of order dividing a prime, numbers below it take only zero to zero. */
  lemma NoTorsion<T(!new)>(g: Group<T>, n: nat, m: nat, p: T)
    requires Abelian(g) && Prime(m) && 0 < n < m && Times(g, m, p) == g.zero
    ensures Times(g, n, p) == g.zero <==> p == g.zero
  {
    hide Abelian, Times, Prime, Gcd;
    if Times(g, n, p) == g.zero {
      GcdKills(g, n, m, p);
      CoprimeToPrime(n, m);
      TimesOne(g, p);
    }
    TimesOfZero(g, n);
  }

  // ---- the measure --------------------------------------------------------------------------------

  ghost function Total(v: seq<int>, k: nat): (t: nat)
    requires NonNegative(v, k)
  {
    if k == 0 then 0 else Total(v, k - 1) + v[k - 1]
  }

  lemma {:induction false} TotalDrops(v: seq<int>, k: nat, x: nat, y: nat)
    requires NonNegative(v, k) && x < k && y < |v| && 0 < v[y] <= v[x]
    ensures NonNegative(Lowered(v, x, y), k) && Total(Lowered(v, x, y), k) < Total(v, k)
    decreases k
  {
    var w := Lowered(v, x, y);
    if k == x + 1 {
      TotalFrame(v, w, x);
    } else {
      TotalDrops(v, k - 1, x, y);
    }
  }

  lemma {:induction false} TotalFrame(v: seq<int>, w: seq<int>, k: nat)
    requires NonNegative(v, k) && NonNegative(w, k) && forall i :: 0 <= i < k ==> v[i] == w[i]
    ensures Total(v, k) == Total(w, k)
  {
    if k > 0 {
      TotalFrame(v, w, k - 1);
    }
  }
}
