/** Abelian groups, integer multiples and sums of multiples.

    The curve group enters every theorem about scalar multiplication as a value of
    this type together with the hypothesis that its operations obey the group laws. */
module AbelianGroups {

  datatype Group<!T(!new)> = Group(add: (T, T) -> T, neg: T -> T, zero: T)

  ghost predicate Abelian<T(!new)>(g: Group<T>) {
    && (forall a, b :: g.add(a, b) == g.add(b, a))
    && (forall a, b, c :: g.add(g.add(a, b), c) == g.add(a, g.add(b, c)))
    && (forall a :: g.add(a, g.zero) == a)
    && (forall a :: g.add(a, g.neg(a)) == g.zero)
  }

  lemma Comm<T(!new)>(g: Group<T>, a: T, b: T)
    requires Abelian(g)
    ensures g.add(a, b) == g.add(b, a)
  {
  }

  lemma Assoc<T(!new)>(g: Group<T>, a: T, b: T, c: T)
    requires Abelian(g)
    ensures g.add(g.add(a, b), c) == g.add(a, g.add(b, c))
  {
  }

  lemma Zero<T(!new)>(g: Group<T>, a: T)
    requires Abelian(g)
    ensures g.add(a, g.zero) == a && g.add(g.zero, a) == a
  {
  }

  lemma Inverse<T(!new)>(g: Group<T>, a: T)
    requires Abelian(g)
    ensures g.add(a, g.neg(a)) == g.zero && g.add(g.neg(a), a) == g.zero
  {
  }

  lemma Cancel<T(!new)>(g: Group<T>, a: T, b: T)
    requires Abelian(g)
    ensures g.add(g.add(b, a), g.neg(a)) == b && g.add(g.add(b, g.neg(a)), a) == b
  {
    Assoc(g, b, a, g.neg(a));
    Assoc(g, b, g.neg(a), a);
    Inverse(g, a);
    Zero(g, b);
  }

  /** (a + b) + (c + d) = (a + c) + (b + d) */
  lemma Exchange<T(!new)>(g: Group<T>, a: T, b: T, c: T, d: T)
    requires Abelian(g)
    ensures g.add(g.add(a, b), g.add(c, d)) == g.add(g.add(a, c), g.add(b, d))
  {
    hide Abelian;
    Assoc(g, a, b, g.add(c, d));
    Assoc(g, b, c, d);
    Comm(g, b, c);
    Assoc(g, c, b, d);
    Assoc(g, a, c, g.add(b, d));
  }

  lemma NegUnique<T(!new)>(g: Group<T>, a: T, b: T)
    requires Abelian(g) && g.add(a, b) == g.zero
    ensures b == g.neg(a)
  {
    Cancel(g, a, b);
    Comm(g, a, b);
    Zero(g, g.neg(a));
  }

  lemma NegAdd<T(!new)>(g: Group<T>, a: T, b: T)
    requires Abelian(g)
    ensures g.neg(g.add(a, b)) == g.add(g.neg(a), g.neg(b))
  {
    hide Abelian;
    Exchange(g, a, b, g.neg(a), g.neg(b));
    Inverse(g, a);
    Inverse(g, b);
    Zero(g, g.zero);
    NegUnique(g, g.add(a, b), g.add(g.neg(a), g.neg(b)));
  }

  // ---- integer multiples -------------------------------------------------------

  /** [n]a */
  ghost function Times<T(!new)>(g: Group<T>, n: int, a: T): T
    decreases if n < 0 then -n else n
  {
    if n == 0 then g.zero
    else if n > 0 then g.add(Times(g, n - 1, a), a)
    else g.add(Times(g, n + 1, a), g.neg(a))
  }

  lemma TimesZero<T(!new)>(g: Group<T>, a: T)
    ensures Times(g, 0, a) == g.zero
  {
  }

  lemma TimesOne<T(!new)>(g: Group<T>, a: T)
    requires Abelian(g)
    ensures Times(g, 1, a) == a && Times(g, -1, a) == g.neg(a)
  {
    hide Abelian;
    Zero(g, a);
    Zero(g, g.neg(a));
    assert Times(g, 0, a) == g.zero;
  }

  lemma TimesSucc<T(!new)>(g: Group<T>, n: int, a: T)
    requires Abelian(g)
    ensures Times(g, n + 1, a) == g.add(Times(g, n, a), a)
    ensures Times(g, n - 1, a) == g.add(Times(g, n, a), g.neg(a))
  {
    hide Abelian;
    if n < 0 {
      Cancel(g, a, Times(g, n + 1, a));
    } else if n > 0 {
      Cancel(g, a, Times(g, n - 1, a));
    }
  }

  /** [m + n]a = [m]a + [n]a */
  lemma {:induction false} TimesAdd<T(!new)>(g: Group<T>, m: int, n: int, a: T)
    requires Abelian(g)
    ensures Times(g, m + n, a) == g.add(Times(g, m, a), Times(g, n, a))
    decreases if n < 0 then -n else n
  {
    hide Abelian;
    if n == 0 {
      TimesZero(g, a);
      Zero(g, Times(g, m, a));
    } else if n > 0 {
      hide Times;
      TimesAdd(g, m, n - 1, a);
      TimesSucc(g, n - 1, a);
      TimesSucc(g, m + n - 1, a);
      Assoc(g, Times(g, m, a), Times(g, n - 1, a), a);
    } else {
      hide Times;
      TimesAdd(g, m, n + 1, a);
      TimesSucc(g, n + 1, a);
      TimesSucc(g, m + n + 1, a);
      Assoc(g, Times(g, m, a), Times(g, n + 1, a), g.neg(a));
    }
  }

  lemma TimesNeg<T(!new)>(g: Group<T>, n: int, a: T)
    requires Abelian(g)
    ensures Times(g, -n, a) == g.neg(Times(g, n, a))
  {
    hide Abelian, Times;
    TimesAdd(g, n, -n, a);
    TimesZero(g, a);
    NegUnique(g, Times(g, n, a), Times(g, -n, a));
  }

  /** [n](a + b) = [n]a + [n]b */
  lemma {:induction false} TimesDistributes<T(!new)>(g: Group<T>, n: int, a: T, b: T)
    requires Abelian(g)
    ensures Times(g, n, g.add(a, b)) == g.add(Times(g, n, a), Times(g, n, b))
    decreases if n < 0 then -n else n
  {
    hide Abelian;
    if n == 0 {
      TimesZero(g, a); TimesZero(g, b); TimesZero(g, g.add(a, b));
      Zero(g, g.zero);
    } else if n > 0 {
      hide Times;
      TimesDistributes(g, n - 1, a, b);
      TimesSucc(g, n - 1, a); TimesSucc(g, n - 1, b); TimesSucc(g, n - 1, g.add(a, b));
      Exchange(g, Times(g, n - 1, a), Times(g, n - 1, b), a, b);
    } else {
      hide Times;
      TimesDistributes(g, n + 1, a, b);
      TimesSucc(g, n + 1, a); TimesSucc(g, n + 1, b); TimesSucc(g, n + 1, g.add(a, b));
      NegAdd(g, a, b);
      Exchange(g, Times(g, n + 1, a), Times(g, n + 1, b), g.neg(a), g.neg(b));
    }
  }

  /** [m * n]a = [m]([n]a) */
  lemma {:induction false} TimesTimes<T(!new)>(g: Group<T>, m: int, n: int, a: T)
    requires Abelian(g)
    ensures Times(g, m * n, a) == Times(g, m, Times(g, n, a))
    decreases if m < 0 then -m else m
  {
    hide Abelian;
    var na := Times(g, n, a);
    if m == 0 {
      assert m * n == 0;
    } else if m > 0 {
      hide Times;
      TimesTimes(g, m - 1, n, a);
      assert m * n == (m - 1) * n + n;
      TimesAdd(g, (m - 1) * n, n, a);
      TimesSucc(g, m - 1, na);
    } else {
      hide Times;
      TimesTimes(g, m + 1, n, a);
      assert m * n == (m + 1) * n + (-n);
      TimesAdd(g, (m + 1) * n, -n, a);
      TimesNeg(g, n, a);
      TimesSucc(g, m + 1, na);
    }
  }

  lemma TimesOfZero<T(!new)>(g: Group<T>, n: int)
    requires Abelian(g)
    ensures Times(g, n, g.zero) == g.zero
  {
    hide Abelian, Times;
    TimesZero(g, g.zero);
    TimesTimes(g, n, 0, g.zero);
    assert n * 0 == 0;
  }

  /** Doubling is [2]. */
  lemma TimesTwo<T(!new)>(g: Group<T>, a: T)
    requires Abelian(g)
    ensures Times(g, 2, a) == g.add(a, a)
  {
    TimesOne(g, a);
    TimesSucc(g, 1, a);
  }

  /** If [order]a is the identity, multiples of a depend on n modulo the order only. */
  lemma TimesMod<T(!new)>(g: Group<T>, n: int, order: int, a: T)
    requires Abelian(g) && order > 0 && Times(g, order, a) == g.zero
    ensures Times(g, n % order, a) == Times(g, n, a)
  {
    hide Abelian, Times;
    var q := n / order;
    TimesTimes(g, q, order, a);
    TimesOfZero(g, q);
    assert n == n % order + q * order;
    TimesAdd(g, n % order, q * order, a);
    Zero(g, Times(g, n % order, a));
  }

  // ---- sums of multiples -------------------------------------------------------

  /** The sum of [n[i]]a[i] over the first k entries. */
  ghost function SumTimes<T(!new)>(g: Group<T>, n: seq<int>, a: seq<T>, k: nat): T
    requires k <= |n| && k <= |a|
  {
    if k == 0 then g.zero
    else g.add(SumTimes(g, n, a, k - 1), Times(g, n[k - 1], a[k - 1]))
  }
}
