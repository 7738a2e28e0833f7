/** [s1]P1 + [s2]B with interleaved sliding windows
    (src/ed25519-donna/ed25519-donna-impl-base.h, 242-292). */
module DoubleMult {
  import opened Words
  import opened Modular
  import opened Field
  import opened AbelianGroups
  import opened Edwards
  import opened CurveOps
  import opened ModmLimbs
  import opened Digits
  import opened Recode

  // ---- combinations of two points --------------------------------------------------

  /** [a]p + [b]q */
  ghost function Comb<T(!new)>(g: Group<T>, a: int, p: T, b: int, q: T): T {
    g.add(Times(g, a, p), Times(g, b, q))
  }

  lemma CombDouble<T(!new)>(g: Group<T>, a: int, p: T, b: int, q: T)
    requires Abelian(g)
    ensures g.add(Comb(g, a, p, b, q), Comb(g, a, p, b, q)) == Comb(g, 2 * a, p, 2 * b, q)
  {
    hide Abelian, Times;
    Exchange(g, Times(g, a, p), Times(g, b, q), Times(g, a, p), Times(g, b, q));
    TimesAdd(g, a, a, p);
    TimesAdd(g, b, b, q);
  }

  lemma CombFirst<T(!new)>(g: Group<T>, a: int, p: T, b: int, q: T, d: int)
    requires Abelian(g)
    ensures g.add(Comb(g, a, p, b, q), Times(g, d, p)) == Comb(g, a + d, p, b, q)
  {
    hide Abelian, Times;
    var x, y, z := Times(g, a, p), Times(g, b, q), Times(g, d, p);
    Assoc(g, x, y, z);
    Comm(g, y, z);
    Assoc(g, x, z, y);
    TimesAdd(g, a, d, p);
  }

  lemma CombSecond<T(!new)>(g: Group<T>, a: int, p: T, b: int, q: T, d: int)
    requires Abelian(g)
    ensures g.add(Comb(g, a, p, b, q), Times(g, d, q)) == Comb(g, a, p, b + d, q)
  {
    hide Abelian, Times;
    Assoc(g, Times(g, a, p), Times(g, b, q), Times(g, d, q));
    TimesAdd(g, b, d, q);
  }

  // ---- tables of odd multiples ------------------------------------------------------

  /** Entry i of the first `n` stands for [2i + 1]p. */
  ghost predicate OddPniels(table: seq<GePniels>, g: Group<Point>, p: Point) {
    forall i :: 0 <= i < |table| ==> Pniels(table[i], Times(g, 2 * i + 1, p))
  }

  /** ge25519_niels_sliding_multiples: thirty-two odd multiples of the base point. */
  ghost predicate SlidingTable(table: seq<GeNiels>, g: Group<Point>, base: Point) {
    |table| == 32 && forall i :: 0 <= i < 32 ==> Niels(table[i], Times(g, 2 * i + 1, base))
  }

  lemma GroupAbelian(g: Group<Point>)
    requires EdwardsGroup(g)
    ensures Abelian(g) && g.zero == NEUTRAL
  {
  }

  /** Lines 263-266: the first eight odd multiples of p1. */
  method OddMultiples(p1: Ge, ghost g: Group<Point>, ghost p: Point) returns (pre: seq<GePniels>)
    requires EdwardsGroup(g) && Fermat() && Full(p1, p)
    ensures |pre| == 8 && OddPniels(pre, g, p)
  {
    hide EdwardsGroup, Fermat, Full, Pniels, Abelian, IsPoint, Times;
    GroupAbelian(g);
    FullIsPartial(p1, p);
    var d1 := Double(p1, g, p);
    TimesTwo(g, p);
    var first := FullToPniels(p1, p);
    TimesOne(g, p);
    pre := [first];
    for i := 0 to 7
      invariant |pre| == i + 1 && OddPniels(pre, g, p)
    {
      var next := PnielsAdd(d1, pre[i], g, Times(g, 2, p), Times(g, 2 * i + 1, p));
      TimesAdd(g, 2, 2 * i + 1, p);
      pre := pre + [next];
    }
  }

  lemma FullIsPartial(r: Ge, q: Affine)
    requires Full(r, q)
    ensures Partial(r, q)
  {
  }

  /** An odd digit picks its multiple: entry |d| / 2, negated when d < 0. */
  lemma OddDigit(g: Group<Point>, d: int, p: Point)
    requires Abelian(g) && d % 2 == 1
    ensures var k := (if d < 0 then -d else d) / 2;
            var m := Times(g, 2 * k + 1, p);
            (if d < 0 then g.neg(m) else m) == Times(g, d, p)
  {
    hide Abelian, Times, IsPoint;
    if d < 0 {
      TimesNeg(g, -d, p);
    }
  }

  // ---- the interleaved loop ---------------------------------------------------------

  /** One place of the first recoded scalar (lines 280-283). */
  method AddFirst(t0: GeP1P1, d: int, pre: seq<GePniels>, ghost g: Group<Point>, ghost acc: Point, ghost p: Point)
    returns (t: GeP1P1)
    requires EdwardsGroup(g) && Fermat() && Completed(t0, acc)
    requires |pre| == 8 && OddPniels(pre, g, p) && (d == 0 || (d % 2 == 1 && -15 <= d <= 15))
    ensures Completed(t, g.add(acc, Times(g, d, p)))
  {
    hide EdwardsGroup, Fermat, Pniels, Abelian, IsPoint, Times, Completed, Full;
    GroupAbelian(g);
    t := t0;
    if d != 0 {
      var k := (if d < 0 then -d else d) / 2;
      var r := ToFull(t, acc);
      t := PnielsAddP1P1(r, pre[k], d < 0, g, acc, Times(g, 2 * k + 1, p));
      OddDigit(g, d, p);
    } else {
      TimesZero(g, p);
      Zero(g, acc);
    }
  }

  /** One place of the second recoded scalar (lines 285-288). */
  method AddSecond(t0: GeP1P1, d: int, table: seq<GeNiels>, ghost g: Group<Point>, ghost acc: Point, ghost base: Point)
    returns (t: GeP1P1)
    requires EdwardsGroup(g) && Fermat() && Completed(t0, acc)
    requires SlidingTable(table, g, base) && (d == 0 || (d % 2 == 1 && -63 <= d <= 63))
    ensures Completed(t, g.add(acc, Times(g, d, base)))
  {
    hide EdwardsGroup, Fermat, Niels, Abelian, IsPoint, Times, Completed, Full;
    GroupAbelian(g);
    t := t0;
    if d != 0 {
      var k := (if d < 0 then -d else d) / 2;
      var r := ToFull(t, acc);
      t := NielsAdd2P1P1(r, table[k], d < 0, g, acc, Times(g, 2 * k + 1, base));
      OddDigit(g, d, base);
    } else {
      TimesZero(g, base);
      Zero(g, acc);
    }
  }

  /** The body of the loop: doubles and adds one place of each scalar.  Only a full point
      has its t coordinate read. */
  method Step(r0: Ge, d1: int, d2: int, pre: seq<GePniels>, table: seq<GeNiels>, ghost g: Group<Point>,
              ghost a: int, ghost p: Point, ghost b: int, ghost base: Point) returns (r: Ge)
    requires EdwardsGroup(g) && Fermat() && Partial(r0, Comb(g, a, p, b, base))
    requires |pre| == 8 && OddPniels(pre, g, p) && (d1 == 0 || (d1 % 2 == 1 && -15 <= d1 <= 15))
    requires SlidingTable(table, g, base) && (d2 == 0 || (d2 % 2 == 1 && -63 <= d2 <= 63))
    ensures Partial(r, Comb(g, d1 + 2 * a, p, d2 + 2 * b, base))
  {
    hide *;
    GroupAbelian(g);
    ghost var acc := Comb(g, a, p, b, base);
    var t := DoubleP1P1(r0, g, acc);
    ghost var acc1 := g.add(acc, acc);
    t := AddFirst(t, d1, pre, g, acc1, p);
    ghost var acc2 := g.add(acc1, Times(g, d1, p));
    t := AddSecond(t, d2, table, g, acc2, base);
    StepAlgebra(g, a, p, b, base, d1, d2);
    r := ToPartial(r0, t, g.add(acc2, Times(g, d2, base)));
  }

  /** 2([a]p + [b]q) + [d1]p + [d2]q = [d1 + 2a]p + [d2 + 2b]q */
  lemma StepAlgebra<T(!new)>(g: Group<T>, a: int, p: T, b: int, q: T, d1: int, d2: int)
    requires Abelian(g)
    ensures var acc := Comb(g, a, p, b, q);
            g.add(g.add(g.add(acc, acc), Times(g, d1, p)), Times(g, d2, q)) == Comb(g, d1 + 2 * a, p, d2 + 2 * b, q)
  {
    hide *;
    CombDouble(g, a, p, b, q);
    CombFirst(g, 2 * a, p, 2 * b, q, d1);
    CombSecond(g, 2 * a + d1, p, 2 * b, q, d2);
  }

  const NEUTRAL_GE: Ge := Ge(ZERO, ONE, ONE, ZERO)

  lemma NeutralGe()
    ensures Full(NEUTRAL_GE, NEUTRAL)
  {
    assert Val(ZERO) == 0 && Val(ONE) == 1;
    NotZero(1);
  }

  /** The value of the digits from place i on. */
  ghost function Suffix(d: seq<int>, i: nat): int
    requires i <= |d|
  {
    DigitVal(d[i..], 2)
  }

  lemma SuffixStep(d: seq<int>, i: nat)
    requires i < |d|
    ensures Suffix(d, i) == d[i] + 2 * Suffix(d, i + 1)
  {
    assert d[i..][1..] == d[i + 1..];
  }

  lemma SuffixEnds(d: seq<int>)
    ensures Suffix(d, 0) == DigitVal(d, 2) && Suffix(d, |d|) == 0
  {
    assert d[0..] == d && d[|d|..] == [];
  }

  lemma WindowRange(d: seq<int>, i: nat, w: nat, m: int)
    requires i < 256 && w >= 1 && Recoded(d, w) && WindowMax(w) == m
    ensures d[i] == 0 || (d[i] % 2 == 1 && -m <= d[i] <= m)
  {
    assert WindowDigit(d, i, w);
  }

  lemma WindowSizes()
    ensures WindowMax(5) == 15 && WindowMax(7) == 63
  {
  }

  /** Lines 268-291: Horner's rule on both digit strings at once. */
  method Interleave(e1: seq<int>, e2: seq<int>, pre: seq<GePniels>, table: seq<GeNiels>, ghost g: Group<Point>,
                    ghost p: Point, ghost base: Point) returns (r: Ge)
    requires EdwardsGroup(g) && Fermat() && |pre| == 8 && OddPniels(pre, g, p) && SlidingTable(table, g, base)
    requires |e1| == 256 && Recoded(e1, 5) && |e2| == 256 && Recoded(e2, 7)
    ensures Partial(r, Comb(g, DigitVal(e1, 2), p, DigitVal(e2, 2), base))
  {
    hide EdwardsGroup, Fermat, SlidingTable, OddPniels, Abelian, IsPoint, Times, Partial, Comb, DigitVal, Suffix,
      Recoded, WindowMax, NEUTRAL_GE;
    WindowSizes();
    NeutralIsZero(g, p, base);
    SuffixEnds(e1);
    SuffixEnds(e2);
    var i := SkipLeadingZeros(e1, e2);
    r := NEUTRAL_GE;
    while i >= 0
      invariant -1 <= i < 256
      invariant Partial(r, Comb(g, Suffix(e1, i + 1), p, Suffix(e2, i + 1), base))
    {
      WindowRange(e1, i, 5, 15);
      WindowRange(e2, i, 7, 63);
      r := Step(r, e1[i], e2[i], pre, table, g, Suffix(e1, i + 1), p, Suffix(e2, i + 1), base);
      SuffixStep(e1, i);
      SuffixStep(e2, i);
      i := i - 1;
    }
  }

  lemma NeutralIsZero(g: Group<Point>, p: Point, base: Point)
    requires EdwardsGroup(g)
    ensures Partial(NEUTRAL_GE, Comb(g, 0, p, 0, base))
  {
  }

  /** ge25519_double_scalarmult_vartime */
  method DoubleScalarMult(p1: Ge, s1: Limbs, s2: Limbs, table: seq<GeNiels>, ghost g: Group<Point>,
                          ghost p: Point, ghost base: Point) returns (r: Ge)
    requires EdwardsGroup(g) && Fermat() && Full(p1, p) && SlidingTable(table, g, base)
    requires Carried(s1) && Value(s1) < TWO255 && Carried(s2) && Value(s2) < TWO255
    ensures Partial(r, Comb(g, Value(s1), p, Value(s2), base))
  {
    hide *;
    var slide1 := new int[256];
    var slide2 := new int[256];
    SlidingWindow(slide1, s1, 5);
    SlidingWindow(slide2, s2, 7);
    var pre := OddMultiples(p1, g, p);
    r := Interleave(slide1[..], slide2[..], pre, table, g, p, base);
  }

  /** Lines 273-275: the highest place where a digit is set. */
  method SkipLeadingZeros(e1: seq<int>, e2: seq<int>) returns (i: int)
    requires |e1| == 256 && |e2| == 256
    ensures -1 <= i < 256
    ensures Suffix(e1, i + 1) == 0 && Suffix(e2, i + 1) == 0
  {
    hide Suffix;
    i := 255;
    SuffixEnds(e1);
    SuffixEnds(e2);
    while i >= 0 && e1[i] == 0 && e2[i] == 0
      invariant -1 <= i < 256
      invariant Suffix(e1, i + 1) == 0 && Suffix(e2, i + 1) == 0
    {
      SuffixStep(e1, i);
      SuffixStep(e2, i);
      i := i - 1;
    }
  }
}
