/** Digit strings and the values they stand for. */
module Digits {
  import opened Words
  import opened Powers

  /** Least significant digit first; digits may be negative. */
  ghost function DigitVal(d: seq<int>, base: int): int {
    if d == [] then 0 else d[0] + base * DigitVal(d[1..], base)
  }

  lemma {:induction false} DigitValConcat(a: seq<int>, b: seq<int>, base: int)
    ensures DigitVal(a + b, base) == DigitVal(a, base) + Pow(base, |a|) * DigitVal(b, base)
  {
    if a == [] {
      assert a + b == b;
    } else {
      DigitValConcat(a[1..], b, base);
      assert (a + b)[1..] == a[1..] + b;
      Spread(base, DigitVal(a[1..], base), Pow(base, |a| - 1), DigitVal(b, base));
    }
  }

  lemma Spread(base: int, x: int, p: int, y: int)
    ensures base * (x + p * y) == base * x + (base * p) * y
  {
  }

  /** Changing one digit changes the value by the difference at that place. */
  lemma DigitUpdate(d: seq<int>, i: nat, x: int, base: int)
    requires i < |d|
    ensures DigitVal(d[i := x], base) == DigitVal(d, base) + Pow(base, i) * (x - d[i])
  {
    var e := d[i := x];
    assert d == d[..i] + ([d[i]] + d[i + 1..]);
    assert e == d[..i] + ([x] + d[i + 1..]);
    DigitValConcat(d[..i], [d[i]] + d[i + 1..], base);
    DigitValConcat(d[..i], [x] + d[i + 1..], base);
    DigitValHead(d[i], d[i + 1..], base);
    DigitValHead(x, d[i + 1..], base);
    var p, v := Pow(base, i), base * DigitVal(d[i + 1..], base);
    hide DigitVal, Pow;
    assert p * (x + v) - p * (d[i] + v) == p * (x - d[i]);
  }

  lemma DigitValHead(x: int, rest: seq<int>, base: int)
    ensures DigitVal([x] + rest, base) == x + base * DigitVal(rest, base)
  {
    assert ([x] + rest)[1..] == rest;
  }

  /** Writes the `count` low digits of `v` at `at` on: the loops that take a limb apart
      (*p++ = v & (base - 1); v >>= log2(base)). */
  method WriteDigits(r: array<int>, at: nat, v0: nat, count: nat, base: int)
    requires base >= 2 && at + count <= r.Length && v0 < Pow(base, count)
    modifies r
    ensures r[..at] == old(r[..at]) && r[at + count..] == old(r[at + count..])
    ensures forall i :: at <= i < at + count ==> 0 <= r[i] < base
    ensures DigitVal(r[at..at + count], base) == v0
  {
    var v := v0;
    var j := 0;
    assert r[at..at] == [];
    while j < count
      invariant 0 <= j <= count && 0 <= v < Pow(base, count - j)
      invariant r[..at] == old(r[..at]) && r[at + count..] == old(r[at + count..])
      invariant forall i :: at <= i < at + j ==> 0 <= r[i] < base
      invariant DigitVal(r[at..at + j], base) + Pow(base, j) * v == v0
    {
      ghost var done := r[at..at + j];
      r[at + j] := v % base;
      assert r[at..at + j + 1] == done + [v % base];
      OneMoreDigit(done, v, base, count - j);
      v := v / base;
      j := j + 1;
    }
  }

  lemma OneMoreDigit(done: seq<int>, v: nat, base: int, left: nat)
    requires base >= 2 && left >= 1 && v < Pow(base, left)
    ensures 0 <= v / base < Pow(base, left - 1)
    ensures DigitVal(done + [v % base], base) + Pow(base, |done| + 1) * (v / base) == DigitVal(done, base) + Pow(base, |done|) * v
  {
    DigitValConcat(done, [v % base], base);
    DigitValHead(v % base, [], base);
    assert [v % base] + [] == [v % base];
    var p, q, m := Pow(base, |done|), v / base, v % base;
    assert Pow(base, left) == base * Pow(base, left - 1);
    assert Pow(base, |done| + 1) == base * p;
    var w := Pow(base, left - 1);
    hide DigitVal, Pow;
    assert v == base * q + m;
    Spread2(p, base, q, m);
    if q >= w {
      MulMonotone(base, w, q);
    }
  }

  lemma Spread2(p: int, base: int, q: int, m: int)
    ensures p * m + (base * p) * q == p * (base * q + m)
  {
  }
}
