/** The double-and-add ladder that ends a multi-scalar multiplication
    (src/ed25519-donna/ed25519-donna-batchverify.h, 105-148). */
module Ladder {
  import opened Words
  import opened Powers
  import opened AbelianGroups
  import opened Edwards
  import opened CurveOps
  import opened ModmLimbs
  import opened ModmBatch
  import opened Euclid
  import opened BosCarter
  import opened DoubleMult

  const TWO224: int := S4

  /** The number of binary digits. */
  function BitLength(n: nat): nat {
    if n == 0 then 0 else 1 + BitLength(n / 2)
  }

  /** What the ladder multiplies by. It starts from the point itself and then handles the
      leading digit like the others, so above 1 the leading digit counts twice; and it looks at
      four limbs only. */
  function LadderScalar(s: nat): nat {
    if s <= 1 then s else var t := s % TWO224; Pow2(BitLength(t)) + t
  }

  /** The ladder's search for a nonzero limb ends within the scalar. */
  predicate LadderDefined(s: nat) {
    s == 0 || s % TWO224 != 0
  }

  // ---- binary digits -----------------------------------------------------------------------

  lemma {:induction false} BitLengthUnique(n: nat, k: nat)
    requires n < Pow2(k) && (k > 0 ==> Pow2(k - 1) <= n)
    ensures BitLength(n) == k
    decreases k
  {
    if k == 0 {
    } else if k == 1 {
      assert Pow2(1) == 2 * Pow2(0);
      assert BitLength(n) == 1 + BitLength(0);
    } else {
      assert Pow2(k) == 2 * Pow2(k - 1) && Pow2(k - 1) == 2 * Pow2(k - 2);
      BitLengthUnique(n / 2, k - 1);
    }
  }

  /** Dividing by one power of two less brings in one more digit. */
  lemma OneMoreDigit(t: nat, k: nat)
    ensures t / Pow2(k) == 2 * (t / Pow2(k + 1)) + (t / Pow2(k)) % 2
  {
    var a := Pow2(k);
    assert Pow2(k + 1) == 2 * a;
    var q, r := t / a, t % a;
    assert t == q * a + r;
    Halves(t, a, q, r);
  }

  lemma Halves(t: nat, a: nat, q: nat, r: nat)
    requires a > 0 && t == q * a + r && r < a
    ensures t / (2 * a) == q / 2
  {
    var h, b := q / 2, q % 2;
    assert q * a == h * (2 * a) + b * a;
    assert b * a <= a;
    DivModUnique(t, 2 * a, h, b * a + r);
  }

  /** A digit of one limb is a digit of the whole number. */
  lemma DigitOfLimb(low: nat, x: nat, hi: nat, unit: nat, f: nat, e: nat)
    requires unit > 0 && f > 0 && low < unit
    ensures unit * f > 0
    ensures ((low + x * unit + hi * (unit * (f * (2 * e)))) / (unit * f)) % 2 == (x / f) % 2
  {
    var q, r, he := x / f, x % f, hi * e;
    LowPart(low, r, unit, f);
    Spread(q, f, r, unit);
    Collect(hi, unit, f, e);
    QuotientParity(low + x * unit + hi * (unit * (f * (2 * e))), unit * f, q, he, low + r * unit);
  }

  lemma LowPart(low: nat, r: nat, unit: nat, f: nat)
    requires unit > 0 && r < f && low < unit
    ensures 0 <= low + r * unit < unit * f && unit * f > 0
  {
    MulMonotone(unit, r + 1, f);
    MulMonotone(unit, 0, r);
    assert unit * (r + 1) == unit * r + unit;
  }

  lemma QuotientParity(t: int, uf: int, q: nat, he: int, low: int)
    requires 0 <= low < uf && t == q * uf + 2 * he * uf + low
    ensures (t / uf) % 2 == q % 2
  {
    assert (q + 2 * he) * uf == q * uf + 2 * he * uf;
    DivModUnique(t, uf, q + 2 * he, low);
  }

  lemma Spread(q: int, f: int, r: int, unit: int)
    ensures (q * f + r) * unit == q * (unit * f) + r * unit
  {
  }

  lemma Collect(hi: int, unit: int, f: int, e: int)
    ensures hi * (unit * (f * (2 * e))) == 2 * (hi * e) * (unit * f)
  {
    assert unit * (f * (2 * e)) == (unit * f) * (2 * e);
    assert hi * ((unit * f) * (2 * e)) == (hi * (2 * e)) * (unit * f);
  }
  // ---- the digits of a scalar -----------------------------------------------------------------

  lemma UnitIsPower(limb: nat)
    requires limb <= 3
    ensures Unit(limb) == Pow2(56 * limb)
  {
    Pow2Of56();
    Pow2Product(56, 56, B56, B56);
    Pow2Product(112, 56, S2, B56);
  }

  lemma Pow2Of56()
    ensures Pow2(56) == B56
  {
    assert Pow2(7) == 128;
    Pow2Product(7, 7, 128, 128);
    Pow2Product(14, 14, 16384, 16384);
    Pow2Product(28, 28, 0x10000000, 0x10000000);
  }

  /** The limbs above one of the low four, as a multiple of its unit times 2^56. */
  ghost function Above(s: Limbs, limb: nat): nat
    requires limb <= 3
  {
    if limb == 3 then 0 else if limb == 2 then s[3]
    else if limb == 1 then s[2] + s[3] * B56 else s[1] + s[2] * B56 + s[3] * S2
  }

  lemma AroundLimb(s: Limbs, limb: nat)
    requires limb <= 3
    ensures LowValue(s, 4) == LowValue(s, limb) + s[limb] * Unit(limb) + Above(s, limb) * (Unit(limb) * B56)
  {
    LowValueCases(s);
  }

  lemma LimbDigit(s: Limbs, limb: nat, j: nat)
    requires Carried(s) && limb <= 3 && j <= 55 && LowValue(s, 4) >= 0
    ensures (LowValue(s, 4) / Pow2(56 * limb + j)) % 2 == (s[limb] / Pow2(j)) % 2
  {
    hide LowValue, Unit, Above, Carried, Pow2;
    AroundLimb(s, limb);
    LowValueRange(s, limb);
    UnitIsPower(limb);
    Pow2Add(56 * limb, j);
    SplitPower(j);
    DigitOfLimb(LowValue(s, limb), s[limb], Above(s, limb), Unit(limb), Pow2(j), Pow2(55 - j));
  }

  lemma SplitPower(j: nat)
    requires j <= 55
    ensures B56 == Pow2(j) * (2 * Pow2(55 - j))
  {
    Pow2Of56();
    Pow2Add(j, 56 - j);
  }

  /** Lines 126-128: the highest nonzero limb of the low four. */
  method TopLimb(scalar: Limbs) returns (limb: nat)
    requires LowValue(scalar, 4) != 0
    ensures limb <= 3 && scalar[limb] != 0 && forall i :: limb < i <= 3 ==> scalar[i] == 0
  {
    LowValueCases(scalar);
    hide LowValue;
    limb := 3;
    while scalar[limb] == 0
      invariant limb <= 3 && forall i :: limb < i <= 3 ==> scalar[i] == 0
      decreases limb
    {
      limb := limb - 1;
    }
  }

  /** Lines 131-133: the highest binary digit of a limb, as a one-bit flag. */
  method TopBit(x: u64) returns (flag: nat, ghost j: nat)
    requires 0 < x < B56
    ensures j <= 55 && flag == Pow2(j) && flag <= x < 2 * flag
  {
    TopFlag();
    flag := 0x80000000000000;
    j := 55;
    while (x / flag) % 2 == 0
      invariant j <= 55 && flag == Pow2(j) && x < 2 * flag
      decreases flag
    {
      SmallQuotient(x, flag);
      flag := flag / 2;
      j := j - 1;
    }
    SmallQuotient(x, flag);
  }

  lemma SmallQuotient(x: nat, f: nat)
    requires f > 0 && x < 2 * f
    ensures (x / f) % 2 == if x < f then 0 else 1
  {
    DivModUnique(x, f, if x < f then 0 else 1, if x < f then x else x - f);
  }

  lemma LeadingDigit(s: Limbs, limb: nat, j: nat)
    requires Carried(s) && limb <= 3 && j <= 55 && LowValue(s, 4) >= 0
    requires (forall i :: limb < i <= 3 ==> s[i] == 0) && Pow2(j) <= s[limb] < 2 * Pow2(j)
    ensures BitLength(LowValue(s, 4)) == 56 * limb + j + 1 && LowValue(s, 4) / Pow2(56 * limb + j + 1) == 0
  {
    hide LowValue, Unit, Carried;
    AroundLimb(s, limb);
    LowValueRange(s, limb);
    UnitIsPower(limb);
    Pow2Add(56 * limb, j);
    TopDigitBounds(LowValue(s, limb), s[limb], Unit(limb), Pow2(j));
    BitLengthUnique(LowValue(s, 4), 56 * limb + j + 1);
    DivModUnique(LowValue(s, 4), Pow2(56 * limb + j + 1), 0, LowValue(s, 4));
  }

  lemma TopDigitBounds(low: nat, x: nat, unit: nat, f: nat)
    requires low < unit && f <= x < 2 * f
    ensures unit * f <= low + x * unit < 2 * (unit * f)
  {
    MulMonotone(unit, f, x);
    MulMonotone(unit, x + 1, 2 * f);
    assert unit * (x + 1) == unit * x + unit;
    assert unit * (2 * f) == 2 * (unit * f);
  }

  // ---- the ladder -------------------------------------------------------------------------------

  /** Lines 137-139: double, then add the point when the digit is set. */
  method Rung(r0: Ge, point: Ge, bit: bool, ghost g: Group<Point>, ghost p: Point, ghost n: int) returns (r: Ge)
    requires EdwardsGroup(g) && Fermat() && Full(point, p) && Full(r0, Times(g, n, p))
    ensures Full(r, Times(g, 2 * n + (if bit then 1 else 0), p))
  {
    hide EdwardsGroup, Fermat, Full, Abelian, IsPoint, Times;
    GroupAbelian(g);
    FullIsPartial(r0, Times(g, n, p));
    r := Double(r0, g, Times(g, n, p));
    TimesAdd(g, n, n, p);
    if bit {
      r := AddPoints(r, point, g, Times(g, 2 * n, p), p);
      TimesOne(g, p);
      TimesAdd(g, 2 * n, 1, p);
    }
  }

  /** The multiple reached when the digits of t from place `pos` up are done, out of `len`. */
  ghost function Climbed(t: nat, len: nat, pos: nat): int
    requires pos <= len
  {
    Pow2(len - pos) + t / Pow2(pos)
  }

  lemma ClimbStep(t: nat, len: nat, pos: nat)
    requires pos < len
    ensures Climbed(t, len, pos) == 2 * Climbed(t, len, pos + 1) + (t / Pow2(pos)) % 2
  {
    OneMoreDigit(t, pos);
  }

  lemma ClimbEnds(t: nat, len: nat)
    requires t / Pow2(len) == 0
    ensures Climbed(t, len, len) == 1 && Climbed(t, len, 0) == Pow2(len) + t
  {
    DivModUnique(t, 1, t, 0);
  }

  /** Lines 124-147 from the leading digit down. */
  method Climb(point: Ge, scalar: Limbs, top: nat, topFlag: nat, ghost topBit: nat, ghost g: Group<Point>, ghost p: Point)
    returns (r: Ge)
    requires EdwardsGroup(g) && Fermat() && Full(point, p) && Carried(scalar) && top <= 3 && topBit <= 55
    requires topFlag == Pow2(topBit) && LowValue(scalar, 4) >= 0
    requires LowValue(scalar, 4) / Pow2(56 * top + topBit + 1) == 0
    ensures Full(r, Times(g, Pow2(56 * top + topBit + 1) + LowValue(scalar, 4), p))
  {
    hide EdwardsGroup, Fermat, Full, Abelian, IsPoint, Times, LowValue, Carried, Climbed, Pow2;
    r := point;
    ghost var t, len := LowValue(scalar, 4), 56 * top + topBit + 1;
    GroupAbelian(g);
    TimesOne(g, p);
    ClimbEnds(t, len);
    var limb: nat, flag: nat := top, topFlag;
    ghost var j: nat := topBit;
    while true
      invariant limb <= 3 && j <= 55 && flag == Pow2(j) && 56 * limb + j < len
      invariant Full(r, Times(g, Climbed(t, len, 56 * limb + j + 1), p))
      decreases limb, flag
    {
      LimbDigit(scalar, limb, j);
      ClimbStep(t, len, 56 * limb + j);
      r := Rung(r, point, (scalar[limb] / flag) % 2 == 1, g, p, Climbed(t, len, 56 * limb + j + 1));
      FlagHalves(j);
      if flag / 2 == 0 {
        if limb == 0 {
          break;
        }
        limb, flag, j := limb - 1, 0x80000000000000, 55;
        TopFlag();
      } else {
        flag, j := flag / 2, j - 1;
      }
    }
  }

  lemma TopFlag()
    ensures Pow2(55) == 0x80000000000000
  {
    SplitPower(55);
  }

  lemma FlagHalves(j: nat)
    ensures Pow2(j) / 2 == if j == 0 then 0 else Pow2(j - 1)
  {
  }

  /** ge25519_multi_scalarmult_vartime_final */
  method FinalMult(point: Ge, scalar: Limbs, ghost g: Group<Point>, ghost p: Point) returns (r: Ge)
    requires EdwardsGroup(g) && Fermat() && Full(point, p)
    requires Carried(scalar) && Value(scalar) >= 0 && LadderDefined(Value(scalar))
    ensures Full(r, Times(g, LadderScalar(Value(scalar)), p))
  {
    hide EdwardsGroup, Fermat, Full, Abelian, IsPoint, Times, LowValue, Value, BitLength, Pow2, LadderScalar, LadderDefined;
    GroupAbelian(g);
    LadderCases(scalar);
    var one := IsOneBatch(scalar);
    if one {
      TimesOne(g, p);
      return point;
    }
    var zero := IsZeroBatch(scalar);
    if zero {
      TimesZero(g, p);
      NeutralGe();
      return NEUTRAL_GE;
    }
    var limb := TopLimb(scalar);
    var flag, j := TopBit(scalar[limb]);
    LeadingDigit(scalar, limb, j);
    r := Climb(point, scalar, limb, flag, j, g, p);
  }

  lemma LadderCases(s: Limbs)
    requires Carried(s) && Value(s) >= 0 && LadderDefined(Value(s))
    ensures LowValue(s, 4) >= 0
    ensures if Value(s) <= 1 then LadderScalar(Value(s)) == Value(s)
            else LowValue(s, 4) != 0 && LadderScalar(Value(s)) == Pow2(BitLength(LowValue(s, 4))) + LowValue(s, 4)
  {
    hide BitLength, Pow2;
    LowValueCases(s);
    LowValueRange(s, 4);
    DivModUnique(Value(s), S4, s[4], LowValue(s, 4));
  }

  lemma {:induction false} BitLengthBounds(n: nat)
    requires n > 0
    ensures BitLength(n) > 0 && Pow2(BitLength(n) - 1) <= n < Pow2(BitLength(n))
  {
    if n == 1 {
      assert BitLength(1) == 1 + BitLength(0);
      assert Pow2(1) == 2 * Pow2(0);
    } else {
      BitLengthBounds(n / 2);
    }
  }

  lemma TopUnit()
    ensures Pow2(224) == TWO224 && Pow2(223) == TWO224 / 2
  {
    UnitIsPower(2);
    Pow2Product(112, 112, S2, S2);
  }

  /** The leading digit of the four limbs is at most the 224th. */
  lemma LowLength(t: nat)
    requires 0 < t < TWO224
    ensures 0 < BitLength(t) <= 224 && Pow2(BitLength(t)) <= TWO224
    ensures BitLength(t) == 224 <==> t >= TWO224 / 2
    ensures BitLength(t) < 224 ==> 2 * Pow2(BitLength(t)) <= TWO224
  {
    var k := BitLength(t);
    BitLengthBounds(t);
    TopUnit();
    if k > 224 {
      Pow2Monotone(223, k - 1);
      assert false;
    }
    if k < 224 {
      Pow2Monotone(k, 224);
      if k < 223 {
        Pow2Monotone(k, 223);
      }
    }
  }

  /** The ladder multiplies by its scalar exactly for 0, 1 and the numbers whose fifth limb is one
      above a set 224th digit: there the digit counted twice stands in for the limb left out. */
  lemma LadderExact(s: nat)
    requires LadderDefined(s)
    ensures LadderScalar(s) == s <==> s <= 1 || TWO224 + TWO224 / 2 <= s < 2 * TWO224
  {
    hide BitLength, Pow2;
    if s > 1 {
      var t, h := s % TWO224, s / TWO224;
      LowLength(t);
      TopUnit();
      assert s == h * TWO224 + t;
    }
  }

  /** A scalar that is not zero modulo the order is multiplied as one that is not either. */
  lemma LadderRange(s: nat)
    requires LadderDefined(s) && 0 < s < M
    ensures 0 < LadderScalar(s) < M
  {
    hide BitLength, Pow2;
    if s > 1 {
      LowLength(s % TWO224);
    }
  }

  /** The same condition decides the point: on a point of order m the ladder gives [s]p exactly there. */
  lemma LadderExactOnPoints<T(!new)>(g: Group<T>, p: T, s: nat)
    requires Abelian(g) && Prime(M) && Times(g, M, p) == g.zero && p != g.zero && LadderDefined(s) && s < M
    ensures Times(g, LadderScalar(s), p) == Times(g, s, p) <==> s <= 1 || TWO224 + TWO224 / 2 <= s < 2 * TWO224
  {
    hide Abelian, Times, Prime, LadderScalar, LadderDefined;
    LadderExact(s);
    LadderOfZero();
    if s > 0 {
      LadderRange(s);
    }
    if Times(g, LadderScalar(s), p) == Times(g, s, p) && LadderScalar(s) != s {
      if LadderScalar(s) < s {
        EqualMultiples(g, LadderScalar(s), s, p);
        NoTorsion(g, s - LadderScalar(s), M, p);
      } else {
        EqualMultiples(g, s, LadderScalar(s), p);
        NoTorsion(g, LadderScalar(s) - s, M, p);
      }
    }
  }

  lemma LadderOfZero()
    ensures LadderScalar(0) == 0
  {
  }

  lemma EqualMultiples<T(!new)>(g: Group<T>, m: int, n: int, p: T)
    requires Abelian(g) && Times(g, m, p) == Times(g, n, p)
    ensures Times(g, n - m, p) == g.zero
  {
    hide Abelian, Times;
    TimesAdd(g, n, -m, p);
    TimesAdd(g, m, -m, p);
    TimesZero(g, p);
  }

  /** A scalar below the order, in 56-bit limbs, on which the search for a nonzero limb fails. */
  lemma SearchFails()
    ensures var s: Limbs := [0, 0, 0, 0, 1];
            Carried(s) && Value(s) == TWO224 < M && LowValue(s, 4) == 0 && !LadderDefined(Value(s))
  {
    LowValueCases([0, 0, 0, 0, 1]);
  }
}
