/** The variable-time scalar helpers of batch verification, which look at the low
    `limbsize` + 1 limbs only (src/ed25519-donna/modm-donna-64bit.h, 282-361). */
module ModmBatch {
  import opened Words
  import opened ModmLimbs

  ghost function Unit(i: nat): int {
    if i == 0 then 1 else if i == 1 then S1 else if i == 2 then S2 else if i == 3 then S3
    else if i == 4 then S4 else 0x10000000000000000000000000000000000000000000000000000000000000000000000
  }

  /** The value of the first n limbs. */
  ghost function LowValue(s: Limbs, n: nat): int
    requires n <= 5
  {
    if n == 0 then 0 else LowValue(s, n - 1) + s[n - 1] * Unit(n - 1)
  }

  lemma LowValueRange(s: Limbs, n: nat)
    requires n <= 5 && Carried(s)
    ensures 0 <= LowValue(s, n) < Unit(n)
  {
    LowValueCases(s);
  }

  lemma LowValueCases(s: Limbs)
    ensures LowValue(s, 0) == 0 && LowValue(s, 1) == s[0] && LowValue(s, 2) == s[0] + s[1] * S1
    ensures LowValue(s, 3) == s[0] + s[1] * S1 + s[2] * S2
    ensures LowValue(s, 4) == s[0] + s[1] * S1 + s[2] * S2 + s[3] * S3
    ensures LowValue(s, 5) == Value(s)
  {
    assert LowValue(s, 1) == LowValue(s, 0) + s[0] * Unit(0);
    assert LowValue(s, 2) == LowValue(s, 1) + s[1] * Unit(1);
    assert LowValue(s, 3) == LowValue(s, 2) + s[2] * Unit(2);
    assert LowValue(s, 4) == LowValue(s, 3) + s[3] * Unit(3);
    assert LowValue(s, 5) == LowValue(s, 4) + s[4] * Unit(4);
  }

  /** Limbs above `limbsize` are zero. */
  predicate FitsIn(s: Limbs, limbsize: nat) {
    forall i :: limbsize < i < 5 ==> s[i] == 0
  }

  lemma FittingValue(s: Limbs, limbsize: nat)
    requires limbsize <= 4 && FitsIn(s, limbsize)
    ensures LowValue(s, limbsize + 1) == Value(s)
  {
    LowValueCases(s);
  }

  /** One limb of a subtraction with borrow: comparing below and at this limb. */
  lemma BorrowStep(x: int, y: int, unit: int, lowA: int, lowB: int, carry: int)
    requires unit > 0 && 0 <= lowA < unit && 0 <= lowB < unit
    requires carry == if lowA < lowB then 1 else 0
    ensures x - y - carry < 0 <==> lowA + x * unit < lowB + y * unit
  {
    var d := x - y;
    assert lowA + x * unit - (lowB + y * unit) == (lowA - lowB) + d * unit;
    UnitSteps(d, unit);
  }

  lemma UnitPositive(n: nat)
    requires n <= 5
    ensures Unit(n) > 0 && (n < 5 ==> Unit(n + 1) == B56 * Unit(n))
  {
  }

  lemma WrappedSign(d: int)
    requires -0x200000000000000 < d < 0x200000000000000
    ensures Sub64(d, 0) / 0x8000000000000000 == if d < 0 then 1 else 0
  {
  }

  /** lt256_modm_batch: is a < b on limbs 0 to limbsize? */
  method LtBatch(a: Limbs, b: Limbs, limbsize: nat) returns (lt: bool)
    requires limbsize <= 4 && Carried(a) && Carried(b)
    ensures lt <==> LowValue(a, limbsize + 1) < LowValue(b, limbsize + 1)
  {
    hide Unit, Sub64;
    var carry: u64 := 0;
    for i := 0 to limbsize + 1
      invariant carry == if LowValue(a, i) < LowValue(b, i) then 1 else 0
    {
      LowValueRange(a, i); LowValueRange(b, i);
      UnitPositive(i);
      BorrowStep(a[i], b[i], Unit(i), LowValue(a, i), LowValue(b, i), carry);
      WrappedSign(a[i] - b[i] - carry);
      var t := Sub64(a[i] - b[i] - carry, 0);
      carry := t / 0x8000000000000000;
    }
    lt := carry != 0;
  }

  /** lte256_modm_batch: is a <= b on limbs 0 to limbsize? */
  method LteBatch(a: Limbs, b: Limbs, limbsize: nat) returns (lte: bool)
    requires limbsize <= 4 && Carried(a) && Carried(b)
    ensures lte <==> LowValue(a, limbsize + 1) <= LowValue(b, limbsize + 1)
  {
    hide *;
    var gt := LtBatch(b, a, limbsize);
    lte := !gt;
  }

  /** The invariant of the borrow chain: the first i limbs of out hold the difference of the
      first i limbs of a and b, plus the borrow. */
  ghost predicate Differs(out: Limbs, a: Limbs, b: Limbs, i: nat, carry: int)
    requires i <= 5
  {
    carry == (if LowValue(a, i) < LowValue(b, i) then 1 else 0) &&
    LowValue(out, i) == LowValue(a, i) - LowValue(b, i) + carry * Unit(i)
  }

  lemma DiffersStep(before: Limbs, out: Limbs, a: Limbs, b: Limbs, i: nat, carry: int, next: int)
    requires i < 5 && Carried(a) && Carried(b) && Differs(before, a, b, i, carry)
    requires forall k :: 0 <= k < i ==> out[k] == before[k]
    requires next == if a[i] - b[i] - carry < 0 then 1 else 0
    requires out[i] == a[i] - b[i] - carry + next * B56
    ensures Differs(out, a, b, i + 1, next)
  {
    hide Unit, Carried;
    LowValueRange(a, i); LowValueRange(b, i);
    UnitPositive(i);
    BorrowStep(a[i], b[i], Unit(i), LowValue(a, i), LowValue(b, i), carry);
    LowValueFrame(before, out, i);
    Distribute(a[i], b[i], carry, next, Unit(i));
  }

  lemma Distribute(x: int, y: int, carry: int, next: int, unit: int)
    ensures (x - y - carry + next * B56) * unit == x * unit - y * unit - carry * unit + next * (B56 * unit)
  {
  }

  /** sub256_modm_batch with out = a: subtracts on limbs 0 to limbsize, all but the last
      cut to 56 bits. */
  method SubBatch(a: Limbs, b: Limbs, limbsize: nat) returns (out: Limbs)
    requires limbsize <= 4 && Carried(a) && Carried(b) && LowValue(b, limbsize + 1) <= LowValue(a, limbsize + 1)
    ensures Carried(out)
    ensures LowValue(out, limbsize + 1) == LowValue(a, limbsize + 1) - LowValue(b, limbsize + 1)
    ensures forall i :: limbsize < i < 5 ==> out[i] == a[i]
  {
    hide Unit, Sub64, Differs, LowValue;
    out := a;
    var carry: u64 := 0;
    DiffersStart(a, b);
    for i := 0 to limbsize
      invariant carry <= 1 && Differs(out, a, b, i, carry)
      invariant Carried(out) && forall k :: i <= k < 5 ==> out[k] == a[k]
    {
      ghost var before, c := out, carry;
      WrappedSign(a[i] - b[i] - carry);
      WrappedLow(a[i] - b[i] - carry);
      var t := Sub64(a[i] - b[i] - carry, 0);
      carry := t / 0x8000000000000000;
      out := out[i := t % B56];
      DiffersStep(before, out, a, b, i, c, carry);
    }
    var i := limbsize;
    DiffersEnd(out, a, b, i, carry);
    SmallNonNegative(a[i] - b[i] - carry);
    ghost var before := out;
    out := out[i := Sub64(a[i] - b[i] - carry, 0)];
    DiffersStep(before, out, a, b, i, carry, 0);
    DifferenceReached(out, a, b, i + 1);
  }

  lemma DiffersStart(a: Limbs, b: Limbs)
    ensures Differs(a, a, b, 0, 0)
  {
  }

  lemma DifferenceReached(out: Limbs, a: Limbs, b: Limbs, n: nat)
    requires n <= 5 && Differs(out, a, b, n, 0)
    ensures LowValue(out, n) == LowValue(a, n) - LowValue(b, n)
  {
  }

  lemma DiffersEnd(out: Limbs, a: Limbs, b: Limbs, i: nat, carry: int)
    requires i < 5 && Carried(a) && Carried(b) && Differs(out, a, b, i, carry)
    requires LowValue(b, i + 1) <= LowValue(a, i + 1)
    ensures 0 <= a[i] - b[i] - carry
  {
    hide Unit, Carried;
    LowValueRange(a, i); LowValueRange(b, i);
    UnitPositive(i);
    BorrowStep(a[i], b[i], Unit(i), LowValue(a, i), LowValue(b, i), carry);
  }

  lemma SmallNonNegative(d: int)
    requires 0 <= d < 0x200000000000000
    ensures Sub64(d, 0) == d
  {
  }

  lemma WrappedLow(d: int)
    requires -B56 <= d < B56
    ensures Sub64(d, 0) % B56 == if d < 0 then d + B56 else d
  {
  }

  lemma LowValueFrame(s: Limbs, t: Limbs, n: nat)
    requires n <= 5 && forall k :: 0 <= k < n ==> s[k] == t[k]
    ensures LowValue(s, n) == LowValue(t, n)
  {
    LowValueCases(s);
    LowValueCases(t);
  }

  /** iszero256_modm_batch */
  method IsZeroBatch(a: Limbs) returns (zero: bool)
    ensures zero <==> Value(a) == 0
  {
    for i := 0 to 5
      invariant forall k :: 0 <= k < i ==> a[k] == 0
    {
      if a[i] != 0 {
        return false;
      }
    }
    return true;
  }

  /** isone256_modm_batch */
  method IsOneBatch(a: Limbs) returns (one: bool)
    requires Carried(a)
    ensures one <==> Value(a) == 1
  {
    for i := 0 to 5
      invariant forall k :: 0 <= k < i ==> a[k] == if k == 0 then 1 else 0
    {
      if a[i] != (if i == 0 then 1 else 0) {
        return false;
      }
    }
    return true;
  }

  /** isatmost128bits256_modm_batch: limbs 3 and 4 and bits 16 up of limb 2 are zero. */
  method IsAtMost128Bits(a: Limbs) returns (fits: bool)
    requires Carried(a)
    ensures fits <==> Value(a) < W128
  {
    fits := a[4] == 0 && a[3] == 0 && a[2] / 0x10000 == 0;
  }
}
