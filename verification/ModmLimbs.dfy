/** Scalars modulo the group order as five radix-2^56 limbs
    (src/ed25519-donna/modm-donna-64bit.h). */
module ModmLimbs {
  import opened Words

  /** The group order 2^252 + 27742317777372353535851937790883648493. */
  const M: int := 0x1000000000000000000000000000000014def9dea2f79cd65812631a5cf5d3ed
  /** floor(2^512 / M) */
  const MU: int := 0xfffffffffffffffffffffffffffffffeb2106215d086329a7ed9ce5a30a2c131b

  const B56: int := 0x100000000000000
  const S1: int := 0x100000000000000
  const S2: int := 0x10000000000000000000000000000
  const S3: int := 0x1000000000000000000000000000000000000000000
  const S4: int := 0x100000000000000000000000000000000000000000000000000000000
  const TWO248: int := 0x100000000000000000000000000000000000000000000000000000000000000
  const TWO264: int := 0x1000000000000000000000000000000000000000000000000000000000000000000
  const TWO512: int := 0x100000000000000000000000000000000000000000000000000000000000000000000000000000000000000000000000000000000000000000000000000000000

  /** bignum256modm */
  type Limbs = s: seq<u64> | |s| == 5 witness [0, 0, 0, 0, 0]

  const MODM_M: Limbs := [0x12631a5cf5d3ed, 0xf9dea2f79cd658, 0x14de, 0x0, 0x10000000]
  const MODM_MU: Limbs := [0x9ce5a30a2c131b, 0x215d086329a7ed, 0xffffffffeb2106, 0xffffffffffffff, 0xfffffffff]

  function Eval(a0: int, a1: int, a2: int, a3: int, a4: int): int {
    a0 + a1 * S1 + a2 * S2 + a3 * S3 + a4 * S4
  }

  /** The integer a limb vector stands for. */
  function Value(s: Limbs): int {
    Eval(s[0], s[1], s[2], s[3], s[4])
  }

  /** Every limb is below 2^56. */
  predicate Carried(s: Limbs) {
    s[0] < B56 && s[1] < B56 && s[2] < B56 && s[3] < B56 && s[4] < B56
  }

  lemma ModulusLimbs()
    ensures Carried(MODM_M) && Value(MODM_M) == M
    ensures Carried(MODM_MU) && Value(MODM_MU) == MU
  {
  }

  /** Subtraction of words wraps. */
  function Sub64(a: int, b: int): (r: u64) {
    (a - b) % W64
  }

  /** lt_modm: the top bit of the wrapped difference. */
  function LtModm(a: u64, b: u64): (r: u64)
    requires a < 0x8000000000000000 && b < 0x8000000000000000
    ensures r == if a < b then 1 else 0
  {
    Sub64(a, b) / 0x8000000000000000
  }

  /** A borrow chain computes the difference and the final borrow. */
  lemma BorrowChain(a0: int, a1: int, a2: int, a3: int, a4: int, s0: int, s1: int, s2: int, s3: int, s4: int,
                    t0: int, t1: int, t2: int, t3: int, t4: int, b0: int, b1: int, b2: int, b3: int)
    requires t0 == a0 - s0 + b0 * B56
    requires t1 == a1 - (s1 + b0) + b1 * B56
    requires t2 == a2 - (s2 + b1) + b2 * B56
    requires t3 == a3 - (s3 + b2) + b3 * B56
    requires t4 == a4 - (s4 + b3)
    ensures Eval(t0, t1, t2, t3, t4) == Eval(a0, a1, a2, a3, a4) - Eval(s0, s1, s2, s3, s4)
  {
  }

  lemma LowLimbsBound(a0: int, a1: int, a2: int, a3: int, a4: int)
    requires 0 <= a0 < B56 && 0 <= a1 < B56 && 0 <= a2 < B56 && 0 <= a3 < B56
    ensures a4 * S4 <= Eval(a0, a1, a2, a3, a4) < (a4 + 1) * S4
  {
  }

  /** reduce256_modm: subtracts the order once if that does not go below zero. */
  method Reduce256(r: Limbs) returns (out: Limbs)
    requires r[0] < B56 && r[1] < B56 && r[2] < B56 && r[3] < B56 && r[4] < 0x4000000000000000
    ensures out[0] < B56 && out[1] < B56 && out[2] < B56 && out[3] < B56 && out[4] <= r[4]
    ensures Value(out) == if Value(r) >= M then Value(r) - M else Value(r)
  {
    ModulusLimbs();
    hide Eval;
    var pb: u64 := 0;
    pb := pb + MODM_M[0]; var b := LtModm(r[0], pb); var t0: u64 := r[0] - pb + b * B56; pb := b; ghost var b0 := b;
    pb := pb + MODM_M[1]; b := LtModm(r[1], pb); var t1: u64 := r[1] - pb + b * B56; pb := b; ghost var b1 := b;
    pb := pb + MODM_M[2]; b := LtModm(r[2], pb); var t2: u64 := r[2] - pb + b * B56; pb := b; ghost var b2 := b;
    pb := pb + MODM_M[3]; b := LtModm(r[3], pb); var t3: u64 := r[3] - pb + b * B56; pb := b; ghost var b3 := b;
    pb := pb + MODM_M[4]; b := LtModm(r[4], pb); var t4: u64 := Sub64(r[4] + b * 0x100000000, pb);
    ghost var d := r[4] - (MODM_M[4] + b3);
    BorrowChain(r[0], r[1], r[2], r[3], r[4], MODM_M[0], MODM_M[1], MODM_M[2], MODM_M[3], MODM_M[4],
                t0, t1, t2, t3, d, b0, b1, b2, b3);
    LowLimbsBound(t0, t1, t2, t3, d);
    // the mask b - 1 keeps r when the last subtraction borrowed
    out := if b == 0 then [t0, t1, t2, t3, t4] else r;
  }

  lemma CarryChain(s0: int, s1: int, s2: int, s3: int, s4: int, r0: int, r1: int, r2: int, r3: int, r4: int,
                   c0: int, c1: int, c2: int, c3: int)
    requires s0 == r0 + c0 * B56
    requires c0 + s1 == r1 + c1 * B56
    requires c1 + s2 == r2 + c2 * B56
    requires c2 + s3 == r3 + c3 * B56
    requires c3 + s4 == r4
    ensures Eval(r0, r1, r2, r3, r4) == Eval(s0, s1, s2, s3, s4)
  {
  }

  lemma SumOfEvals(x0: int, x1: int, x2: int, x3: int, x4: int, y0: int, y1: int, y2: int, y3: int, y4: int)
    ensures Eval(x0 + y0, x1 + y1, x2 + y2, x3 + y3, x4 + y4) == Eval(x0, x1, x2, x3, x4) + Eval(y0, y1, y2, y3, y4)
  {
  }

  /** The carry chain of add256_modm. */
  method AddLimbs(x: Limbs, y: Limbs) returns (r: Limbs)
    requires Carried(x) && Carried(y)
    ensures r[0] < B56 && r[1] < B56 && r[2] < B56 && r[3] < B56 && r[4] < 0x4000000000000000
    ensures Value(r) == Value(x) + Value(y)
  {
    SumOfEvals(x[0], x[1], x[2], x[3], x[4], y[0], y[1], y[2], y[3], y[4]);
    hide Eval;
    var c: u64 := x[0] + y[0]; var r0: u64 := c % B56; c := c / B56; ghost var c0 := c;
    c := c + (x[1] + y[1]); var r1: u64 := c % B56; c := c / B56; ghost var c1 := c;
    c := c + (x[2] + y[2]); var r2: u64 := c % B56; c := c / B56; ghost var c2 := c;
    c := c + (x[3] + y[3]); var r3: u64 := c % B56; c := c / B56; ghost var c3 := c;
    c := c + (x[4] + y[4]); var r4: u64 := c;
    CarryChain(x[0] + y[0], x[1] + y[1], x[2] + y[2], x[3] + y[3], x[4] + y[4], r0, r1, r2, r3, r4, c0, c1, c2, c3);
    r := [r0, r1, r2, r3, r4];
  }

  /** add256_modm on reduced scalars. */
  method Add256(x: Limbs, y: Limbs) returns (r: Limbs)
    requires Carried(x) && Carried(y) && Value(x) < M && Value(y) < M
    ensures Carried(r) && Value(r) == (Value(x) + Value(y)) % M
  {
    ValueNonNegative(x); ValueNonNegative(y);
    hide Value, Carried;
    r := AddLimbs(x, y);
    r := Reduce256(r);
    ReducedSum(r, Value(x) + Value(y));
  }

  lemma ReducedSum(r: Limbs, sum: int)
    requires r[0] < B56 && r[1] < B56 && r[2] < B56 && r[3] < B56
    requires 0 <= sum < 2 * M && Value(r) == if sum >= M then sum - M else sum
    ensures Carried(r) && Value(r) == sum % M
  {
    LowLimbsBound(r[0], r[1], r[2], r[3], r[4]);
    DivModUnique(sum, M, if sum >= M then 1 else 0, Value(r));
  }

  lemma ValueNonNegative(x: Limbs)
    ensures Value(x) >= 0
  {
  }
}
