/** Barrett reduction with truncated products, HAC algorithm 14.42
    (src/ed25519-donna/modm-donna-64bit.h, 65-187). */
module Barrett {
  import opened Words
  import opened ModmLimbs

  // ---- the quotient estimate -----------------------------------------------------

  /** Dropping less than 2^264 from the product costs the estimate at most one more:
      the quotient is never too big and at most two too small. */
  lemma QuotientEstimate(x: int, q1: int, dropped: int, q3: int)
    requires 0 <= x < TWO512 && q1 == x / TWO248
    requires 0 <= dropped < 8 * S4 && 0 <= dropped <= MU * q1
    requires q3 == (MU * q1 - dropped) / TWO264
    ensures 0 <= q3 && 0 <= x - q3 * M < 3 * M
  {
    var low := x % TWO248;
    assert x == q1 * TWO248 + low;
    var e := MU * q1 - dropped - q3 * TWO264;
    assert 0 <= e < TWO264;
    EstimateBounds(x, q1, low, dropped, q3, e);
  }

  lemma EstimateBounds(x: int, q1: int, low: int, dropped: int, q3: int, e: int)
    requires x == q1 * TWO248 + low && 0 <= low < TWO248 && 0 <= q1 < TWO264
    requires 0 <= dropped < 8 * S4
    requires MU * q1 == q3 * TWO264 + e + dropped && 0 <= e < TWO264
    ensures 0 <= x - q3 * M < 3 * M
  {
    // scaled by 2^264: x 2^264 - q3 M 2^264 = q1 (2^512 - M MU) + M (e + dropped) + low 2^264
    var rest := TWO512 - M * MU;
    assert 0 <= rest < M;
    assert TWO264 * (x - q3 * M) == q1 * rest + M * (e + dropped) + low * TWO264;
  }

  // ---- digits straddling a cut ----------------------------------------------------

  /** (lo128(c) >> log2(a)) & (b - 1) with a b = 2^56: the top bits of the low 56. */
  function Upper(c: u128, a: nat, b: nat): (r: nat)
    requires a > 0 && b > 0
  {
    (c % W64 / a) % b
  }

  /** (lo128(c) << log2(b)) & (2^56 - 1): the bottom bits, moved up. */
  function Lower(c: u128, b: nat): (r: nat) {
    Shl(c % W64, b) % B56
  }

  lemma UpperLower(c: u128, a: nat, b: nat)
    requires a > 0 && b > 0 && a * b == B56
    ensures Upper(c, a, b) == (c % B56) / a < b
    ensures Lower(c, b) == (c % a) * b && ((c % a) * b) % b == 0
  {
    var y := c % W64;
    ModOfMod(c, W64, B56);
    MiddleBits(y, a, b);
    LowBits(y, a, b);
    ModOfMod(y * b, W64, B56);
    DivModUnique(W64, a, 256 * b, 0);
    ModOfMod(c, W64, a);
  }

  // ---- products by columns --------------------------------------------------------

  function Column0(x: Limbs, y: Limbs): int {
    Prod(x[0], y[0])
  }

  function Column1(x: Limbs, y: Limbs): int {
    Prod(x[0], y[1]) + Prod(x[1], y[0])
  }

  function Column2(x: Limbs, y: Limbs): int {
    Prod(x[0], y[2]) + Prod(x[2], y[0]) + Prod(x[1], y[1])
  }

  function Column3(x: Limbs, y: Limbs): int {
    Prod(x[0], y[3]) + Prod(x[3], y[0]) + Prod(x[1], y[2]) + Prod(x[2], y[1])
  }

  function Column4(x: Limbs, y: Limbs): int {
    Prod(x[0], y[4]) + Prod(x[4], y[0]) + Prod(x[3], y[1]) + Prod(x[1], y[3]) + Prod(x[2], y[2])
  }

  function Column5(x: Limbs, y: Limbs): int {
    Prod(x[4], y[1]) + Prod(x[1], y[4]) + Prod(x[2], y[3]) + Prod(x[3], y[2])
  }

  function Column6(x: Limbs, y: Limbs): int {
    Prod(x[4], y[2]) + Prod(x[2], y[4]) + Prod(x[3], y[3])
  }

  function Column7(x: Limbs, y: Limbs): int {
    Prod(x[4], y[3]) + Prod(x[3], y[4])
  }

  function Column8(x: Limbs, y: Limbs): int {
    Prod(x[4], y[4])
  }

  function Eval9(c0: int, c1: int, c2: int, c3: int, c4: int, c5: int, c6: int, c7: int, c8: int): int {
    c0 + c1 * S1 + c2 * S2 + c3 * S3 + S4 * Eval(c4, c5, c6, c7, c8)
  }

  lemma Row(x: int, a0: int, a1: int, a2: int, a3: int, a4: int)
    ensures x * Eval(a0, a1, a2, a3, a4) == Eval(x * a0, x * a1, x * a2, x * a3, x * a4)
  {
    assert x * (a1 * S1) == (x * a1) * S1;
    assert x * (a2 * S2) == (x * a2) * S2;
    assert x * (a3 * S3) == (x * a3) * S3;
    assert x * (a4 * S4) == (x * a4) * S4;
  }

  lemma CollectTable(p00: int, p01: int, p02: int, p03: int, p04: int, p10: int, p11: int, p12: int, p13: int, p14: int, p20: int, p21: int, p22: int, p23: int, p24: int, p30: int, p31: int, p32: int, p33: int, p34: int, p40: int, p41: int, p42: int, p43: int, p44: int)
    ensures Eval(Eval(p00, p01, p02, p03, p04), Eval(p10, p11, p12, p13, p14), Eval(p20, p21, p22, p23, p24), Eval(p30, p31, p32, p33, p34), Eval(p40, p41, p42, p43, p44))
            == Eval9(p00, p01 + p10, p02 + p11 + p20, p03 + p12 + p21 + p30, p04 + p13 + p22 + p31 + p40, p14 + p23 + p32 + p41, p24 + p33 + p42, p34 + p43, p44)
  {
  }

  lemma ProductOfLimbs(a0: int, a1: int, a2: int, a3: int, a4: int, b0: int, b1: int, b2: int, b3: int, b4: int)
    ensures Eval(a0, a1, a2, a3, a4) * Eval(b0, b1, b2, b3, b4)
            == Eval9(a0 * b0, a0 * b1 + a1 * b0, a0 * b2 + a1 * b1 + a2 * b0, a0 * b3 + a1 * b2 + a2 * b1 + a3 * b0, a0 * b4 + a1 * b3 + a2 * b2 + a3 * b1 + a4 * b0, a1 * b4 + a2 * b3 + a3 * b2 + a4 * b1, a2 * b4 + a3 * b3 + a4 * b2, a3 * b4 + a4 * b3, a4 * b4)
  {
    Row(Eval(b0, b1, b2, b3, b4), a0, a1, a2, a3, a4);
    Row(a0, b0, b1, b2, b3, b4);
    Row(a1, b0, b1, b2, b3, b4);
    Row(a2, b0, b1, b2, b3, b4);
    Row(a3, b0, b1, b2, b3, b4);
    Row(a4, b0, b1, b2, b3, b4);
    hide *;
    CollectTable(a0 * b0, a0 * b1, a0 * b2, a0 * b3, a0 * b4, a1 * b0, a1 * b1, a1 * b2, a1 * b3, a1 * b4, a2 * b0, a2 * b1, a2 * b2, a2 * b3, a2 * b4, a3 * b0, a3 * b1, a3 * b2, a3 * b3, a3 * b4, a4 * b0, a4 * b1, a4 * b2, a4 * b3, a4 * b4);
  }

  lemma ProductByColumns(x: Limbs, y: Limbs)
    ensures Value(x) * Value(y)
            == Eval9(Column0(x, y), Column1(x, y), Column2(x, y), Column3(x, y), Column4(x, y),
                     Column5(x, y), Column6(x, y), Column7(x, y), Column8(x, y))
  {
    ProductOfLimbs(x[0], x[1], x[2], x[3], x[4], y[0], y[1], y[2], y[3], y[4]);
  }

  lemma SmallProd(x: u64, y: u64)
    requires x < B56 && y < B56
    ensures Prod(x, y) < S2
  {
    ProductAtMost(x, y, B56 - 1, B56 - 1);
  }

  lemma ColumnBounds(x: Limbs, y: Limbs)
    requires Carried(x) && Carried(y)
    ensures 0 <= Column0(x, y) < S2 && 0 <= Column1(x, y) < 2 * S2 && 0 <= Column2(x, y) < 3 * S2
    ensures 0 <= Column3(x, y) < 4 * S2 && 0 <= Column4(x, y) < 5 * S2 && 0 <= Column5(x, y) < 4 * S2
    ensures 0 <= Column6(x, y) < 3 * S2 && 0 <= Column7(x, y) < 2 * S2 && 0 <= Column8(x, y) < S2
  {
    hide Prod;
    SmallProd(x[0], y[0]); SmallProd(x[0], y[1]); SmallProd(x[0], y[2]); SmallProd(x[0], y[3]); SmallProd(x[0], y[4]);
    SmallProd(x[1], y[0]); SmallProd(x[1], y[1]); SmallProd(x[1], y[2]); SmallProd(x[1], y[3]); SmallProd(x[1], y[4]);
    SmallProd(x[2], y[0]); SmallProd(x[2], y[1]); SmallProd(x[2], y[2]); SmallProd(x[2], y[3]); SmallProd(x[2], y[4]);
    SmallProd(x[3], y[0]); SmallProd(x[3], y[1]); SmallProd(x[3], y[2]); SmallProd(x[3], y[3]); SmallProd(x[3], y[4]);
    SmallProd(x[4], y[0]); SmallProd(x[4], y[1]); SmallProd(x[4], y[2]); SmallProd(x[4], y[3]); SmallProd(x[4], y[4]);
  }

  // ---- reading off a quotient across digits ----------------------------------------

  /** Five digits cut at bit 40: q collects what lies above the cut. */
  lemma CutAt40(d0: int, d1: int, d2: int, d3: int, c4: int, u0: int, u1: int, u2: int, u3: int, u4: int,
                v0: int, v1: int, v2: int, v3: int, v4: int)
    requires d0 == u0 * 0x10000000000 + v0 && d1 == u1 * 0x10000000000 + v1 && d2 == u2 * 0x10000000000 + v2
    requires d3 == u3 * 0x10000000000 + v3 && c4 == u4 * 0x10000000000 + v4 && 0 <= v0 < 0x10000000000
    ensures Eval(u0 + v1 * 0x10000, u1 + v2 * 0x10000, u2 + v3 * 0x10000, u3 + v4 * 0x10000, u4)
            == Eval(d0, d1, d2, d3, c4) / 0x10000000000
  {
    var q := Eval(u0 + v1 * 0x10000, u1 + v2 * 0x10000, u2 + v3 * 0x10000, u3 + v4 * 0x10000, u4);
    DivModUnique(Eval(d0, d1, d2, d3, c4), 0x10000000000, q, v0);
  }

  /** Five digits cut at bit 24: q collects what lies above the cut. */
  lemma CutAt24(d0: int, d1: int, d2: int, d3: int, c4: int, u0: int, u1: int, u2: int, u3: int, u4: int,
                v0: int, v1: int, v2: int, v3: int, v4: int)
    requires d0 == u0 * 0x1000000 + v0 && d1 == u1 * 0x1000000 + v1 && d2 == u2 * 0x1000000 + v2
    requires d3 == u3 * 0x1000000 + v3 && c4 == u4 * 0x1000000 + v4 && 0 <= v0 < 0x1000000
    ensures Eval(u0 + v1 * 0x100000000, u1 + v2 * 0x100000000, u2 + v3 * 0x100000000, u3 + v4 * 0x100000000, u4)
            == Eval(d0, d1, d2, d3, c4) / 0x1000000
  {
    var q := Eval(u0 + v1 * 0x100000000, u1 + v2 * 0x100000000, u2 + v3 * 0x100000000, u3 + v4 * 0x100000000, u4);
    DivModUnique(Eval(d0, d1, d2, d3, c4), 0x1000000, q, v0);
  }

  /** One limb of a quotient: the top bits of one column and the bottom bits of the next. */
  function Splice(c: u128, next: u128, a: nat, b: nat): (r: nat)
    requires a > 0 && b > 0 && Upper(c, a, b) < b && Lower(next, b) % b == 0
  {
    OrDisjoint(Upper(c, a, b), Lower(next, b), b)
  }

  /** Five columns, each already holding the carry of the one below: the digits. */
  ghost predicate Chain(s0: int, s1: int, s2: int, s3: int, s4: int, c0: int, c1: int, c2: int, c3: int, c4: int) {
    c0 == s0 && c1 == s1 + c0 / B56 && c2 == s2 + c1 / B56 && c3 == s3 + c2 / B56 && c4 == s4 + c3 / B56
  }

  lemma ChainValue(s0: int, s1: int, s2: int, s3: int, s4: int, c0: int, c1: int, c2: int, c3: int, c4: int)
    requires Chain(s0, s1, s2, s3, s4, c0, c1, c2, c3, c4)
    ensures Eval(c0 % B56, c1 % B56, c2 % B56, c3 % B56, c4) == Eval(s0, s1, s2, s3, s4)
  {
    hide Eval;
    CarryChain(s0, s1, s2, s3, s4, c0 % B56, c1 % B56, c2 % B56, c3 % B56, c4,
               c0 / B56, c1 / B56, c2 / B56, c3 / B56);
  }

  lemma Splice40(c: u128, next: u128)
    ensures Upper(c, 0x10000000000, 0x10000) < 0x10000 && Lower(next, 0x10000) % 0x10000 == 0
    ensures Splice(c, next, 0x10000000000, 0x10000) == (c % B56) / 0x10000000000 + (next % 0x10000000000) * 0x10000 < B56
    ensures c % B56 == ((c % B56) / 0x10000000000) * 0x10000000000 + c % 0x10000000000
  {
    UpperLower(c, 0x10000000000, 0x10000);
    UpperLower(next, 0x10000000000, 0x10000);
    hide Upper, Lower;
    ModOfMod(c, B56, 0x10000000000);
  }

  /** q[4]: the top bits of the last column and its whole carry. */
  method TopLimb40(c: u128) returns (q: u64)
    requires c < 0x1000000000000000000000000
    ensures q == c / 0x10000000000 < B56
  {
    UpperLower(c, 0x10000000000, 0x10000);
    hide Upper, Lower;
    var f: u64 := c / B56;
    q := OrDisjoint(Upper(c, 0x10000000000, 0x10000), f * 0x10000, 0x10000);
  }

  /** Limbs of (c0 + c1 2^56 + ...) / 2^40. */
  method TakeAbove40(c0: u128, c1: u128, c2: u128, c3: u128, c4: u128) returns (q: Limbs)
    requires c4 < 0x1000000000000000000000000
    ensures Carried(q)
    ensures Value(q) == Eval(c0 % B56, c1 % B56, c2 % B56, c3 % B56, c4) / 0x10000000000
  {
    hide Upper, Lower, Eval, Splice;
    Splice40(c0, c1); Splice40(c1, c2); Splice40(c2, c3); Splice40(c3, c4);
    var q0: u64 := Splice(c0, c1, 0x10000000000, 0x10000);
    var q1: u64 := Splice(c1, c2, 0x10000000000, 0x10000);
    var q2: u64 := Splice(c2, c3, 0x10000000000, 0x10000);
    var q3: u64 := Splice(c3, c4, 0x10000000000, 0x10000);
    var q4: u64 := TopLimb40(c4);
    CutAt40(c0 % B56, c1 % B56, c2 % B56, c3 % B56, c4,
            (c0 % B56) / 0x10000000000, (c1 % B56) / 0x10000000000, (c2 % B56) / 0x10000000000, (c3 % B56) / 0x10000000000, c4 / 0x10000000000,
            c0 % 0x10000000000, c1 % 0x10000000000, c2 % 0x10000000000, c3 % 0x10000000000, c4 % 0x10000000000);
    q := [q0, q1, q2, q3, q4];
  }

  lemma Splice24(c: u128, next: u128)
    ensures Upper(c, 0x1000000, 0x100000000) < 0x100000000 && Lower(next, 0x100000000) % 0x100000000 == 0
    ensures Splice(c, next, 0x1000000, 0x100000000) == (c % B56) / 0x1000000 + (next % 0x1000000) * 0x100000000 < B56
    ensures c % B56 == ((c % B56) / 0x1000000) * 0x1000000 + c % 0x1000000
  {
    UpperLower(c, 0x1000000, 0x100000000);
    UpperLower(next, 0x1000000, 0x100000000);
    hide Upper, Lower;
    ModOfMod(c, B56, 0x1000000);
  }

  /** q[4]: the top bits of the last column and its whole carry. */
  method TopLimb24(c: u128) returns (q: u64)
    requires c < 0x100000000000000000000
    ensures q == c / 0x1000000 < B56
  {
    UpperLower(c, 0x1000000, 0x100000000);
    hide Upper, Lower;
    var f: u64 := c / B56;
    q := OrDisjoint(Upper(c, 0x1000000, 0x100000000), f * 0x100000000, 0x100000000);
  }

  /** Limbs of (c0 + c1 2^56 + ...) / 2^24. */
  method TakeAbove24(c0: u128, c1: u128, c2: u128, c3: u128, c4: u128) returns (q: Limbs)
    requires c4 < 0x100000000000000000000
    ensures Carried(q)
    ensures Value(q) == Eval(c0 % B56, c1 % B56, c2 % B56, c3 % B56, c4) / 0x1000000
  {
    hide Upper, Lower, Eval, Splice;
    Splice24(c0, c1); Splice24(c1, c2); Splice24(c2, c3); Splice24(c3, c4);
    var q0: u64 := Splice(c0, c1, 0x1000000, 0x100000000);
    var q1: u64 := Splice(c1, c2, 0x1000000, 0x100000000);
    var q2: u64 := Splice(c2, c3, 0x1000000, 0x100000000);
    var q3: u64 := Splice(c3, c4, 0x1000000, 0x100000000);
    var q4: u64 := TopLimb24(c4);
    CutAt24(c0 % B56, c1 % B56, c2 % B56, c3 % B56, c4,
            (c0 % B56) / 0x1000000, (c1 % B56) / 0x1000000, (c2 % B56) / 0x1000000, (c3 % B56) / 0x1000000, c4 / 0x1000000,
            c0 % 0x1000000, c1 % 0x1000000, c2 % 0x1000000, c3 % 0x1000000, c4 % 0x1000000);
    q := [q0, q1, q2, q3, q4];
  }

  // ---- Barrett reduction -----------------------------------------------------------

  /** Columns 4 to 8 of a product, each with the carry of the one below; `f` enters
      column 4. */
  method UpperColumns(x: Limbs, y: Limbs, f0: u64) returns (c4: u128, c5: u128, c6: u128, c7: u128, c8: u128)
    requires Carried(x) && Carried(y) && f0 < 8 * B56
    ensures Chain(Column4(x, y) + f0, Column5(x, y), Column6(x, y), Column7(x, y), Column8(x, y), c4, c5, c6, c7, c8)
    ensures c8 < Column8(x, y) + 8 * B56
  {
    ColumnBounds(x, y);
    hide Prod, Carried;
    var f := f0;
    c4 := Prod(x[0], y[4]) + f + Prod(x[4], y[0]) + Prod(x[3], y[1]) + Prod(x[1], y[3]) + Prod(x[2], y[2]);
    f := c4 / B56;
    c5 := Prod(x[4], y[1]) + f + Prod(x[1], y[4]) + Prod(x[2], y[3]) + Prod(x[3], y[2]);
    f := c5 / B56;
    c6 := Prod(x[4], y[2]) + f + Prod(x[2], y[4]) + Prod(x[3], y[3]);
    f := c6 / B56;
    c7 := Prod(x[4], y[3]) + f + Prod(x[3], y[4]);
    f := c7 / B56;
    c8 := Prod(x[4], y[4]) + f;
  }

  /** Columns 0 to 3 of a product, each with the carry of the one below. */
  method LowerColumns(x: Limbs, y: Limbs) returns (c0: u128, c1: u128, c2: u128, c3: u128)
    requires Carried(x) && Carried(y)
    ensures Chain(Column0(x, y), Column1(x, y), Column2(x, y), Column3(x, y), 0, c0, c1, c2, c3, c3 / B56)
    ensures c3 < 5 * S2
  {
    ColumnBounds(x, y);
    hide Prod, Carried;
    c0 := Prod(x[0], y[0]);
    var f: u64 := c0 / B56;
    c1 := Prod(x[0], y[1]) + f + Prod(x[1], y[0]);
    f := c1 / B56;
    c2 := Prod(x[0], y[2]) + f + Prod(x[2], y[0]) + Prod(x[1], y[1]);
    f := c2 / B56;
    c3 := Prod(x[0], y[3]) + f + Prod(x[3], y[0]) + Prod(x[1], y[2]) + Prod(x[2], y[1]);
  }

  /** Lines 74-85: the quotient from columns 3 to 8 of MU q1 alone. */
  method EstimateQuotient(q1: Limbs) returns (q3: Limbs, ghost dropped: int)
    requires Carried(q1)
    ensures Carried(q3) && 0 <= dropped < 8 * S4 && dropped <= MU * Value(q1)
    ensures Value(q3) == (MU * Value(q1) - dropped) / TWO264
  {
    hide Carried, Value, Eval, Eval9, Chain, DroppedOf, MODM_MU, MU, Column0, Column1, Column2, Column3, Column4,
      Column5, Column6, Column7, Column8;
    var mu := MODM_MU;
    EstimateFacts(q1);
    var c: u128 := Column3(mu, q1);
    var f: u64 := c / B56;
    var c4, c5, c6, c7, c8 := UpperColumns(mu, q1, f);
    q3 := TakeAbove40(c4, c5, c6, c7, c8);
    dropped := DroppedOf(Column0(mu, q1), Column1(mu, q1), Column2(mu, q1), c);
    ChainValue(Column4(mu, q1) + f, Column5(mu, q1), Column6(mu, q1), Column7(mu, q1), Column8(mu, q1),
               c4, c5, c6, c7, c8);
    EstimateValue(Column0(mu, q1), Column1(mu, q1), Column2(mu, q1), c, Column4(mu, q1), Column5(mu, q1),
                  Column6(mu, q1), Column7(mu, q1), Column8(mu, q1), MU * Value(q1), Value(q3));
  }

  lemma EstimateFacts(q1: Limbs)
    requires Carried(q1)
    ensures Carried(MODM_MU) && Column8(MODM_MU, q1) < 0x100000000000000000000000
    ensures 0 <= Column0(MODM_MU, q1) < S2 && 0 <= Column1(MODM_MU, q1) < 2 * S2 && 0 <= Column2(MODM_MU, q1) < 3 * S2
    ensures 0 <= Column3(MODM_MU, q1) < 4 * S2 && 0 <= Column4(MODM_MU, q1) && 0 <= Column5(MODM_MU, q1)
    ensures 0 <= Column6(MODM_MU, q1) && 0 <= Column7(MODM_MU, q1) && 0 <= Column8(MODM_MU, q1)
    ensures MU * Value(q1)
            == Eval9(Column0(MODM_MU, q1), Column1(MODM_MU, q1), Column2(MODM_MU, q1), Column3(MODM_MU, q1),
                     Column4(MODM_MU, q1), Column5(MODM_MU, q1), Column6(MODM_MU, q1), Column7(MODM_MU, q1),
                     Column8(MODM_MU, q1))
  {
    ModulusLimbs();
    TopColumn(MODM_MU[4], q1[4]);
    hide Prod, Eval, Eval9;
    ColumnBounds(MODM_MU, q1);
    ProductByColumns(MODM_MU, q1);
  }

  lemma TopColumn(m4: u64, q4: u64)
    requires m4 == MODM_MU[4] && q4 < B56
    ensures Prod(m4, q4) < 0x100000000000000000000000
  {
    ProductAtMost(m4, q4, 0x1000000000, B56 - 1);
  }

  ghost function DroppedOf(c0: int, c1: int, c2: int, c3: int): int {
    c0 + c1 * S1 + c2 * S2 + (c3 % B56) * S3
  }

  lemma EstimateValue(c0: int, c1: int, c2: int, c3: int, c4: int, c5: int, c6: int, c7: int, c8: int, n: int, q: int)
    requires 0 <= c0 < S2 && 0 <= c1 < 2 * S2 && 0 <= c2 < 3 * S2 && 0 <= c3
    requires 0 <= c4 && 0 <= c5 && 0 <= c6 && 0 <= c7 && 0 <= c8
    requires n == Eval9(c0, c1, c2, c3, c4, c5, c6, c7, c8)
    requires q == Eval(c4 + c3 / B56, c5, c6, c7, c8) / 0x10000000000
    ensures 0 <= DroppedOf(c0, c1, c2, c3) < 8 * S4 && DroppedOf(c0, c1, c2, c3) <= n
    ensures q == (n - DroppedOf(c0, c1, c2, c3)) / TWO264
  {
    var e := Eval(c4 + c3 / B56, c5, c6, c7, c8);
    var d := DroppedOf(c0, c1, c2, c3);
    assert n == d + S4 * e;
    DivModUnique(n - d, TWO264, q, S4 * (e % 0x10000000000));
  }

  /** Lines 87-96: the low 264 bits of q3 M, from columns 0 to 4. */
  method ProductLow264(q3: Limbs) returns (r2: Limbs)
    requires Carried(q3)
    ensures Carried(r2) && r2[4] < 0x10000000000 && Value(r2) == (Value(q3) * M) % TWO264
  {
    ModulusLimbs();
    ColumnBounds(MODM_M, q3);
    ProductByColumns(MODM_M, q3);
    var m := MODM_M;
    var c0, c1, c2, c3 := LowerColumns(m, q3);
    var f: u64 := c3 / B56;
    var c: u128 := Prod(m[0], q3[4]) + f + Prod(m[4], q3[0]) + Prod(m[3], q3[1]) + Prod(m[1], q3[3]) + Prod(m[2], q3[2]);
    assert Chain(Column0(m, q3), Column1(m, q3), Column2(m, q3), Column3(m, q3), Column4(m, q3), c0, c1, c2, c3, c);
    hide *;
    r2 := [c0 % W64 % B56, c1 % W64 % B56, c2 % W64 % B56, c3 % W64 % B56, c % W64 % 0x10000000000];
    WordDigit(c0); WordDigit(c1); WordDigit(c2); WordDigit(c3); WordDigit(c);
    ChainValue(Column0(m, q3), Column1(m, q3), Column2(m, q3), Column3(m, q3), Column4(m, q3), c0, c1, c2, c3, c);
    LowValue(Column0(m, q3), Column1(m, q3), Column2(m, q3), Column3(m, q3), Column4(m, q3), Column5(m, q3),
             Column6(m, q3), Column7(m, q3), Column8(m, q3), Value(q3) * M, r2[0], r2[1], r2[2], r2[3], c, r2[4]);
    CarriedIntro(r2);
  }

  lemma CarriedIntro(r: Limbs)
    requires r[0] < B56 && r[1] < B56 && r[2] < B56 && r[3] < B56 && r[4] < B56
    ensures Carried(r) && Value(r) == Eval(r[0], r[1], r[2], r[3], r[4])
  {
  }

  lemma WordDigit(c: u128)
    ensures c % W64 % B56 == c % B56 && c % W64 % 0x10000000000 == c % 0x10000000000 == c % B56 % 0x10000000000
  {
    ModOfMod(c, B56, 0x10000000000);
    ModOfMod(c, W64, B56);
    ModOfMod(c, W64, 0x10000000000);
  }

  lemma LowValue(s0: int, s1: int, s2: int, s3: int, s4: int, s5: int, s6: int, s7: int, s8: int, n: int,
                 d0: int, d1: int, d2: int, d3: int, c4: int, r4: int)
    requires n == Eval9(s0, s1, s2, s3, s4, s5, s6, s7, s8)
    requires Eval(d0, d1, d2, d3, c4) == Eval(s0, s1, s2, s3, s4) && r4 == c4 % 0x10000000000
    requires 0 <= d0 < B56 && 0 <= d1 < B56 && 0 <= d2 < B56 && 0 <= d3 < B56
    ensures Eval(d0, d1, d2, d3, r4) == n % TWO264
  {
    var high := c4 / 0x10000000000 + 0x10000 * (s5 + s6 * S1 + s7 * S2 + s8 * S3);
    DivModUnique(n, TWO264, high, Eval(d0, d1, d2, d3, r4));
  }

  /** Lines 98-103: the difference modulo 2^264. */
  method Subtract264(r1: Limbs, r2: Limbs) returns (r: Limbs)
    requires Carried(r1) && Carried(r2) && r1[4] < 0x10000000000 && r2[4] < 0x10000000000
    ensures Carried(r) && Value(r) == (Value(r1) - Value(r2)) % TWO264
  {
    hide Eval;
    var pb: u64 := r2[0]; var b := LtModm(r1[0], pb); var t0: u64 := r1[0] - pb + b * B56; pb := b; ghost var b0 := b;
    pb := pb + r2[1]; b := LtModm(r1[1], pb); var t1: u64 := r1[1] - pb + b * B56; pb := b; ghost var b1 := b;
    pb := pb + r2[2]; b := LtModm(r1[2], pb); var t2: u64 := r1[2] - pb + b * B56; pb := b; ghost var b2 := b;
    pb := pb + r2[3]; b := LtModm(r1[3], pb); var t3: u64 := r1[3] - pb + b * B56; pb := b; ghost var b3 := b;
    pb := pb + r2[4]; b := LtModm(r1[4], pb); var t4: u64 := r1[4] - pb + b * 0x10000000000;
    BorrowChain(r1[0], r1[1], r1[2], r1[3], r1[4], r2[0], r2[1], r2[2], r2[3], r2[4],
                t0, t1, t2, t3, t4 - b * 0x10000000000, b0, b1, b2, b3);
    WrapTop(t0, t1, t2, t3, t4, b, Value(r1) - Value(r2));
    r := [t0, t1, t2, t3, t4];
  }

  lemma WrapTop(t0: int, t1: int, t2: int, t3: int, t4: int, b: int, d: int)
    requires 0 <= t0 < B56 && 0 <= t1 < B56 && 0 <= t2 < B56 && 0 <= t3 < B56 && 0 <= t4 < 0x10000000000
    requires d == Eval(t0, t1, t2, t3, t4 - b * 0x10000000000)
    ensures Eval(t0, t1, t2, t3, t4) == d % TWO264
  {
    DivModUnique(d, TWO264, -b, Eval(t0, t1, t2, t3, t4));
  }

  /** barrett_reduce256_modm: q1 and r1 are the high and the low part of x. */
  method BarrettReduce(q1: Limbs, r1: Limbs, ghost x: int) returns (r: Limbs)
    requires Carried(q1) && Carried(r1) && r1[4] < 0x10000000000
    requires 0 <= x < TWO512 && Value(q1) == x / TWO248 && Value(r1) == x % TWO264
    ensures Carried(r) && Value(r) == x % M
  {
    ValueNonNegative(r1);
    hide Eval, Carried, Value;
    var q3, dropped := EstimateQuotient(q1);
    QuotientEstimate(x, Value(q1), dropped, Value(q3));
    var r2 := ProductLow264(q3);
    r := Subtract264(r1, r2);
    SubtractResidues(x, Value(q3) * M, Value(r1), Value(r2));
    CarriedParts(r, Value(r));
    var s := Reduce256(r);
    var t := Reduce256(s);
    TwiceReduced(x, Value(q3), Value(r), Value(s), Value(t), t);
    r := t;
  }

  lemma CarriedParts(r: Limbs, v: int)
    requires Carried(r)
    ensures r[0] < B56 && r[1] < B56 && r[2] < B56 && r[3] < B56 && r[4] < B56
  {
  }

  lemma SubtractResidues(x: int, y: int, a: int, b: int)
    requires a == x % TWO264 && b == y % TWO264 && 0 <= x - y < 3 * M
    ensures (a - b) % TWO264 == x - y
  {
    DivModUnique(a - b, TWO264, y / TWO264 - x / TWO264, x - y);
  }

  lemma TwiceReduced(x: int, q: int, v: int, s: int, t: int, limbs: Limbs)
    requires v == x - q * M && 0 <= v < 3 * M
    requires s == (if v >= M then v - M else v) && t == (if s >= M then s - M else s)
    requires limbs[0] < B56 && limbs[1] < B56 && limbs[2] < B56 && limbs[3] < B56 && Value(limbs) == t
    ensures Carried(limbs) && t == x % M
  {
    LowLimbsBound(limbs[0], limbs[1], limbs[2], limbs[3], limbs[4]);
    var k := q + (if v >= M then 1 else 0) + (if s >= M then 1 else 0);
    assert x == k * M + t;
    DivModUnique(x, M, k, t);
  }

  // ---- multiplication ---------------------------------------------------------------

  /** mul256_modm on scalars below 2^256. */
  method Mul256(x: Limbs, y: Limbs) returns (r: Limbs)
    requires Carried(x) && Carried(y) && Value(x) < TWO256 && Value(y) < TWO256
    ensures Carried(r) && Value(r) == (Value(x) * Value(y)) % M
  {
    hide Carried, Value, Eval, Eval9, Chain, Column0, Column1, Column2, Column3, Column4, Column5, Column6, Column7,
      Column8;
    ColumnBounds(x, y);
    TopColumnOf(x, y);
    ProductByColumns(x, y);
    ghost var n := Value(x) * Value(y);
    ProductRange(x, y);
    var c0, c1, c2, c3 := LowerColumns(x, y);
    var f: u64 := c3 / B56;
    var c4, c5, c6, c7, c8 := UpperColumns(x, y, f);
    var q1 := TakeAbove24(c4, c5, c6, c7, c8);
    var r1: Limbs := [c0 % W64 % B56, c1 % W64 % B56, c2 % W64 % B56, c3 % W64 % B56, c4 % W64 % 0x10000000000];
    WordDigit(c0); WordDigit(c1); WordDigit(c2); WordDigit(c3); WordDigit(c4);
    CarriedIntro(r1);
    ChainValue(Column0(x, y), Column1(x, y), Column2(x, y), Column3(x, y), 0, c0, c1, c2, c3, c3 / B56);
    ChainValue(Column4(x, y) + f, Column5(x, y), Column6(x, y), Column7(x, y), Column8(x, y), c4, c5, c6, c7, c8);
    SplitProduct(Column0(x, y), Column1(x, y), Column2(x, y), Column3(x, y), Column4(x, y), Column5(x, y),
                 Column6(x, y), Column7(x, y), Column8(x, y), n, c0 % B56, c1 % B56, c2 % B56, c3 % B56, f,
                 c4 % B56, c5 % B56, c6 % B56, c7 % B56, c8, c4 % 0x10000000000);
    r := BarrettReduce(q1, r1, n);
  }

  lemma TopColumnOf(x: Limbs, y: Limbs)
    requires Carried(x) && Carried(y) && Value(x) < TWO256 && Value(y) < TWO256
    ensures Column8(x, y) < 0x10000000000000000
  {
    LowLimbsBound(x[0], x[1], x[2], x[3], x[4]);
    LowLimbsBound(y[0], y[1], y[2], y[3], y[4]);
    ProductAtMost(x[4], y[4], 0xffffffff, 0xffffffff);
  }

  lemma ProductRange(x: Limbs, y: Limbs)
    requires Value(x) < TWO256 && Value(y) < TWO256
    ensures 0 <= Value(x) * Value(y) < TWO512
  {
    ValueNonNegative(x); ValueNonNegative(y);
    hide Value;
    ProductAtMost(Value(x), Value(y), 0xffffffffffffffffffffffffffffffffffffffffffffffffffffffffffffffff, 0xffffffffffffffffffffffffffffffffffffffffffffffffffffffffffffffff);
  }

  /** The parts of a product on either side of bit 248 and of bit 264. */
  lemma SplitProduct(s0: int, s1: int, s2: int, s3: int, s4: int, s5: int, s6: int, s7: int, s8: int, n: int,
                     d0: int, d1: int, d2: int, d3: int, f: int, d4: int, d5: int, d6: int, d7: int, c8: int, low: int)
    requires n == Eval9(s0, s1, s2, s3, s4, s5, s6, s7, s8)
    requires Eval(d0, d1, d2, d3, f) == Eval(s0, s1, s2, s3, 0)
    requires Eval(d4, d5, d6, d7, c8) == Eval(s4 + f, s5, s6, s7, s8)
    requires 0 <= d0 < B56 && 0 <= d1 < B56 && 0 <= d2 < B56 && 0 <= d3 < B56 && low == d4 % 0x10000000000
    ensures Eval(d4, d5, d6, d7, c8) / 0x1000000 == n / TWO248
    ensures Eval(d0, d1, d2, d3, low) == n % TWO264
  {
    var e := Eval(d4, d5, d6, d7, c8);
    var bottom := d0 + d1 * S1 + d2 * S2 + d3 * S3;
    assert n == bottom + S4 * e;
    DivModUnique(n, TWO248, e / 0x1000000, S4 * (e % 0x1000000) + bottom);
    var high := d4 / 0x10000000000 + 0x10000 * (d5 + d6 * S1 + d7 * S2 + c8 * S3);
    DivModUnique(n, TWO264, high, Eval(d0, d1, d2, d3, low));
  }
}
