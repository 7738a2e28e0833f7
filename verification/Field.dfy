/** Field elements as five radix-2^51 limbs with lazy carries
    (src/ed25519-donna/curve25519-donna-64bit.h). */
module Field {
  import opened Words
  import opened Modular
  import opened Powers

  const R1: int := 0x8000000000000
  const R2: int := 0x40000000000000000000000000
  const R3: int := 0x200000000000000000000000000000000000000
  const R4: int := 0x1000000000000000000000000000000000000000000000000000

  /** bignum25519 */
  datatype Fe = Fe(l0: u64, l1: u64, l2: u64, l3: u64, l4: u64)

  function Eval(a0: int, a1: int, a2: int, a3: int, a4: int): int {
    a0 + a1 * R1 + a2 * R2 + a3 * R3 + a4 * R4
  }

  /** The integer a limb vector stands for. */
  function Val(a: Fe): int {
    Eval(a.l0, a.l1, a.l2, a.l3, a.l4)
  }

  predicate Below(a: Fe, bound: int) {
    a.l0 < bound && a.l1 < bound && a.l2 < bound && a.l3 < bound && a.l4 < bound
  }

  /** Limb sizes: after a carried operation, after one limbwise operation on carried
      elements, and the most a product accepts. */
  const TIGHT: int := 0x8000000020000
  const MEDIUM: int := 0x1ffffffffffc00
  const LOOSE: int := 0x40000000000000

  predicate Loose(a: Fe) { Below(a, LOOSE) }

  predicate Medium(a: Fe): (b: bool)
    ensures b ==> Loose(a)
  {
    Below(a, MEDIUM)
  }

  predicate Tight(a: Fe): (b: bool)
    ensures b ==> Medium(a)
  {
    Below(a, TIGHT)
  }

  const ZERO: Fe := Fe(0, 0, 0, 0, 0)
  const ONE: Fe := Fe(1, 0, 0, 0, 0)
  const TWO: Fe := Fe(2, 0, 0, 0, 0)

  // ---- limbwise operations -----------------------------------------------------

  /** curve25519_add and curve25519_add_after_basic */
  function Add(a: Fe, b: Fe): (r: Fe)
    requires Loose(a) && Loose(b)
    ensures Val(r) == Val(a) + Val(b)
    ensures Tight(a) && Tight(b) ==> Medium(r)
    ensures Medium(a) && Tight(b) ==> Loose(r)
  {
    Fe(a.l0 + b.l0, a.l1 + b.l1, a.l2 + b.l2, a.l3 + b.l3, a.l4 + b.l4)
  }

  const TWO_P0: int := 0xfffffffffffda
  const TWO_P1234: int := 0xffffffffffffe
  const FOUR_P0: int := 0x1fffffffffffb4
  const FOUR_P1234: int := 0x1ffffffffffffc

  /** curve25519_sub: adds 2p limbwise, so no limb goes below zero. */
  function Sub(a: Fe, b: Fe): (r: Fe)
    requires Loose(a) && Tight(b)
    ensures Val(r) == Val(a) - Val(b) + 2 * P
    ensures Tight(a) ==> Medium(r)
  {
    Fe(a.l0 + TWO_P0 - b.l0, a.l1 + TWO_P1234 - b.l1, a.l2 + TWO_P1234 - b.l2,
       a.l3 + TWO_P1234 - b.l3, a.l4 + TWO_P1234 - b.l4)
  }

  /** curve25519_sub_after_basic: adds 4p limbwise. */
  function SubAfterBasic(a: Fe, b: Fe): (r: Fe)
    requires Loose(a) && Medium(b)
    ensures Val(r) == Val(a) - Val(b) + 4 * P
    ensures Medium(a) ==> Loose(r)
  {
    Fe(a.l0 + FOUR_P0 - b.l0, a.l1 + FOUR_P1234 - b.l1, a.l2 + FOUR_P1234 - b.l2,
       a.l3 + FOUR_P1234 - b.l3, a.l4 + FOUR_P1234 - b.l4)
  }

  // ---- carry chains ------------------------------------------------------------

  /** A carry chain keeps the value: each limb hands its overflow to the next, and the
      overflow of the last is worth 2^255, that is 19 modulo p. */
  lemma CarryKeepsValue(t0: int, t1: int, t2: int, t3: int, t4: int,
                        r0: int, r1: int, r2: int, r3: int, r4: int,
                        c0: int, c1: int, c2: int, c3: int, c4: int)
    requires t0 == c0 * R1 + r0
    requires t1 + c0 == c1 * R1 + r1
    requires t2 + c1 == c2 * R1 + r2
    requires t3 + c2 == c3 * R1 + r3
    requires t4 + c3 == c4 * R1 + r4
    ensures Cong(Eval(r0 + c4 * 19, r1, r2, r3, r4), Eval(t0, t1, t2, t3, t4))
  {
    CongOfMultiple(Eval(r0 + c4 * 19, r1, r2, r3, r4), Eval(t0, t1, t2, t3, t4), -c4);
  }

  /** Room for one more carry in a 64-bit word. */
  const WIDE: int := 0xffffffffffffc000

  /** The chain shared by the reducing add, subtract, negate and the squaring loop: carries each of
      the five columns once and folds the top carry back into the bottom limb. */
  method CarryColumns(t0: u64, t1: u64, t2: u64, t3: u64, t4: u64) returns (out: Fe)
    requires t0 < WIDE && t1 < WIDE && t2 < WIDE && t3 < WIDE && t4 < 0x8000000000000000
    ensures Tight(out) && Cong(Val(out), Eval(t0, t1, t2, t3, t4))
  {
    hide Cong;
    var o0: u64, o1: u64, o2: u64, o3: u64, o4: u64 := t0, t1, t2, t3, t4;
    var c: u64 := o0 / R1; o0 := o0 % R1; ghost var c0 := c;
    o1 := o1 + c; c := o1 / R1; o1 := o1 % R1; ghost var c1 := c;
    o2 := o2 + c; c := o2 / R1; o2 := o2 % R1; ghost var c2 := c;
    o3 := o3 + c; c := o3 / R1; o3 := o3 % R1; ghost var c3 := c;
    o4 := o4 + c; c := o4 / R1; o4 := o4 % R1;
    CarryKeepsValue(t0, t1, t2, t3, t4, o0, o1, o2, o3, o4, c0, c1, c2, c3, c);
    o0 := o0 + c * 19;
    out := Fe(o0, o1, o2, o3, o4);
  }

  /** curve25519_add_reduce */
  method AddReduce(a: Fe, b: Fe) returns (out: Fe)
    requires Loose(a) && Loose(b)
    ensures Tight(out) && Cong(Val(out), Val(a) + Val(b))
  {
    out := CarryColumns(a.l0 + b.l0, a.l1 + b.l1, a.l2 + b.l2, a.l3 + b.l3, a.l4 + b.l4);
  }

  /** curve25519_sub_reduce */
  method SubReduce(a: Fe, b: Fe) returns (out: Fe)
    requires Loose(a) && Medium(b)
    ensures Tight(out) && Cong(Val(out), Val(a) - Val(b))
  {
    hide Cong;
    var d := SubAfterBasic(a, b);
    out := CarryColumns(d.l0, d.l1, d.l2, d.l3, d.l4);
    CongOfMultiple(Val(d), Val(a) - Val(b), 4);
    CongTrans(Val(out), Val(d), Val(a) - Val(b));
  }

  /** curve25519_neg */
  method Neg(a: Fe) returns (out: Fe)
    requires Tight(a)
    ensures Tight(out) && Cong(Val(out), -Val(a))
  {
    hide Cong;
    var d := Sub(ZERO, a);
    out := CarryColumns(d.l0, d.l1, d.l2, d.l3, d.l4);
    CongOfMultiple(Val(d), -Val(a), 2);
    CongTrans(Val(out), Val(d), -Val(a));
  }

  /** `out` is congruent to the product of `a` and `b`. */
  ghost predicate IsProduct(out: Fe, a: Fe, b: Fe) {
    Cong(Val(out), Val(a) * Val(b))
  }

  // ---- products ----------------------------------------------------------------

  lemma Row(x: int, a0: int, a1: int, a2: int, a3: int, a4: int)
    ensures x * Eval(a0, a1, a2, a3, a4) == Eval(x * a0, x * a1, x * a2, x * a3, x * a4)
  {
    assert x * (a1 * R1) == (x * a1) * R1;
    assert x * (a2 * R2) == (x * a2) * R2;
    assert x * (a3 * R3) == (x * a3) * R3;
    assert x * (a4 * R4) == (x * a4) * R4;
  }

  /** Columns 5 to 8 of a product table are worth 2^255 times columns 0 to 3. */
  lemma FoldTable(p00: int, p01: int, p02: int, p03: int, p04: int,
                  p10: int, p11: int, p12: int, p13: int, p14: int,
                  p20: int, p21: int, p22: int, p23: int, p24: int,
                  p30: int, p31: int, p32: int, p33: int, p34: int,
                  p40: int, p41: int, p42: int, p43: int, p44: int)
    ensures Cong(Eval(Eval(p00, p01, p02, p03, p04), Eval(p10, p11, p12, p13, p14),
                      Eval(p20, p21, p22, p23, p24), Eval(p30, p31, p32, p33, p34),
                      Eval(p40, p41, p42, p43, p44)),
                 Eval(p00 + 19 * (p41 + p32 + p23 + p14), p01 + p10 + 19 * (p42 + p33 + p24),
                      p02 + p11 + p20 + 19 * (p43 + p34), p03 + p12 + p21 + p30 + 19 * p44,
                      p04 + p13 + p22 + p31 + p40))
  {
    CongOfMultiple(Eval(Eval(p00, p01, p02, p03, p04), Eval(p10, p11, p12, p13, p14),
                        Eval(p20, p21, p22, p23, p24), Eval(p30, p31, p32, p33, p34),
                        Eval(p40, p41, p42, p43, p44)),
                   Eval(p00 + 19 * (p41 + p32 + p23 + p14), p01 + p10 + 19 * (p42 + p33 + p24),
                        p02 + p11 + p20 + 19 * (p43 + p34), p03 + p12 + p21 + p30 + 19 * p44,
                        p04 + p13 + p22 + p31 + p40),
                   (p41 + p32 + p23 + p14) + (p42 + p33 + p24) * R1 + (p43 + p34) * R2 + p44 * R3);
  }

  /** The five folded columns of a product. */
  function Columns(a: Fe, b: Fe): (int, int, int, int, int) {
    (Prod(a.l0, b.l0) + 19 * (Prod(a.l4, b.l1) + Prod(a.l3, b.l2) + Prod(a.l2, b.l3) + Prod(a.l1, b.l4)),
     Prod(a.l0, b.l1) + Prod(a.l1, b.l0) + 19 * (Prod(a.l4, b.l2) + Prod(a.l3, b.l3) + Prod(a.l2, b.l4)),
     Prod(a.l0, b.l2) + Prod(a.l1, b.l1) + Prod(a.l2, b.l0) + 19 * (Prod(a.l4, b.l3) + Prod(a.l3, b.l4)),
     Prod(a.l0, b.l3) + Prod(a.l1, b.l2) + Prod(a.l2, b.l1) + Prod(a.l3, b.l0) + 19 * (Prod(a.l4, b.l4)),
     Prod(a.l0, b.l4) + Prod(a.l1, b.l3) + Prod(a.l2, b.l2) + Prod(a.l3, b.l1) + Prod(a.l4, b.l0))
  }

  function EvalColumns(t: (int, int, int, int, int)): int {
    Eval(t.0, t.1, t.2, t.3, t.4)
  }

  lemma ProductOfLimbs(a0: int, a1: int, a2: int, a3: int, a4: int, b0: int, b1: int, b2: int, b3: int, b4: int)
    ensures Cong(Eval(a0, a1, a2, a3, a4) * Eval(b0, b1, b2, b3, b4),
                 Eval(a0 * b0 + 19 * (a4 * b1 + a3 * b2 + a2 * b3 + a1 * b4),
                      a0 * b1 + a1 * b0 + 19 * (a4 * b2 + a3 * b3 + a2 * b4),
                      a0 * b2 + a1 * b1 + a2 * b0 + 19 * (a4 * b3 + a3 * b4),
                      a0 * b3 + a1 * b2 + a2 * b1 + a3 * b0 + 19 * (a4 * b4),
                      a0 * b4 + a1 * b3 + a2 * b2 + a3 * b1 + a4 * b0))
  {
    Row(Eval(b0, b1, b2, b3, b4), a0, a1, a2, a3, a4);
    Row(a0, b0, b1, b2, b3, b4);
    Row(a1, b0, b1, b2, b3, b4);
    Row(a2, b0, b1, b2, b3, b4);
    Row(a3, b0, b1, b2, b3, b4);
    Row(a4, b0, b1, b2, b3, b4);
    hide *;
    FoldTable(a0 * b0, a0 * b1, a0 * b2, a0 * b3, a0 * b4, a1 * b0, a1 * b1, a1 * b2, a1 * b3, a1 * b4,
              a2 * b0, a2 * b1, a2 * b2, a2 * b3, a2 * b4, a3 * b0, a3 * b1, a3 * b2, a3 * b3, a3 * b4,
              a4 * b0, a4 * b1, a4 * b2, a4 * b3, a4 * b4);
  }

  lemma ColumnsAreProduct(a: Fe, b: Fe)
    ensures Cong(Val(a) * Val(b), EvalColumns(Columns(a, b)))
  {
    ProductOfLimbs(a.l0, a.l1, a.l2, a.l3, a.l4, b.l0, b.l1, b.l2, b.l3, b.l4);
  }

  lemma ProductBound(x: u64, y: u64)
    requires x < LOOSE && y < LOOSE
    ensures Prod(x, y) < 0x1000000000000000000000000000
  {
    ProductAtMost(x, y, LOOSE - 1, LOOSE - 1);
  }

  predicate ColumnsFit(t: (int, int, int, int, int)) {
    && 0 <= t.0 < 77 * 0x1000000000000000000000000000
    && 0 <= t.1 < 59 * 0x1000000000000000000000000000
    && 0 <= t.2 < 41 * 0x1000000000000000000000000000
    && 0 <= t.3 < 23 * 0x1000000000000000000000000000
    && 0 <= t.4 < 5 * 0x1000000000000000000000000000
  }

  lemma ColumnsBound(a: Fe, b: Fe)
    requires Loose(a) && Loose(b)
    ensures ColumnsFit(Columns(a, b))
  {
    hide Prod;
    ProductBound(a.l0, b.l0); ProductBound(a.l0, b.l1); ProductBound(a.l0, b.l2); ProductBound(a.l0, b.l3); ProductBound(a.l0, b.l4);
    ProductBound(a.l1, b.l0); ProductBound(a.l1, b.l1); ProductBound(a.l1, b.l2); ProductBound(a.l1, b.l3); ProductBound(a.l1, b.l4);
    ProductBound(a.l2, b.l0); ProductBound(a.l2, b.l1); ProductBound(a.l2, b.l2); ProductBound(a.l2, b.l3); ProductBound(a.l2, b.l4);
    ProductBound(a.l3, b.l0); ProductBound(a.l3, b.l1); ProductBound(a.l3, b.l2); ProductBound(a.l3, b.l3); ProductBound(a.l3, b.l4);
    ProductBound(a.l4, b.l0); ProductBound(a.l4, b.l1); ProductBound(a.l4, b.l2); ProductBound(a.l4, b.l3); ProductBound(a.l4, b.l4);
  }

  /** One pass over the 128-bit columns; `c` is the carry out of the top limb. */
  method CarryPass(u: (int, int, int, int, int))
    returns (r0: u64, r1: u64, r2: u64, r3: u64, r4: u64, c: u64)
    requires ColumnsFit(u)
    ensures r0 < R1 && r1 < R1 && r2 < R1 && r3 < R1 && r4 < R1 && c < 6 * 0x200000000000000
    ensures Cong(Eval(r0 + c * 19, r1, r2, r3, r4), EvalColumns(u))
  {
    hide Cong;
    var t0: u128, t1: u128, t2: u128, t3: u128, t4: u128 := u.0, u.1, u.2, u.3, u.4;
    r0 := t0 % R1; c := t0 / R1; ghost var c0 := c;
    t1 := t1 + c; r1 := t1 % R1; c := t1 / R1; ghost var c1 := c;
    t2 := t2 + c; r2 := t2 % R1; c := t2 / R1; ghost var c2 := c;
    t3 := t3 + c; r3 := t3 % R1; c := t3 / R1; ghost var c3 := c;
    t4 := t4 + c; r4 := t4 % R1; c := t4 / R1;
    CarryKeepsValue(u.0, u.1, u.2, u.3, u.4, r0, r1, r2, r3, r4, c0, c1, c2, c3, c);
  }

  /** Lines 158-164 and 271-277: a pass over the columns, the top carry times 19 into
      limb 0, and one more carry from limb 0 to limb 1. */
  method CarryWide(u: (int, int, int, int, int)) returns (out: Fe)
    requires ColumnsFit(u)
    ensures Tight(out) && Cong(Val(out), EvalColumns(u))
  {
    hide Cong;
    var r0: u64, r1: u64, r2: u64, r3: u64, r4: u64, c: u64 := CarryPass(u);
    r0 := r0 + c * 19;
    c := r0 / R1; r0 := r0 % R1;
    r1 := r1 + c;
    out := Fe(r0, r1, r2, r3, r4);
  }

  /** curve25519_mul, for inputs whose limbs are below 2^54. */
  method Mul(in2: Fe, in1: Fe) returns (out: Fe)
    requires Loose(in1) && Loose(in2)
    ensures Tight(out) && IsProduct(out, in2, in1)
  {
    hide Cong, Eval, Prod;
    ColumnsBound(in1, in2);
    ScaledBy19(in1, in2);
    var r0: u64, r1: u64, r2: u64, r3: u64, r4: u64 := in1.l0, in1.l1, in1.l2, in1.l3, in1.l4;
    var s0: u64, s1: u64, s2: u64, s3: u64, s4: u64 := in2.l0, in2.l1, in2.l2, in2.l3, in2.l4;
    var t0: u128 := Prod(r0, s0);
    var t1: u128 := Prod(r0, s1) + Prod(r1, s0);
    var t2: u128 := Prod(r0, s2) + Prod(r2, s0) + Prod(r1, s1);
    var t3: u128 := Prod(r0, s3) + Prod(r3, s0) + Prod(r1, s2) + Prod(r2, s1);
    var t4: u128 := Prod(r0, s4) + Prod(r4, s0) + Prod(r3, s1) + Prod(r1, s3) + Prod(r2, s2);
    r1 := 19 * r1;
    r2 := 19 * r2;
    r3 := 19 * r3;
    r4 := 19 * r4;
    t0 := t0 + (Prod(r4, s1) + Prod(r1, s4) + Prod(r2, s3) + Prod(r3, s2));
    t1 := t1 + (Prod(r4, s2) + Prod(r2, s4) + Prod(r3, s3));
    t2 := t2 + (Prod(r4, s3) + Prod(r3, s4));
    t3 := t3 + Prod(r4, s4);
    ghost var u := Columns(in1, in2);
    assert (t0, t1, t2, t3, t4) == u;
    out := CarryWide((t0, t1, t2, t3, t4));
    ColumnsAreProduct(in1, in2);
    CongSym(Val(in1) * Val(in2), EvalColumns(u));
    CongTrans(Val(out), EvalColumns(u), Val(in2) * Val(in1));
  }

  lemma ScaledBy19(a: Fe, b: Fe)
    requires Loose(a)
    ensures Prod(19 * a.l1, b.l4) == 19 * Prod(a.l1, b.l4)
    ensures Prod(19 * a.l2, b.l3) == 19 * Prod(a.l2, b.l3) && Prod(19 * a.l2, b.l4) == 19 * Prod(a.l2, b.l4)
    ensures Prod(19 * a.l3, b.l2) == 19 * Prod(a.l3, b.l2) && Prod(19 * a.l3, b.l3) == 19 * Prod(a.l3, b.l3)
    ensures Prod(19 * a.l3, b.l4) == 19 * Prod(a.l3, b.l4)
    ensures Prod(19 * a.l4, b.l1) == 19 * Prod(a.l4, b.l1) && Prod(19 * a.l4, b.l2) == 19 * Prod(a.l4, b.l2)
    ensures Prod(19 * a.l4, b.l3) == 19 * Prod(a.l4, b.l3) && Prod(19 * a.l4, b.l4) == 19 * Prod(a.l4, b.l4)
  {
    hide Prod;
    ProdScale(19, a.l1, b.l4);
    ProdScale(19, a.l2, b.l3); ProdScale(19, a.l2, b.l4);
    ProdScale(19, a.l3, b.l2); ProdScale(19, a.l3, b.l3); ProdScale(19, a.l3, b.l4);
    ProdScale(19, a.l4, b.l1); ProdScale(19, a.l4, b.l2); ProdScale(19, a.l4, b.l3); ProdScale(19, a.l4, b.l4);
  }

  lemma ProdScaleSwapped(k: nat, x: u64, y: u64)
    requires k * x < W64
    ensures Prod(k * x, y) == k * Prod(x, y) && Prod(y, k * x) == k * Prod(x, y) && Prod(y, x) == Prod(x, y)
  {
    ProdScale(k, x, y);
  }

  /** The columns of a square, from doubled and times-19 limbs (lines 195-206, 251-262). */
  method SquareColumns(a: Fe) returns (t: (int, int, int, int, int))
    requires Loose(a)
    ensures t == Columns(a, a) && ColumnsFit(t)
  {
    hide Prod;
    ColumnsBound(a, a);
    var r0, r1, r2, r3, r4 := a.l0, a.l1, a.l2, a.l3, a.l4;
    var d0: u64 := 2 * r0;
    var d1: u64 := 2 * r1;
    var d2: u64 := 38 * r2;
    var d419: u64 := 19 * r4;
    var d4: u64 := 38 * r4;
    ProdScaleSwapped(38, r4, r1); ProdScaleSwapped(38, r2, r3);
    ProdScaleSwapped(2, r0, r1); ProdScaleSwapped(38, r4, r2); ProdScaleSwapped(19, r3, r3);
    ProdScaleSwapped(2, r0, r2); ProdScaleSwapped(38, r4, r3);
    ProdScaleSwapped(2, r0, r3); ProdScaleSwapped(2, r1, r2); ProdScaleSwapped(19, r4, r4);
    ProdScaleSwapped(2, r0, r4); ProdScaleSwapped(2, r1, r3);
    var t0: u128 := Prod(r0, r0) + Prod(d4, r1) + Prod(d2, r3);
    var t1: u128 := Prod(d0, r1) + Prod(d4, r2) + Prod(r3, 19 * r3);
    var t2: u128 := Prod(d0, r2) + Prod(r1, r1) + Prod(d4, r3);
    var t3: u128 := Prod(d0, r3) + Prod(d1, r2) + Prod(r4, d419);
    var t4: u128 := Prod(d0, r4) + Prod(d1, r3) + Prod(r2, r2);
    t := (t0, t1, t2, t3, t4);
  }

  /** curve25519_square */
  method Square(a: Fe) returns (out: Fe)
    requires Loose(a)
    ensures Tight(out) && IsProduct(out, a, a)
  {
    hide Cong;
    var t := SquareColumns(a);
    out := CarryWide(t);
    ColumnsAreProduct(a, a);
    CongSym(Val(a) * Val(a), EvalColumns(t));
    CongTrans(Val(out), EvalColumns(t), Val(a) * Val(a));
  }

  /** shl128(c, t, 13): the high word of t shifted left by 13. */
  function HighAfterShl13(t: u128): (c: u64) {
    (t * 0x2000) % W128 / W64
  }

  lemma HighAfterShl13IsCarry(t: u128)
    requires t < 0x8000000000000 * W64
    ensures HighAfterShl13(t) == t / R1
  {
    var q, r := t / R1, t % R1;
    DivModUnique(t * 0x2000, W64, q, r * 0x2000);
  }

  /** Splitting every column at bit 51 and handing the high part to the next. */
  lemma SplitKeepsValue(t0: int, t1: int, t2: int, t3: int, t4: int,
                        c0: int, c1: int, c2: int, c3: int, c4: int)
    ensures Cong(Eval(t0 - c0 * R1 + c4 * 19, t1 - c1 * R1 + c0, t2 - c2 * R1 + c1,
                      t3 - c3 * R1 + c2, t4 - c4 * R1 + c3),
                 Eval(t0, t1, t2, t3, t4))
  {
    CongOfMultiple(Eval(t0 - c0 * R1 + c4 * 19, t1 - c1 * R1 + c0, t2 - c2 * R1 + c1,
                        t3 - c3 * R1 + c2, t4 - c4 * R1 + c3),
                   Eval(t0, t1, t2, t3, t4), -c4);
  }

  /** One iteration of the loop of curve25519_square_times (lines 195-226). */
  method SquarePass(a: Fe) returns (out: Fe)
    requires Loose(a)
    ensures Tight(out) && IsProduct(out, a, a)
  {
    hide Cong;
    var t := SquareColumns(a);
    var r0: u64, r1: u64, r2: u64, r3: u64, r4: u64 := SplitColumns(t);
    out := CarryColumns(r0, r1, r2, r3, r4);
    ColumnsAreProduct(a, a);
    CongSym(Val(a) * Val(a), EvalColumns(t));
    CongTrans(Val(out), Eval(r0, r1, r2, r3, r4), EvalColumns(t));
    CongTrans(Val(out), EvalColumns(t), Val(a) * Val(a));
  }

  /** Lines 215-220: every column is cut at bit 51 before any carry moves. */
  method SplitColumns(t: (int, int, int, int, int)) returns (r0: u64, r1: u64, r2: u64, r3: u64, r4: u64)
    requires ColumnsFit(t)
    ensures r0 < WIDE && r1 < WIDE && r2 < WIDE && r3 < WIDE && r4 < 0x8000000000000000
    ensures Cong(Eval(r0, r1, r2, r3, r4), EvalColumns(t))
  {
    hide Cong;
    HighAfterShl13IsCarry(t.0); HighAfterShl13IsCarry(t.1); HighAfterShl13IsCarry(t.2);
    HighAfterShl13IsCarry(t.3); HighAfterShl13IsCarry(t.4);
    hide HighAfterShl13;
    var c: u64;
    r0 := t.0 % R1;
    r1 := t.1 % R1; c := HighAfterShl13(t.0); r1 := r1 + c; ghost var c0 := c;
    r2 := t.2 % R1; c := HighAfterShl13(t.1); r2 := r2 + c; ghost var c1 := c;
    r3 := t.3 % R1; c := HighAfterShl13(t.2); r3 := r3 + c; ghost var c2 := c;
    r4 := t.4 % R1; c := HighAfterShl13(t.3); r4 := r4 + c; ghost var c3 := c;
    c := HighAfterShl13(t.4); r0 := r0 + c * 19;
    SplitKeepsValue(t.0, t.1, t.2, t.3, t.4, c0, c1, c2, c3, c);
  }

  /** curve25519_square_times: `count` squarings, the power 2^count (the comment in the
      source says 2 * count). */
  method SquareTimes(a: Fe, count: u64) returns (out: Fe)
    requires Loose(a) && count >= 1
    ensures Tight(out) && Cong(Val(out), Pow(Val(a), Pow2(count)))
  {
    hide Cong;
    out := SquarePass(a);
    PowOne(Val(a));
    SquareIsPow2(Val(out), Val(a), Val(a), 0);
    var left: u64 := count - 1;
    while left != 0
      invariant left < count && Tight(out)
      invariant Cong(Val(out), Pow(Val(a), Pow2(count - left)))
    {
      ghost var before := Val(out);
      out := SquarePass(out);
      SquareIsPow2(Val(out), before, Val(a), count - left);
      left := left - 1;
    }
  }

  lemma PowOne(x: int)
    ensures Pow2(0) == 1 && Cong(x, Pow(x, Pow2(0)))
  {
    assert Pow(x, 1) == x * Pow(x, 0);
  }

  lemma SquareIsPow2(next: int, x: int, base: int, k: nat)
    requires Cong(next, x * x) && Cong(x, Pow(base, Pow2(k)))
    ensures Cong(next, Pow(base, Pow2(k + 1)))
  {
    hide Cong;
    var y := Pow(base, Pow2(k));
    CongMul(x, y, x, y);
    PowAdd(base, Pow2(k), Pow2(k));
    CongTrans(next, x * x, Pow(base, Pow2(k + 1)));
  }
}
