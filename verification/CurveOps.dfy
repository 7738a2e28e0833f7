/** Point addition and doubling on limbs (src/ed25519-donna/ed25519-donna-impl-base.h, 1-172). */
module CurveOps {
  import opened Modular
  import opened Field
  import opened AbelianGroups
  import opened Edwards

  /** ge25519: extended coordinates x = X/Z, y = Y/Z, xy = T/Z. */
  datatype Ge = Ge(x: Fe, y: Fe, z: Fe, t: Fe)
  /** ge25519_p1p1: x = X/Z, y = Y/T. */
  datatype GeP1P1 = GeP1P1(x: Fe, y: Fe, z: Fe, t: Fe)
  /** ge25519_niels: y - x, y + x and 2dxy of an affine point. */
  datatype GeNiels = GeNiels(ysubx: Fe, xaddy: Fe, t2d: Fe)
  /** ge25519_pniels: the same scaled by Z. */
  datatype GePniels = GePniels(ysubx: Fe, xaddy: Fe, z: Fe, t2d: Fe)

  const EC_D: Fe := Fe(0x34dca135978a3, 0x1a8283b156ebd, 0x5e7a26001c029, 0x739c663a03cbb, 0x52036cee2b6ff)
  const EC_2D: Fe := Fe(0x69b9426b2f159, 0x35050762add7a, 0x3cf44c0038052, 0x6738cc7407977, 0x2406d9dc56dff)

  lemma ConstantsTight()
    ensures Tight(EC_D) && Tight(EC_2D) && Tight(ZERO) && Tight(ONE) && Tight(TWO)
  {
  }

  ghost predicate Projective(x: int, y: int, z: int, q: Affine) {
    Cong(x, q.x * z) && Cong(y, q.y * z) && !Cong(z, 0)
  }

  /** `r` stands for `q`; its t coordinate may be stale. */
  ghost predicate Partial(r: Ge, q: Affine) {
    Tight(r.x) && Tight(r.y) && Tight(r.z) && Projective(Val(r.x), Val(r.y), Val(r.z), q)
  }

  /** `r` stands for `q` in all four coordinates. */
  ghost predicate Full(r: Ge, q: Affine) {
    Partial(r, q) && Tight(r.t) && Cong(Val(r.t), (q.x * q.y) * Val(r.z))
  }

  ghost predicate Completed(r: GeP1P1, q: Affine) {
    && Loose(r.x) && Loose(r.y) && Loose(r.z) && Loose(r.t)
    && Cong(Val(r.x), q.x * Val(r.z)) && Cong(Val(r.y), q.y * Val(r.t))
    && !Cong(Val(r.z), 0) && !Cong(Val(r.t), 0)
  }

  ghost predicate NielsValues(ysubx: int, xaddy: int, z: int, t2d: int, q: Affine) {
    && Cong(ysubx, (q.y - q.x) * z) && Cong(xaddy, (q.y + q.x) * z)
    && Cong(t2d, (2 * D * (q.x * q.y)) * z) && !Cong(z, 0)
  }

  ghost predicate Niels(n: GeNiels, q: Affine) {
    && Loose(n.ysubx) && Loose(n.xaddy) && Tight(n.t2d)
    && NielsValues(Val(n.ysubx), Val(n.xaddy), 1, Val(n.t2d), q)
  }

  ghost predicate Pniels(n: GePniels, q: Affine) {
    && Loose(n.ysubx) && Loose(n.xaddy) && Tight(n.z) && Tight(n.t2d)
    && NielsValues(Val(n.ysubx), Val(n.xaddy), Val(n.z), Val(n.t2d), q)
  }

  // ---- the addition law in scaled coordinates ------------------------------------

  /** The four intermediate products of an addition, scaled by w = Z1 Z2. */
  ghost predicate AddProducts(a: int, b: int, c: int, d: int, w: int, p: Affine, q: Affine) {
    && Cong(a, ((p.y - p.x) * (q.y - q.x)) * w)
    && Cong(b, ((p.y + p.x) * (q.y + q.x)) * w)
    && Cong(c, (2 * Slope(p, q)) * w)
    && Cong(d, 2 * w)
    && !Cong(w, 0)
  }

  ghost predicate CompletedValues(e: int, h: int, gg: int, f: int, q: Affine) {
    Cong(e, q.x * gg) && Cong(h, q.y * f) && !Cong(gg, 0) && !Cong(f, 0)
  }

  /** Numerator and denominator of one coordinate: e = n w, g = m w and q m = n give e = q g. */
  lemma Quotient(e: int, g: int, n: int, m: int, w: int, q: int)
    requires Cong(e, n * w) && Cong(g, m * w) && Cong(q * m, n)
    ensures Cong(e, q * g)
  {
    hide Cong;
    CongRefl(q); CongRefl(w);
    CongMul(q, q, g, m * w);
    CongMul(q * m, n, w, w);
    assert q * (m * w) == (q * m) * w;
    CongTrans(q * g, (q * m) * w, n * w);
    CongSym(q * g, n * w);
    CongTrans(e, n * w, q * g);
  }

  lemma ScaledUnit(g: int, m: int, w: int)
    requires Fermat() && Cong(g, m * w) && !Cong(m, 0) && !Cong(w, 0)
    ensures !Cong(g, 0)
  {
    hide Fermat, Cong;
    UnitProduct(m, w);
    UnitCong(g, m * w);
  }

  /** Both quotients of the addition law, from numerators and denominators scaled by w. */
  lemma QuotientsOfSum(e: int, h: int, gg: int, f: int, w: int, p: Affine, q: Affine, r: Affine)
    requires Fermat() && EdwardsSum(p, q, r) && !Cong(w, 0)
    requires Cong(e, (p.x * q.y + q.x * p.y) * w) && Cong(h, (p.y * q.y + p.x * q.x) * w)
    requires Cong(gg, (1 + Slope(p, q)) * w) && Cong(f, (1 - Slope(p, q)) * w)
    ensures CompletedValues(e, h, gg, f, r)
  {
    hide Cong, Fermat, Slope;
    var k := Slope(p, q);
    Quotient(e, gg, p.x * q.y + q.x * p.y, 1 + k, w, r.x);
    Quotient(h, f, p.y * q.y + p.x * q.x, 1 - k, w, r.y);
    ScaledUnit(gg, 1 + k, w);
    ScaledUnit(f, 1 - k, w);
  }

  /** The unified addition: E = b - a, H = b + a, G = d + c, F = d - c. */
  lemma AdditionLaw(a: int, b: int, c: int, d: int, w: int, p: Affine, q: Affine, r: Affine)
    requires Fermat() && AddProducts(a, b, c, d, w, p, q) && EdwardsSum(p, q, r)
    ensures CompletedValues(b - a, b + a, d + c, d - c, r)
  {
    TwoIsUnit();
    hide Cong, Fermat, Slope, EdwardsSum;
    var k := Slope(p, q);
    CongSub(b, ((p.y + p.x) * (q.y + q.x)) * w, a, ((p.y - p.x) * (q.y - q.x)) * w);
    CongAdd(b, ((p.y + p.x) * (q.y + q.x)) * w, a, ((p.y - p.x) * (q.y - q.x)) * w);
    CrossTerms(p, q, w);
    CongAdd(d, 2 * w, c, (2 * k) * w);
    CongSub(d, 2 * w, c, (2 * k) * w);
    assert 2 * w + (2 * k) * w == (1 + k) * (2 * w) && 2 * w - (2 * k) * w == (1 - k) * (2 * w);
    UnitProduct(2, w);
    QuotientsOfSum(b - a, b + a, d + c, d - c, 2 * w, p, q, r);
  }

  lemma CrossTerms(p: Affine, q: Affine, w: int)
    ensures ((p.y + p.x) * (q.y + q.x)) * w - ((p.y - p.x) * (q.y - q.x)) * w == (p.x * q.y + q.x * p.y) * (2 * w)
    ensures ((p.y + p.x) * (q.y + q.x)) * w + ((p.y - p.x) * (q.y - q.x)) * w == (p.y * q.y + p.x * q.x) * (2 * w)
  {
    var s, t := (p.y + p.x) * (q.y + q.x), (p.y - p.x) * (q.y - q.x);
    assert s - t == 2 * (p.x * q.y + q.x * p.y);
    assert s + t == 2 * (p.y * q.y + p.x * q.x);
    assert s * w - t * w == (s - t) * w && s * w + t * w == (s + t) * w;
  }

  // ---- congruences of the limb computations --------------------------------------

  /** Sums and differences of scaled coordinates, whatever multiple of p is added. */
  lemma ScaledSumDiff(x: int, y: int, z: int, q: Affine, k: int)
    requires Projective(x, y, z, q)
    ensures Cong(y - x + k * P, (q.y - q.x) * z) && Cong(y + x, (q.y + q.x) * z)
  {
    CongSub(y, q.y * z, x, q.x * z);
    CongAdd(y, q.y * z, x, q.x * z);
    assert q.y * z - q.x * z == (q.y - q.x) * z && q.y * z + q.x * z == (q.y + q.x) * z;
    AddMultiple(y - x, (q.y - q.x) * z, k);
  }

  lemma AddMultiple(a: int, b: int, k: int)
    requires Cong(a, b)
    ensures Cong(a + k * P, b)
  {
    Show(a, b);
    CongOfMultiple(a + k * P, a, k);
    CongTrans(a + k * P, a, b);
  }

  lemma ScaledProduct(out: int, s: int, t: int, s1: int, z1: int, s2: int, z2: int)
    requires Cong(out, s * t) && Cong(s, s1 * z1) && Cong(t, s2 * z2)
    ensures Cong(out, (s1 * s2) * (z1 * z2))
  {
    hide Cong;
    CongProduct(out, s, t, s1 * z1, s2 * z2);
    Powers.Regroup(s1, z1, s2, z2);
  }

  lemma SlopeProduct(c: int, c1: int, t1: int, t2: int, z1: int, z2: int, p: Affine, q: Affine)
    requires Cong(t1, (p.x * p.y) * z1) && Cong(t2, (q.x * q.y) * z2)
    requires Cong(c1, t1 * t2) && Cong(c, c1 * Val(EC_2D))
    ensures Cong(c, (2 * Slope(p, q)) * (z1 * z2))
  {
    assert Cong(Val(EC_2D), 2 * D);
    hide Cong;
    ScaledProduct(c1, t1, t2, p.x * p.y, z1, q.x * q.y, z2);
    var m, w := (p.x * p.y) * (q.x * q.y), z1 * z2;
    CongProduct(c, c1, Val(EC_2D), m * w, 2 * D);
    assert (m * w) * (2 * D) == (2 * (D * m)) * w;
  }

  lemma CongQuotient(e: int, g: int, e': int, g': int, q: int)
    requires Cong(e, q * g) && Cong(e', e) && Cong(g', g)
    ensures Cong(e', q * g')
  {
    hide Cong;
    CongTrans(e', e, q * g);
    SameScale(e', q, g, g');
  }

  lemma CompletedTransfer(e: int, h: int, gg: int, f: int, e': int, h': int, gg': int, f': int, q: Affine)
    requires CompletedValues(e, h, gg, f, q)
    requires Cong(e', e) && Cong(h', h) && Cong(gg', gg) && Cong(f', f)
    ensures CompletedValues(e', h', gg', f', q)
  {
    hide Cong;
    CongQuotient(e, gg, e', gg', q.x);
    CongQuotient(h, f, h', f', q.y);
    UnitCong(gg', gg); UnitCong(f', f);
  }

  /** The products of ge25519_add_p1p1 (lines 36-45). */
  method AddFactors(p: Ge, q: Ge, ghost pp: Affine, ghost qq: Affine)
    returns (a: Fe, b: Fe, c: Fe, d: Fe, ghost w: int)
    requires Fermat() && Full(p, pp) && Full(q, qq)
    ensures Tight(a) && Tight(b) && Tight(c) && Medium(d)
    ensures AddProducts(Val(a), Val(b), Val(c), Val(d), w, pp, qq)
  {
    ConstantsTight();
    w := Val(p.z) * Val(q.z);
    hide Cong, Eval, Fermat, IsProduct, Projective, Add, Sub, Tight, Medium, Loose, AddProducts;
    a := Sub(p.y, p.x);
    b := Add(p.y, p.x);
    var t := Sub(q.y, q.x);
    var u := Add(q.y, q.x);
    ghost var a0, b0 := a, b;
    a := Mul(a, t);
    b := Mul(b, u);
    c := Mul(p.t, q.t);
    ghost var c0 := c;
    c := Mul(c, EC_2D);
    d := Mul(p.z, q.z);
    ghost var d0 := d;
    d := Add(d, d);
    AddProductsOf(p, q, pp, qq, a0, b0, t, u, a, b, c0, c, d0, d);
  }

  /** ge25519_add_p1p1 */
  method AddP1P1(p: Ge, q: Ge, ghost g: Group<Point>, ghost pp: Point, ghost qq: Point) returns (r: GeP1P1)
    requires EdwardsGroup(g) && Fermat() && Full(p, pp) && Full(q, qq)
    ensures Completed(r, g.add(pp, qq))
  {
    hide Cong, Eval, EdwardsGroup, Fermat, EdwardsSum, IsPoint, Full, Add, Sub, SubAfterBasic, Tight, Medium, Loose,
      AddProducts, Completed, CompletedValues, Val;
    ghost var rr := g.add(pp, qq);
    SumLaw(g, pp, qq);
    var a, b, c, d, w := AddFactors(p, q, pp, qq);
    AdditionLaw(Val(a), Val(b), Val(c), Val(d), w, pp, qq, rr);
    r := GeP1P1(Sub(b, a), Add(b, a), Add(d, c), SubAfterBasic(d, c));
    Finish(Val(b) - Val(a), Val(b) + Val(a), Val(d) + Val(c), Val(d) - Val(c), r, rr, 2, 0, 4);
  }

  lemma AddProductsOf(p: Ge, q: Ge, pp: Affine, qq: Affine, a0: Fe, b0: Fe, t: Fe, u: Fe,
                      a: Fe, b: Fe, c0: Fe, c: Fe, d0: Fe, d: Fe)
    requires Fermat() && Full(p, pp) && Full(q, qq)
    requires Val(a0) == Val(p.y) - Val(p.x) + 2 * P && Val(b0) == Val(p.y) + Val(p.x)
    requires Val(t) == Val(q.y) - Val(q.x) + 2 * P && Val(u) == Val(q.y) + Val(q.x)
    requires IsProduct(a, a0, t) && IsProduct(b, b0, u)
    requires IsProduct(c0, p.t, q.t) && IsProduct(c, c0, EC_2D)
    requires IsProduct(d0, p.z, q.z) && Val(d) == Val(d0) + Val(d0)
    ensures AddProducts(Val(a), Val(b), Val(c), Val(d), Val(p.z) * Val(q.z), pp, qq)
  {
    hide Cong, Eval, Slope, Fermat;
    ScaledSumDiff(Val(p.x), Val(p.y), Val(p.z), pp, 2);
    ScaledSumDiff(Val(q.x), Val(q.y), Val(q.z), qq, 2);
    ScaledProduct(Val(a), Val(a0), Val(t), pp.y - pp.x, Val(p.z), qq.y - qq.x, Val(q.z));
    ScaledProduct(Val(b), Val(b0), Val(u), pp.y + pp.x, Val(p.z), qq.y + qq.x, Val(q.z));
    SlopeProduct(Val(c), Val(c0), Val(p.t), Val(q.t), Val(p.z), Val(q.z), pp, qq);
    CongAdd(Val(d0), Val(p.z) * Val(q.z), Val(d0), Val(p.z) * Val(q.z));
    UnitProduct(Val(p.z), Val(q.z));
  }

  /** The multiples of p that the limbwise operations add change nothing. */
  lemma Finish(e: int, h: int, gg: int, f: int, r: GeP1P1, q: Affine, kx: int, kz: int, kt: int)
    requires CompletedValues(e, h, gg, f, q)
    requires Val(r.x) == e + P * kx && Val(r.y) == h && Val(r.z) == gg + P * kz && Val(r.t) == f + P * kt
    requires Loose(r.x) && Loose(r.y) && Loose(r.z) && Loose(r.t)
    ensures Completed(r, q)
  {
    CongOfMultiple(Val(r.x), e, kx);
    CongOfMultiple(Val(r.z), gg, kz);
    CongOfMultiple(Val(r.t), f, kt);
    CongRefl(Val(r.y));
    hide Cong, Eval;
    CompletedTransfer(e, h, gg, f, Val(r.x), Val(r.y), Val(r.z), Val(r.t), q);
  }

  /** ge25519_p1p1_to_partial; the old t coordinate stays behind. */
  method ToPartial(r0: Ge, p: GeP1P1, ghost q: Affine) returns (r: Ge)
    requires Fermat() && Completed(p, q)
    ensures Partial(r, q) && r.t == r0.t
  {
    hide Cong, Eval, Fermat, Projective, Tight, Medium, Loose;
    var x := Mul(p.x, p.t);
    var y := Mul(p.y, p.z);
    var z := Mul(p.z, p.t);
    Homogenize(Val(x), Val(y), Val(z), Val(p.x), Val(p.y), Val(p.z), Val(p.t), q);
    r := Ge(x, y, z, r0.t);
  }

  /** ge25519_p1p1_to_full */
  method ToFull(p: GeP1P1, ghost q: Affine) returns (r: Ge)
    requires Fermat() && Completed(p, q)
    ensures Full(r, q)
  {
    hide Cong, Eval, Fermat, Projective, Tight, Medium, Loose;
    var x := Mul(p.x, p.t);
    var y := Mul(p.y, p.z);
    var z := Mul(p.z, p.t);
    var t := Mul(p.x, p.y);
    Homogenize(Val(x), Val(y), Val(z), Val(p.x), Val(p.y), Val(p.z), Val(p.t), q);
    ScaledProduct(Val(t), Val(p.x), Val(p.y), q.x, Val(p.z), q.y, Val(p.t));
    SameScale(Val(t), q.x * q.y, Val(p.z) * Val(p.t), Val(z));
    r := Ge(x, y, z, t);
  }

  lemma SameScale(t: int, s: int, w: int, z: int)
    requires Cong(t, s * w) && Cong(z, w)
    ensures Cong(t, s * z)
  {
    hide Cong;
    CongSym(z, w);
    CongRefl(s);
    CongMul(s, s, w, z);
    CongTrans(t, s * w, s * z);
  }

  lemma Homogenize(x: int, y: int, z: int, cx: int, cy: int, cz: int, ct: int, q: Affine)
    requires Fermat() && CompletedValues(cx, cy, cz, ct, q)
    requires Cong(x, cx * ct) && Cong(y, cy * cz) && Cong(z, cz * ct)
    ensures Projective(x, y, z, q)
  {
    hide Cong, Fermat;
    CongRefl(ct); CongRefl(cz);
    CongProduct(x, cx, ct, q.x * cz, ct);
    CongProduct(y, cy, cz, q.y * ct, cz);
    assert (q.x * cz) * ct == q.x * (cz * ct) && (q.y * ct) * cz == q.y * (cz * ct);
    SameScale(x, q.x, cz * ct, z);
    SameScale(y, q.y, cz * ct, z);
    UnitProduct(cz, ct);
    UnitCong(z, cz * ct);
  }

  // ---- doubling -------------------------------------------------------------------

  /** The squares of ge25519_double_p1p1 (lines 57-62). */
  method DoubleFactors(p: Ge, ghost pp: Affine) returns (a: Fe, b: Fe, c: Fe, s: Fe, ghost w: int)
    requires Fermat() && Partial(p, pp)
    ensures Tight(a) && Tight(b) && Tight(c) && Tight(s)
    ensures DoubleProducts(Val(a), Val(b), Val(c), Val(s), w, pp) && !Cong(w, 0)
  {
    w := Val(p.z) * Val(p.z);
    UnitProduct(Val(p.z), Val(p.z));
    hide Cong, Eval, IsProduct, Projective, Add, Tight, Medium, Loose, DoubleProducts, Fermat;
    a := Square(p.x);
    b := Square(p.y);
    c := Square(p.z);
    ghost var c0 := c;
    c := AddReduce(c, c);
    s := Add(p.x, p.y);
    ghost var s0 := s;
    s := Square(s);
    DoubleProductsOf(p, pp, a, b, c0, c, s0, s);
  }

  ghost predicate DoubleProducts(a: int, b: int, c: int, s: int, w: int, q: Affine) {
    && Cong(a, (q.x * q.x) * w) && Cong(b, (q.y * q.y) * w) && Cong(c, 2 * w)
    && Cong(s, ((q.y + q.x) * (q.y + q.x)) * w)
  }

  lemma DoubleProductsOf(p: Ge, pp: Affine, a: Fe, b: Fe, c0: Fe, c: Fe, s0: Fe, s: Fe)
    requires Partial(p, pp)
    requires IsProduct(a, p.x, p.x) && IsProduct(b, p.y, p.y) && IsProduct(c0, p.z, p.z)
    requires Cong(Val(c), Val(c0) + Val(c0))
    requires Val(s0) == Val(p.x) + Val(p.y) && IsProduct(s, s0, s0)
    ensures DoubleProducts(Val(a), Val(b), Val(c), Val(s), Val(p.z) * Val(p.z), pp)
  {
    hide Cong, Eval;
    var z := Val(p.z);
    ScaledProduct(Val(a), Val(p.x), Val(p.x), pp.x, z, pp.x, z);
    ScaledProduct(Val(b), Val(p.y), Val(p.y), pp.y, z, pp.y, z);
    CongAdd(Val(c0), z * z, Val(c0), z * z);
    CongTrans(Val(c), Val(c0) + Val(c0), 2 * (z * z));
    ScaledSumDiff(Val(p.x), Val(p.y), z, pp, 0);
    ScaledProduct(Val(s), Val(s0), Val(s0), pp.y + pp.x, z, pp.y + pp.x, z);
  }

  /** On the curve, y^2 - x^2 is the denominator 1 + d x^2 y^2 of the doubled x. */
  lemma DoublingLaw(a: int, b: int, c: int, s: int, w: int, q: Affine, r: Affine)
    requires Fermat() && IsPoint(q) && EdwardsSum(q, q, r)
    requires DoubleProducts(a, b, c, s, w, q) && !Cong(w, 0)
    ensures CompletedValues(s - (b + a), b + a, b - a, c - (b - a), r)
  {
    hide Cong, Fermat, Slope, EdwardsSum, IsPoint;
    PointEquation(q);
    var k := Slope(q, q);
    var xx, yy := q.x * q.x, q.y * q.y;
    CongAdd(b, yy * w, a, xx * w);
    CongSub(b, yy * w, a, xx * w);
    assert yy * w + xx * w == (yy + xx) * w && yy * w - xx * w == (yy - xx) * w;
    CongSub(s, ((q.y + q.x) * (q.y + q.x)) * w, b + a, (yy + xx) * w);
    SquareOfSum(q, w);
    CongRefl(w);
    CongProduct(b - a, yy - xx, w, 1 + k, w);
    CongSub(c, 2 * w, b - a, (1 + k) * w);
    assert 2 * w - (1 + k) * w == (1 - k) * w;
    QuotientsOfSum(s - (b + a), b + a, b - a, c - (b - a), w, q, q, r);
  }

  lemma SquareOfSum(q: Affine, w: int)
    ensures ((q.y + q.x) * (q.y + q.x)) * w - (q.y * q.y + q.x * q.x) * w == (q.x * q.y + q.x * q.y) * w
  {
    var s, t := (q.y + q.x) * (q.y + q.x), q.y * q.y + q.x * q.x;
    assert s - t == q.x * q.y + q.x * q.y;
    assert s * w - t * w == (s - t) * w;
  }

  /** ge25519_double_p1p1: reads x, y and z only. */
  method DoubleP1P1(p: Ge, ghost g: Group<Point>, ghost pp: Point) returns (r: GeP1P1)
    requires EdwardsGroup(g) && Fermat() && Partial(p, pp)
    ensures Completed(r, g.add(pp, pp))
  {
    hide Cong, Eval, EdwardsGroup, Fermat, EdwardsSum, IsPoint, Add, Sub, SubAfterBasic, Tight, Medium, Loose,
      DoubleProducts, Completed, CompletedValues, Val, Partial;
    ghost var rr := g.add(pp, pp);
    SumLaw(g, pp, pp);
    var a, b, c, s, w := DoubleFactors(p, pp);
    DoublingLaw(Val(a), Val(b), Val(c), Val(s), w, pp, rr);
    var y, z := Add(b, a), Sub(b, a);
    r := GeP1P1(SubAfterBasic(s, y), y, z, SubAfterBasic(c, z));
    Finish(Val(s) - (Val(b) + Val(a)), Val(b) + Val(a), Val(b) - Val(a), Val(c) - (Val(b) - Val(a)), r, rr, 4, 2, 2);
  }

  /** ge25519_double_partial */
  method DoublePartial(p: Ge, ghost g: Group<Point>, ghost pp: Point) returns (r: Ge)
    requires EdwardsGroup(g) && Fermat() && Partial(p, pp)
    ensures Partial(r, g.add(pp, pp))
  {
    hide *;
    var t := DoubleP1P1(p, g, pp);
    r := ToPartial(p, t, g.add(pp, pp));
  }

  /** ge25519_double */
  method Double(p: Ge, ghost g: Group<Point>, ghost pp: Point) returns (r: Ge)
    requires EdwardsGroup(g) && Fermat() && Partial(p, pp)
    ensures Full(r, g.add(pp, pp))
  {
    hide *;
    var t := DoubleP1P1(p, g, pp);
    r := ToFull(t, g.add(pp, pp));
  }

  /** ge25519_add */
  method AddPoints(p: Ge, q: Ge, ghost g: Group<Point>, ghost pp: Point, ghost qq: Point) returns (r: Ge)
    requires EdwardsGroup(g) && Fermat() && Full(p, pp) && Full(q, qq)
    ensures Full(r, g.add(pp, qq))
  {
    hide *;
    var t := AddP1P1(p, q, g, pp, qq);
    r := ToFull(t, g.add(pp, qq));
  }

  // ---- the precomputed forms -------------------------------------------------------

  /** ge25519_full_to_pniels */
  method FullToPniels(r: Ge, ghost q: Affine) returns (n: GePniels)
    requires Full(r, q)
    ensures Pniels(n, q)
  {
    ConstantsTight();
    hide Cong, Eval, IsProduct, Add, Sub, Tight, Medium, Loose;
    var t2d := Mul(r.t, EC_2D);
    ScaledSumDiff(Val(r.x), Val(r.y), Val(r.z), q, 2);
    TimesTwoD(Val(t2d), Val(r.t), q.x * q.y, Val(r.z), t2d, r.t);
    n := GePniels(Sub(r.y, r.x), Add(r.y, r.x), r.z, t2d);
  }

  lemma TimesTwoD(out: int, t: int, m: int, z: int, outFe: Fe, tFe: Fe)
    requires IsProduct(outFe, tFe, EC_2D) && out == Val(outFe) && t == Val(tFe) && Cong(t, m * z)
    ensures Cong(out, (2 * D * m) * z)
  {
    assert Cong(Val(EC_2D), 2 * D);
    hide Cong, Eval;
    CongProduct(out, t, Val(EC_2D), m * z, 2 * D);
    assert (m * z) * (2 * D) == (2 * D * m) * z;
  }

  /** Swapping y - x with y + x and negating 2dxy gives the form of the negated point. */
  lemma NegatedNiels(ysubx: int, xaddy: int, z: int, t2d: int, q: Affine)
    requires NielsValues(ysubx, xaddy, z, t2d, q)
    ensures NielsValues(xaddy, ysubx, z, -t2d, Negated(q))
  {
    var x' := Negated(q).x;
    CongMod(-q.x);
    CongSym(-q.x, x');
    hide Cong;
    CongRefl(q.y); CongRefl(z); CongRefl(2 * D); CongRefl(0);
    NegatedCoordinate(xaddy, q.y + q.x, q.y, q.x, x', z);
    NegatedCoordinateSum(ysubx, q.y - q.x, q.y, q.x, x', z);
    CongMul(x', -q.x, q.y, q.y);
    CongMul(2 * D, 2 * D, x' * q.y, -q.x * q.y);
    CongMul(2 * D * (x' * q.y), 2 * D * (-q.x * q.y), z, z);
    CongSub(0, 0, t2d, (2 * D * (q.x * q.y)) * z);
    assert 0 - (2 * D * (q.x * q.y)) * z == (2 * D * (-q.x * q.y)) * z;
    CongSym((2 * D * (x' * q.y)) * z, (2 * D * (-q.x * q.y)) * z);
    CongTrans(-t2d, (2 * D * (-q.x * q.y)) * z, (2 * D * (x' * q.y)) * z);
  }

  lemma NegatedCoordinate(s: int, m: int, y: int, x: int, x': int, z: int)
    requires Cong(x', -x) && m == y + x && Cong(s, m * z)
    ensures Cong(s, (y - x') * z)
  {
    hide Cong;
    CongRefl(y); CongRefl(z);
    CongSub(y, y, x', -x);
    CongSym(y - x', m);
    CongMul(m, y - x', z, z);
    CongTrans(s, m * z, (y - x') * z);
  }

  lemma NegatedCoordinateSum(s: int, m: int, y: int, x: int, x': int, z: int)
    requires Cong(x', -x) && m == y - x && Cong(s, m * z)
    ensures Cong(s, (y + x') * z)
  {
    hide Cong;
    CongRefl(y); CongRefl(z);
    CongAdd(y, y, x', -x);
    CongSym(y + x', m);
    CongMul(m, y + x', z, z);
    CongTrans(s, m * z, (y + x') * z);
  }

  /** The three products every addition of a precomputed form starts with. */
  method NielsFactors(p: Ge, ysubx: Fe, xaddy: Fe, t2d: Fe, ghost z: int, ghost pp: Affine, ghost qq: Affine)
    returns (a: Fe, b: Fe, c: Fe)
    requires Full(p, pp) && Loose(ysubx) && Loose(xaddy) && Tight(t2d)
    requires Cong(Val(ysubx), (qq.y - qq.x) * z) && Cong(Val(xaddy), (qq.y + qq.x) * z)
    ensures Tight(a) && Tight(b) && Tight(c)
    ensures NielsProducts(Val(a), Val(b), Val(p.z) * z, pp, qq) && IsProduct(c, p.t, t2d)
  {
    hide Cong, Eval, IsProduct, Add, Sub, Tight, Medium, Loose, Projective;
    a := Sub(p.y, p.x);
    b := Add(p.y, p.x);
    ghost var a0, b0 := a, b;
    a := Mul(a, ysubx);
    b := Mul(b, xaddy);
    c := Mul(p.t, t2d);
    NielsProductsOf(p, pp, qq, ysubx, xaddy, z, a0, b0, a, b);
  }

  ghost predicate NielsProducts(a: int, b: int, w: int, p: Affine, q: Affine) {
    Cong(a, ((p.y - p.x) * (q.y - q.x)) * w) && Cong(b, ((p.y + p.x) * (q.y + q.x)) * w)
  }

  lemma NielsProductsOf(p: Ge, pp: Affine, qq: Affine, ysubx: Fe, xaddy: Fe, z: int, a0: Fe, b0: Fe, a: Fe, b: Fe)
    requires Full(p, pp)
    requires Cong(Val(ysubx), (qq.y - qq.x) * z) && Cong(Val(xaddy), (qq.y + qq.x) * z)
    requires Val(a0) == Val(p.y) - Val(p.x) + 2 * P && Val(b0) == Val(p.y) + Val(p.x)
    requires IsProduct(a, a0, ysubx) && IsProduct(b, b0, xaddy)
    ensures NielsProducts(Val(a), Val(b), Val(p.z) * z, pp, qq)
  {
    hide Cong, Eval;
    ScaledSumDiff(Val(p.x), Val(p.y), Val(p.z), pp, 2);
    ScaledProduct(Val(a), Val(a0), Val(ysubx), pp.y - pp.x, Val(p.z), qq.y - qq.x, z);
    ScaledProduct(Val(b), Val(b0), Val(xaddy), pp.y + pp.x, Val(p.z), qq.y + qq.x, z);
  }

  /** The products of an addition once 2dxy of the second point is known up to sign. */
  lemma NielsAddProducts(a: int, b: int, c: int, d: int, t: int, t2d: int, z1: int, z2: int, p: Affine, q: Affine)
    requires Fermat() && NielsProducts(a, b, z1 * z2, p, q)
    requires Cong(t, (p.x * p.y) * z1) && Cong(t2d, (2 * D * (q.x * q.y)) * z2) && Cong(c, t * t2d)
    requires Cong(d, 2 * (z1 * z2)) && !Cong(z1, 0) && !Cong(z2, 0)
    ensures AddProducts(a, b, c, d, z1 * z2, p, q)
  {
    hide Cong, Fermat;
    ScaledProduct(c, t, t2d, p.x * p.y, z1, 2 * D * (q.x * q.y), z2);
    assert (p.x * p.y) * (2 * D * (q.x * q.y)) == 2 * Slope(p, q);
    UnitProduct(z1, z2);
  }

  /** The products of an addition of a precomputed form, sign not yet applied. */
  method NielsAddFactors(p: Ge, ysubx: Fe, xaddy: Fe, t2d: Fe, d: Fe, ghost z: int, ghost pp: Affine, ghost qq: Affine)
    returns (a: Fe, b: Fe, c: Fe)
    requires Fermat() && Full(p, pp) && Loose(ysubx) && Loose(xaddy) && Tight(t2d)
    requires NielsValues(Val(ysubx), Val(xaddy), z, Val(t2d), qq) && Cong(Val(d), 2 * (Val(p.z) * z))
    ensures Tight(a) && Tight(b) && Tight(c)
    ensures AddProducts(Val(a), Val(b), Val(c), Val(d), Val(p.z) * z, pp, qq)
  {
    hide Cong, Eval, Fermat, Tight, Medium, Loose, NielsProducts, AddProducts;
    a, b, c := NielsFactors(p, ysubx, xaddy, t2d, z, pp, qq);
    NielsAddProducts(Val(a), Val(b), Val(c), Val(d), Val(p.t), Val(t2d), Val(p.z), z, pp, qq);
  }

  /** The same for a set sign bit: the factors are exchanged and c comes out negated. */
  method NielsSubFactors(p: Ge, ysubx: Fe, xaddy: Fe, t2d: Fe, d: Fe, ghost z: int, ghost pp: Affine, ghost qq: Affine)
    returns (a: Fe, b: Fe, c: Fe)
    requires Fermat() && Full(p, pp) && Loose(ysubx) && Loose(xaddy) && Tight(t2d)
    requires NielsValues(Val(ysubx), Val(xaddy), z, Val(t2d), qq) && Cong(Val(d), 2 * (Val(p.z) * z))
    ensures Tight(a) && Tight(b) && Tight(c)
    ensures AddProducts(Val(a), Val(b), -Val(c), Val(d), Val(p.z) * z, pp, Negated(qq))
  {
    hide Cong, Eval, Fermat, Tight, Medium, Loose, NielsProducts, AddProducts, Negated;
    NegatedNiels(Val(ysubx), Val(xaddy), z, Val(t2d), qq);
    a, b, c := NielsFactors(p, xaddy, ysubx, t2d, z, pp, Negated(qq));
    NegatedProduct(Val(c), Val(p.t), Val(t2d));
    NielsAddProducts(Val(a), Val(b), -Val(c), Val(d), Val(p.t), -Val(t2d), Val(p.z), z, pp, Negated(qq));
  }

  lemma NegatedProduct(c: int, s: int, t: int)
    requires Cong(c, s * t)
    ensures Cong(-c, s * -t)
  {
    CongRefl(0);
    CongSub(0, 0, c, s * t);
    assert s * -t == -(s * t);
  }

  method NielsAddBody(p: Ge, ysubx: Fe, xaddy: Fe, t2d: Fe, d: Fe, ghost z: int,
                      ghost g: Group<Point>, ghost pp: Point, ghost qq: Point) returns (r: GeP1P1)
    requires EdwardsGroup(g) && Fermat() && Full(p, pp)
    requires Loose(ysubx) && Loose(xaddy) && Tight(t2d) && Tight(d)
    requires NielsValues(Val(ysubx), Val(xaddy), z, Val(t2d), qq) && Cong(Val(d), 2 * (Val(p.z) * z))
    ensures Completed(r, g.add(pp, qq))
  {
    hide Cong, Eval, EdwardsGroup, Fermat, EdwardsSum, IsPoint, Add, SubAfterBasic, Sub, Tight, Medium, Loose,
      NielsProducts, AddProducts, Completed, CompletedValues, Val, IsProduct, Full, NielsValues;
    var a, b, c := NielsAddFactors(p, ysubx, xaddy, t2d, d, z, pp, qq);
    SumLaw(g, pp, qq);
    ghost var rr := g.add(pp, qq);
    AdditionLaw(Val(a), Val(b), Val(c), Val(d), Val(p.z) * z, pp, qq, rr);
    r := GeP1P1(Sub(b, a), Add(b, a), Add(d, c), Sub(d, c));
    Finish(Val(b) - Val(a), Val(b) + Val(a), Val(d) + Val(c), Val(d) - Val(c), r, rr, 2, 0, 2);
  }

  method NielsSubBody(p: Ge, ysubx: Fe, xaddy: Fe, t2d: Fe, d: Fe, ghost z: int,
                      ghost g: Group<Point>, ghost pp: Point, ghost qq: Point) returns (r: GeP1P1)
    requires EdwardsGroup(g) && Fermat() && Full(p, pp)
    requires Loose(ysubx) && Loose(xaddy) && Tight(t2d) && Tight(d)
    requires NielsValues(Val(ysubx), Val(xaddy), z, Val(t2d), qq) && Cong(Val(d), 2 * (Val(p.z) * z))
    ensures Completed(r, g.add(pp, g.neg(qq)))
  {
    hide Cong, Eval, EdwardsGroup, Fermat, EdwardsSum, IsPoint, Add, SubAfterBasic, Sub, Tight, Medium, Loose,
      NielsProducts, AddProducts, Completed, CompletedValues, Val, IsProduct, Full, NielsValues;
    var a, b, c := NielsSubFactors(p, ysubx, xaddy, t2d, d, z, pp, qq);
    NegLaw(g, qq);
    SumLaw(g, pp, g.neg(qq));
    ghost var rr := g.add(pp, g.neg(qq));
    AdditionLaw(Val(a), Val(b), -Val(c), Val(d), Val(p.z) * z, pp, g.neg(qq), rr);
    r := GeP1P1(Sub(b, a), Add(b, a), Sub(d, c), Add(d, c));
    Finish(Val(b) - Val(a), Val(b) + Val(a), Val(d) + -Val(c), Val(d) - -Val(c), r, rr, 2, 2, 0);
  }

  /** The common part of ge25519_nielsadd2_p1p1 and ge25519_pnielsadd_p1p1: `d` is the
      doubled product of the z coordinates; a set sign bit exchanges the roles of
      y - x and y + x and of the z and t results. */
  method NielsAddP1P1(p: Ge, ysubx: Fe, xaddy: Fe, t2d: Fe, d: Fe, negative: bool, ghost z: int,
                      ghost g: Group<Point>, ghost pp: Point, ghost qq: Point) returns (r: GeP1P1)
    requires EdwardsGroup(g) && Fermat() && Full(p, pp)
    requires Loose(ysubx) && Loose(xaddy) && Tight(t2d) && Tight(d)
    requires NielsValues(Val(ysubx), Val(xaddy), z, Val(t2d), qq) && Cong(Val(d), 2 * (Val(p.z) * z))
    ensures Completed(r, g.add(pp, if negative then g.neg(qq) else qq))
  {
    hide *;
    if negative {
      r := NielsSubBody(p, ysubx, xaddy, t2d, d, z, g, pp, qq);
    } else {
      r := NielsAddBody(p, ysubx, xaddy, t2d, d, z, g, pp, qq);
    }
  }

  /** ge25519_nielsadd2_p1p1 */
  method NielsAdd2P1P1(p: Ge, q: GeNiels, negative: bool, ghost g: Group<Point>, ghost pp: Point, ghost qq: Point)
    returns (r: GeP1P1)
    requires EdwardsGroup(g) && Fermat() && Full(p, pp) && Niels(q, qq)
    ensures Completed(r, g.add(pp, if negative then g.neg(qq) else qq))
  {
    hide Cong, Eval, EdwardsGroup, Fermat, EdwardsSum, IsPoint, Tight, Medium, Loose, Completed, NielsValues;
    var d := AddReduce(p.z, p.z);
    r := NielsAddP1P1(p, q.ysubx, q.xaddy, q.t2d, d, negative, 1, g, pp, qq);
  }

  /** ge25519_pnielsadd_p1p1 */
  method PnielsAddP1P1(p: Ge, q: GePniels, negative: bool, ghost g: Group<Point>, ghost pp: Point, ghost qq: Point)
    returns (r: GeP1P1)
    requires EdwardsGroup(g) && Fermat() && Full(p, pp) && Pniels(q, qq)
    ensures Completed(r, g.add(pp, if negative then g.neg(qq) else qq))
  {
    hide Cong, Eval, EdwardsGroup, Fermat, EdwardsSum, IsPoint, Tight, Medium, Loose, Completed, NielsValues;
    var d := Mul(p.z, q.z);
    ghost var d0 := d;
    d := AddReduce(d, d);
    DoubledProduct(d, d0, p.z, q.z);
    r := NielsAddP1P1(p, q.ysubx, q.xaddy, q.t2d, d, negative, Val(q.z), g, pp, qq);
  }

  lemma DoubledProduct(d: Fe, d0: Fe, y: Fe, z: Fe)
    requires IsProduct(d0, y, z) && Cong(Val(d), Val(d0) + Val(d0))
    ensures Cong(Val(d), 2 * (Val(y) * Val(z)))
  {
    hide Cong, Eval;
    CongAdd(Val(d0), Val(y) * Val(z), Val(d0), Val(y) * Val(z));
    CongTrans(Val(d), Val(d0) + Val(d0), 2 * (Val(y) * Val(z)));
  }

  /** The sum in completed form with the doubled product still uncarried, as
      ge25519_nielsadd2 and ge25519_pnielsadd form it. */
  method NielsAddWide(p: Ge, ysubx: Fe, xaddy: Fe, t2d: Fe, d: Fe, ghost z: int,
                      ghost g: Group<Point>, ghost pp: Point, ghost qq: Point) returns (r: GeP1P1)
    requires EdwardsGroup(g) && Fermat() && Full(p, pp)
    requires Loose(ysubx) && Loose(xaddy) && Tight(t2d) && Medium(d)
    requires NielsValues(Val(ysubx), Val(xaddy), z, Val(t2d), qq) && Cong(Val(d), 2 * (Val(p.z) * z))
    ensures Completed(r, g.add(pp, qq))
  {
    hide Cong, Eval, EdwardsGroup, Fermat, EdwardsSum, IsPoint, Add, SubAfterBasic, Sub, Tight, Medium, Loose,
      NielsProducts, AddProducts, Completed, CompletedValues, Val, IsProduct, Full, NielsValues;
    var a, b, c := NielsAddFactors(p, ysubx, xaddy, t2d, d, z, pp, qq);
    SumLaw(g, pp, qq);
    ghost var rr := g.add(pp, qq);
    AdditionLaw(Val(a), Val(b), Val(c), Val(d), Val(p.z) * z, pp, qq, rr);
    r := GeP1P1(Sub(b, a), Add(b, a), Add(d, c), SubAfterBasic(d, c));
    Finish(Val(b) - Val(a), Val(b) + Val(a), Val(d) + Val(c), Val(d) - Val(c), r, rr, 2, 0, 4);
  }

  /** ge25519_nielsadd2 */
  method NielsAdd2(r0: Ge, q: GeNiels, ghost g: Group<Point>, ghost pp: Point, ghost qq: Point) returns (r: Ge)
    requires EdwardsGroup(g) && Fermat() && Full(r0, pp) && Niels(q, qq)
    ensures Full(r, g.add(pp, qq))
  {
    CongRefl(Val(r0.z) + Val(r0.z));
    hide Cong, Eval, EdwardsGroup, Fermat, EdwardsSum, IsPoint, Add, Tight, Medium, Loose, Completed, NielsValues;
    var t := NielsAddWide(r0, q.ysubx, q.xaddy, q.t2d, Add(r0.z, r0.z), 1, g, pp, qq);
    r := ToFull(t, g.add(pp, qq));
  }

  /** ge25519_pnielsadd */
  method PnielsAdd(p: Ge, q: GePniels, ghost g: Group<Point>, ghost pp: Point, ghost qq: Point) returns (r: GePniels)
    requires EdwardsGroup(g) && Fermat() && Full(p, pp) && Pniels(q, qq)
    ensures Pniels(r, g.add(pp, qq))
  {
    hide Cong, Eval, EdwardsGroup, Fermat, EdwardsSum, IsPoint, Add, Tight, Medium, Loose, Completed, NielsValues;
    var d := Mul(p.z, q.z);
    ghost var d0 := d;
    d := Add(d, d);
    CongRefl(Val(d));
    DoubledProduct(d, d0, p.z, q.z);
    var t := NielsAddWide(p, q.ysubx, q.xaddy, q.t2d, d, Val(q.z), g, pp, qq);
    var sum := ToFull(t, g.add(pp, qq));
    r := FullToPniels(sum, g.add(pp, qq));
  }
}
