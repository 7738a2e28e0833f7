/** The curve -x^2 + y^2 = 1 + d x^2 y^2 and its group, as hypotheses about integers mod p. */
module Edwards {
  import opened Modular
  import opened Powers
  import opened AbelianGroups

  const D: int := 0x52036cee2b6ffe738cc740797779e89800700a4d4141d8ab75eb4dca135978a3

  datatype Affine = Affine(x: int, y: int)

  /** Canonical coordinates that satisfy the curve equation. */
  ghost predicate OnCurve(q: Affine) {
    0 <= q.x < P && 0 <= q.y < P && Cong(q.y * q.y - q.x * q.x, 1 + Slope(q, q))
  }

  /** A mark that a proof sets on a point whose equation it wants to use. */
  ghost predicate Opened(q: Affine, mark: int) {
    true
  }

  /** OnCurve behind the mark, so that products of coordinates stay out of proofs that do not
      need them. */
  ghost predicate IsPoint(q: Affine) {
    forall mark :: Opened(q, mark) ==> OnCurve(q)
  }

  lemma PointRange(q: Affine)
    requires IsPoint(q)
    ensures 0 <= q.x < P && 0 <= q.y < P
  {
    hide Cong, Slope;
    assert Opened(q, 0);
  }

  lemma PointEquation(q: Affine)
    requires IsPoint(q)
    ensures Cong(q.y * q.y - q.x * q.x, 1 + Slope(q, q))
  {
    hide Cong, Slope;
    assert Opened(q, 0);
  }

  type Point = q: Affine | IsPoint(q) ghost witness Affine(0, 1)

  /** d x1 y1 x2 y2, the term by which the denominators of the addition law differ from 1. */
  ghost function Slope(a: Affine, b: Affine): int {
    D * ((a.x * a.y) * (b.x * b.y))
  }

  /** The addition law without division; both denominators are units. */
  ghost predicate EdwardsSum(a: Affine, b: Affine, c: Affine) {
    && Cong(c.x * (1 + Slope(a, b)), a.x * b.y + b.x * a.y)
    && Cong(c.y * (1 - Slope(a, b)), a.y * b.y + a.x * b.x)
    && !Cong(1 + Slope(a, b), 0)
    && !Cong(1 - Slope(a, b), 0)
  }

  const NEUTRAL: Affine := Affine(0, 1)

  function Negated(q: Affine): Affine {
    Affine((-q.x) % P, q.y)
  }

  /** Fermat's little theorem for p: the only use made of the primality of p. */
  ghost predicate Fermat() {
    forall z: int :: !Cong(z, 0) ==> Cong(Pow(z, P - 1), 1)
  }

  /** `g` is the curve group: abelian, with the complete addition law. */
  ghost predicate EdwardsGroup(g: Group<Point>) {
    && Abelian(g)
    && g.zero == NEUTRAL
    && (forall q: Point :: g.neg(q) == Negated(q))
    && (forall a: Point, b: Point :: EdwardsSum(a, b, g.add(a, b)))
  }

  lemma SumLaw(g: Group<Point>, a: Point, b: Point)
    requires EdwardsGroup(g)
    ensures EdwardsSum(a, b, g.add(a, b))
  {
  }

  lemma NegLaw(g: Group<Point>, q: Point)
    requires EdwardsGroup(g)
    ensures g.neg(q) == Negated(q) && IsPoint(Negated(q))
  {
    var n := g.neg(q);
  }

  lemma InverseOf(z: int)
    requires Fermat() && !Cong(z, 0)
    ensures Cong(z * Pow(z, P - 2), 1)
  {
  }

  /** A unit can be cancelled. */
  lemma CancelUnit(z: int, a: int, b: int)
    requires Fermat() && !Cong(z, 0) && Cong(a * z, b * z)
    ensures Cong(a, b)
  {
    var w := Pow(z, P - 2);
    InverseOf(z);
    hide *;
    CongRefl(a); CongRefl(b); CongRefl(w);
    CongMul(a * z, b * z, w, w);
    CongMul(a, a, z * w, 1);
    CongMul(b, b, z * w, 1);
    assert a * z * w == a * (z * w) && b * z * w == b * (z * w);
    CongSym(a * (z * w), a * 1);
    CongTrans(a, a * z * w, b * z * w);
    CongTrans(a, b * z * w, b);
  }

  lemma UnitProduct(x: int, y: int)
    requires Fermat() && !Cong(x, 0) && !Cong(y, 0)
    ensures !Cong(x * y, 0)
  {
    hide Cong, Fermat;
    if Cong(x * y, 0) {
      assert y * x == x * y && 0 * x == 0;
      CancelUnit(x, y, 0);
    }
  }

  lemma UnitCong(x: int, y: int)
    requires Cong(x, y)
    ensures Cong(x, 0) <==> Cong(y, 0)
  {
    hide Cong;
    CongSym(x, y);
    if Cong(x, 0) {
      CongTrans(y, x, 0);
    }
    if Cong(y, 0) {
      CongTrans(x, y, 0);
    }
  }

  lemma TwoIsUnit()
    ensures !Cong(2, 0)
  {
    NotZero(2);
  }
}
