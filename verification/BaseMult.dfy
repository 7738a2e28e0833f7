/** [s]B from a table of multiples of the base point
    (src/ed25519-donna/ed25519-donna-impl-base.h, 298-363). */
module BaseMult {
  import opened Words
  import opened Modular
  import opened Powers
  import opened Bytes
  import opened Field
  import opened FieldBytes
  import opened AbelianGroups
  import opened Edwards
  import opened CurveOps
  import opened ModmLimbs
  import opened Digits
  import opened Recode
  import opened DoubleMult

  // ---- the packed table ---------------------------------------------------------------

  /** The factor of xy in the third field: 2 in the first eight entries, 2d elsewhere. */
  ghost function Factor(pos: nat): int {
    if pos == 0 then 2 else 2 * D
  }

  /** y - x, y + x and a multiple of xy, as values. */
  ghost predicate Scaled(ysubx: int, xaddy: int, txy: int, factor: int, q: Affine) {
    Cong(ysubx, q.y - q.x) && Cong(xaddy, q.y + q.x) && Cong(txy, factor * (q.x * q.y))
  }

  /** Ninety-six bytes hold the three fields of `q`. */
  ghost predicate Packed(e: seq<u8>, factor: int, q: Affine) {
    && |e| == 96
    && LeVal(e[0..32]) < TWO255 && LeVal(e[32..64]) < TWO255 && LeVal(e[64..96]) < TWO255
    && Scaled(LeVal(e[0..32]), LeVal(e[32..64]), LeVal(e[64..96]), factor, q)
  }

  /** ge25519_niels_base_multiples: entry 8 pos + j is [(j + 1) 256^pos]B. */
  ghost predicate BaseTable(table: seq<seq<u8>>, g: Group<Point>, base: Point) {
    && |table| == 256
    && (forall k :: 0 <= k < 256 ==> |table[k]| == 96)
    && (forall pos, j :: 0 <= pos < 32 && 0 <= j < 8 ==> TableEntry(table, pos, j, g, base))
  }

  ghost predicate TableEntry(table: seq<seq<u8>>, pos: int, j: int, g: Group<Point>, base: Point)
    requires |table| == 256 && 0 <= pos < 32 && 0 <= j < 8
  {
    Packed(table[8 * pos + j], Factor(pos), Times(g, (j + 1) * Pow(256, pos), base))
  }

  /** A niels form whose third field carries `factor` instead of 2d. */
  ghost predicate NielsScaled(n: GeNiels, factor: int, q: Affine) {
    && Loose(n.ysubx) && Loose(n.xaddy) && Tight(n.t2d)
    && Scaled(Val(n.ysubx), Val(n.xaddy), Val(n.t2d), factor, q)
  }

  const UNIT_ENTRY: seq<u8> := seq(96, i => if i == 0 || i == 32 then 1 else 0)

  /** The initial entry, ysubx = xaddy = 1 and t2d = 0, is the neutral point. */
  lemma UnitEntry(factor: int)
    ensures Packed(UNIT_ENTRY, factor, NEUTRAL)
  {
    var one, zero := UNIT_ENTRY[0..32], UNIT_ENTRY[64..96];
    assert UNIT_ENTRY[32..64] == one;
    ZerosValue(one[1..]);
    ZerosValue(zero);
    assert factor * (0 * 1) == 0;
  }

  /** Lines 306-317: |b| chooses the entry; |b| = 0 leaves the initial one. */
  method SelectEntry(table: seq<seq<u8>>, pos: nat, b: int, ghost g: Group<Point>, ghost base: Point)
    returns (packed: seq<u8>)
    requires EdwardsGroup(g) && BaseTable(table, g, base) && pos < 32 && -8 <= b <= 8
    ensures Packed(packed, Factor(pos), Times(g, (if b < 0 then -b else b) * Pow(256, pos), base))
  {
    hide EdwardsGroup, Packed, Times, Pow, Factor, UNIT_ENTRY, IsPoint;
    GroupZero(g);
    UnitEntry(Factor(pos));
    TimesZero(g, base);
    var u := if b < 0 then -b else b;
    packed := UNIT_ENTRY;
    for i := 0 to 8
      invariant u > i ==> packed == UNIT_ENTRY
      invariant u <= i ==> Packed(packed, Factor(pos), Times(g, u * Pow(256, pos), base))
    {
      if u == i + 1 {
        assert TableEntry(table, pos, i, g, base);
        packed := table[8 * pos + i];
      }
    }
  }

  lemma GroupZero(g: Group<Point>)
    requires EdwardsGroup(g)
    ensures g.zero == NEUTRAL
  {
  }

  lemma ExpandedField(b: seq<u8>, v: int, w: int)
    requires |b| == 32 && v == LeVal(b) % TWO255 && LeVal(b) < TWO255 && Cong(LeVal(b), w)
    ensures Cong(v, w)
  {
  }

  lemma BelowIsTight(a: Fe)
    requires Below(a, R1)
    ensures Tight(a)
  {
  }

  /** Lines 320-322 */
  method ExpandEntry(packed: seq<u8>, ghost factor: int, ghost q: Affine) returns (t: GeNiels)
    requires Packed(packed, factor, q)
    ensures NielsScaled(t, factor, q) && Tight(t.ysubx) && Tight(t.xaddy)
  {
    hide LeVal, Field.Eval, Tight, Medium, Loose, Cong, Below;
    var ysubx := Expand(packed[0..32]);
    var xaddy := Expand(packed[32..64]);
    var t2d := Expand(packed[64..96]);
    BelowIsTight(ysubx); BelowIsTight(xaddy); BelowIsTight(t2d);
    ExpandedField(packed[0..32], Val(ysubx), q.y - q.x);
    ExpandedField(packed[32..64], Val(xaddy), q.y + q.x);
    ExpandedField(packed[64..96], Val(t2d), factor * (q.x * q.y));
    t := GeNiels(ysubx, xaddy, t2d);
  }

  /** Swapping the first two fields and negating the third negates the point. */
  lemma NegatedScaled(ysubx: int, xaddy: int, txy: int, neg: int, factor: int, q: Affine)
    requires Scaled(ysubx, xaddy, txy, factor, q) && Cong(neg, -txy)
    ensures Scaled(xaddy, ysubx, neg, factor, Negated(q))
  {
    var x := Negated(q).x;
    CongMod(-q.x);
    CongSym(-q.x, x);
    NegatedTerms(ysubx, xaddy, q, x);
    CongRefl(q.y); CongRefl(factor);
    CongMul(x, -q.x, q.y, q.y);
    CongMul(factor, factor, x * q.y, -q.x * q.y);
    assert factor * (-q.x * q.y) == -(factor * (q.x * q.y));
    ChainNegated(neg, txy, factor * (q.x * q.y), factor * (x * q.y));
  }

  lemma NegatedTerms(ysubx: int, xaddy: int, q: Affine, x: int)
    requires Cong(ysubx, q.y - q.x) && Cong(xaddy, q.y + q.x) && Cong(x, -q.x)
    ensures Cong(xaddy, q.y - x) && Cong(ysubx, q.y + x)
  {
    hide Cong;
    CongSym(x, -q.x);
    CongRefl(q.y);
    CongSub(q.y, q.y, -q.x, x);
    CongTrans(xaddy, q.y + q.x, q.y - x);
    CongAdd(q.y, q.y, -q.x, x);
    CongTrans(ysubx, q.y - q.x, q.y + x);
  }

  lemma ChainNegated(neg: int, txy: int, m: int, n: int)
    requires Cong(neg, -txy) && Cong(txy, m) && Cong(n, -m)
    ensures Cong(neg, n)
  {
    hide Cong;
    CongRefl(0);
    CongSub(0, 0, txy, m);
    CongTrans(neg, -txy, -m);
    CongSym(n, -m);
    CongTrans(neg, -m, n);
  }

  /** ge25519_scalarmult_base_choose_niels: the form of [b 256^pos]B. */
  method ChooseNiels(table: seq<seq<u8>>, pos: nat, b: int, ghost g: Group<Point>, ghost base: Point)
    returns (t: GeNiels)
    requires EdwardsGroup(g) && BaseTable(table, g, base) && pos < 32 && -8 <= b <= 8
    ensures NielsScaled(t, Factor(pos), Times(g, b * Pow(256, pos), base)) && Tight(t.ysubx) && Tight(t.xaddy)
  {
    hide EdwardsGroup, BaseTable, Packed, Times, Pow, Factor, IsPoint, Tight, Medium, Loose, Field.Eval, Scaled, Negated,
      Abelian;
    var packed := SelectEntry(table, pos, b, g, base);
    ghost var k := if b < 0 then -b else b;
    ghost var q := Times(g, k * Pow(256, pos), base);
    t := ExpandEntry(packed, Factor(pos), q);
    var neg := Neg(t.t2d);
    if b < 0 {
      NegatedScaled(Val(t.ysubx), Val(t.xaddy), Val(t.t2d), Val(neg), Factor(pos), q);
      NegativeMultiple(g, b, Pow(256, pos), base);
      t := GeNiels(t.xaddy, t.ysubx, neg);
    }
  }

  lemma NegativeMultiple(g: Group<Point>, b: int, unit: int, base: Point)
    requires EdwardsGroup(g)
    ensures Times(g, b * unit, base) == Negated(Times(g, -b * unit, base))
  {
    hide EdwardsGroup, Times, IsPoint, Abelian, Negated;
    GroupAbelian(g);
    assert -(-b * unit) == b * unit;
    TimesNeg(g, -b * unit, base);
    NegLaw(g, Times(g, -b * unit, base));
  }

  // ---- every other digit ----------------------------------------------------------------

  /** Digits first, first + 2, first + 4, ... */
  ghost function Every2(d: seq<int>, first: nat): (e: seq<int>)
    requires first <= 1
    ensures |e| == (|d| + 1 - first) / 2
    ensures forall j :: 0 <= j < |e| ==> e[j] == d[2 * j + first]
  {
    seq((|d| + 1 - first) / 2, j requires 0 <= j < (|d| + 1 - first) / 2 => d[2 * j + first])
  }

  /** Radix 16 is radix 256 on the even places plus 16 times radix 256 on the odd ones. */
  lemma {:induction false} EvenOdd(d: seq<int>)
    requires |d| % 2 == 0
    ensures DigitVal(d, 16) == DigitVal(Every2(d, 0), 256) + 16 * DigitVal(Every2(d, 1), 256)
    decreases |d|
  {
    if d != [] {
      EvenOdd(d[2..]);
      assert d[1..][1..] == d[2..];
      assert Every2(d, 0)[1..] == Every2(d[2..], 0);
      assert Every2(d, 1)[1..] == Every2(d[2..], 1);
    }
  }

  /** The value of the first k digits in radix 256. */
  ghost function Prefix256(e: seq<int>, k: nat): int
    requires k <= |e|
  {
    DigitVal(e[..k], 256)
  }

  lemma PrefixStep(e: seq<int>, k: nat)
    requires k < |e|
    ensures Prefix256(e, k + 1) == Prefix256(e, k) + e[k] * Pow(256, k)
  {
    assert e[..k + 1] == e[..k] + [e[k]];
    DigitValConcat(e[..k], [e[k]], 256);
    DigitValHead(e[k], [], 256);
    assert [e[k]] + [] == [e[k]];
  }

  lemma PrefixEnds(e: seq<int>)
    ensures Prefix256(e, 0) == 0 && Prefix256(e, |e|) == DigitVal(e, 256)
  {
    assert e[..0] == [] && e[..|e|] == e;
  }

  // ---- assembling the multiple ------------------------------------------------------------

  lemma ScaledIsNiels(n: GeNiels, q: Affine)
    requires NielsScaled(n, 2 * D, q)
    ensures Niels(n, q)
  {
    assert (q.y - q.x) * 1 == q.y - q.x && (q.y + q.x) * 1 == q.y + q.x;
    assert (2 * D * (q.x * q.y)) * 1 == 2 * D * (q.x * q.y);
    NotZero(1);
  }

  /** Adds the entry for one digit at a place above the first. */
  method AddEntry(r0: Ge, table: seq<seq<u8>>, pos: nat, b: int, ghost n: int, ghost g: Group<Point>, ghost base: Point)
    returns (r: Ge)
    requires EdwardsGroup(g) && Fermat() && BaseTable(table, g, base) && 1 <= pos < 32 && -8 <= b <= 8
    requires Full(r0, Times(g, n, base))
    ensures Full(r, Times(g, n + b * Pow(256, pos), base))
  {
    hide EdwardsGroup, Fermat, BaseTable, Times, Pow, IsPoint, Full, Niels, NielsScaled, Abelian;
    var t := ChooseNiels(table, pos, b, g, base);
    ghost var m := b * Pow(256, pos);
    ScaledIsNiels(t, Times(g, m, base));
    r := NielsAdd2(r0, t, g, Times(g, n, base), Times(g, m, base));
    GroupAbelian(g);
    TimesAdd(g, n, m, base);
  }

  /** Lines 356-358: the lowest digit, whose entry still needs its factor d. */
  method AddLowest(r0: Ge, table: seq<seq<u8>>, b: int, ghost n: int, ghost g: Group<Point>, ghost base: Point)
    returns (r: Ge)
    requires EdwardsGroup(g) && Fermat() && BaseTable(table, g, base) && -8 <= b <= 8
    requires Full(r0, Times(g, n, base))
    ensures Full(r, Times(g, n + b, base))
  {
    hide EdwardsGroup, Fermat, BaseTable, Times, Pow, IsPoint, Full, Niels, Abelian, Scaled, Tight, Medium, Loose,
      IsProduct;
    PowZero();
    ConstantsTight();
    var t := ChooseNiels(table, 0, b, g, base);
    ghost var q := Times(g, b, base);
    var t2d := Mul(t.t2d, EC_D);
    TimesD(t, t2d, q);
    t := GeNiels(t.ysubx, t.xaddy, t2d);
    ScaledIsNiels(t, q);
    r := NielsAdd2(r0, t, g, Times(g, n, base), q);
    GroupAbelian(g);
    TimesAdd(g, n, b, base);
  }

  lemma PowZero()
    ensures Pow(256, 0) == 1
  {
  }

  lemma TimesD(t: GeNiels, t2d: Fe, q: Affine)
    requires NielsScaled(t, 2, q) && IsProduct(t2d, t.t2d, EC_D) && Tight(t2d)
    ensures NielsScaled(GeNiels(t.ysubx, t.xaddy, t2d), 2 * D, q)
  {
    hide Cong, Tight, Loose, Medium;
    ValueOfD();
    CongRefl(D);
    CongProduct(Val(t2d), Val(t.t2d), Val(EC_D), 2 * (q.x * q.y), D);
    assert (2 * (q.x * q.y)) * D == 2 * D * (q.x * q.y);
  }

  lemma ValueOfD()
    ensures Val(EC_D) == D
  {
  }

  /** Lines 342-347: the first point, written down from its table entry with z = 2. */
  method StartPoint(table: seq<seq<u8>>, b: int, ghost g: Group<Point>, ghost base: Point) returns (r: Ge)
    requires EdwardsGroup(g) && Fermat() && BaseTable(table, g, base) && -8 <= b <= 8
    ensures Full(r, Times(g, b, base))
  {
    hide EdwardsGroup, Fermat, BaseTable, Times, Pow, IsPoint, Tight, Medium, Loose, Full, Scaled;
    PowZero();
    var t := ChooseNiels(table, 0, b, g, base);
    var x := SubReduce(t.xaddy, t.ysubx);
    var y := AddReduce(t.xaddy, t.ysubx);
    r := Ge(x, y, TWO, t.t2d);
    StartIsFull(t, r, Times(g, b, base));
  }

  lemma StartIsFull(t: GeNiels, r: Ge, q: Affine)
    requires NielsScaled(t, 2, q) && Tight(r.x) && Tight(r.y) && r.z == TWO && r.t == t.t2d
    requires Cong(Val(r.x), Val(t.xaddy) - Val(t.ysubx)) && Cong(Val(r.y), Val(t.xaddy) + Val(t.ysubx))
    ensures Full(r, q)
  {
    hide Tight;
    TwoValue();
    HalfSums(Val(r.x), Val(r.y), Val(t.ysubx), Val(t.xaddy), q);
  }

  lemma TwoValue()
    ensures Val(TWO) == 2 && Tight(TWO) && !Cong(2, 0)
  {
    TwoIsUnit();
  }

  lemma HalfSums(x: int, y: int, ysubx: int, xaddy: int, q: Affine)
    requires Cong(ysubx, q.y - q.x) && Cong(xaddy, q.y + q.x)
    requires Cong(x, xaddy - ysubx) && Cong(y, xaddy + ysubx)
    ensures Cong(x, q.x * 2) && Cong(y, q.y * 2)
  {
    hide Cong;
    CongSub(xaddy, q.y + q.x, ysubx, q.y - q.x);
    CongTrans(x, xaddy - ysubx, q.x * 2);
    CongAdd(xaddy, q.y + q.x, ysubx, q.y - q.x);
    CongTrans(y, xaddy + ysubx, q.y * 2);
  }

  /** Lines 352-355: four doublings; only the last restores t. */
  method TimesSixteen(r0: Ge, ghost n: int, ghost g: Group<Point>, ghost base: Point) returns (r: Ge)
    requires EdwardsGroup(g) && Fermat() && Full(r0, Times(g, n, base))
    ensures Full(r, Times(g, 16 * n, base))
  {
    hide EdwardsGroup, Fermat, Times, IsPoint, Full, Partial, Abelian;
    GroupAbelian(g);
    FullIsPartial(r0, Times(g, n, base));
    r := DoublePartial(r0, g, Times(g, n, base));
    TimesAdd(g, n, n, base);
    r := DoublePartial(r, g, Times(g, 2 * n, base));
    TimesAdd(g, 2 * n, 2 * n, base);
    r := DoublePartial(r, g, Times(g, 4 * n, base));
    TimesAdd(g, 4 * n, 4 * n, base);
    r := Double(r, g, Times(g, 8 * n, base));
    TimesAdd(g, 8 * n, 8 * n, base);
  }

  /** The two loops over every other digit; `first` says which. */
  method AddEveryOther(r0: Ge, table: seq<seq<u8>>, d: seq<int>, first: nat, ghost n: int, ghost g: Group<Point>,
                       ghost base: Point) returns (r: Ge)
    requires EdwardsGroup(g) && Fermat() && BaseTable(table, g, base) && first <= 1
    requires |d| == 64 && forall i :: 0 <= i < 64 ==> -8 <= d[i] <= 8
    requires Full(r0, Times(g, n + d[first], base))
    ensures Full(r, Times(g, n + DigitVal(Every2(d, first), 256), base))
  {
    hide EdwardsGroup, Fermat, BaseTable, Times, Pow, IsPoint, Full, Prefix256, DigitVal;
    ghost var e := Every2(d, first);
    hide Every2;
    PrefixEnds(e);
    PrefixStep(e, 0);
    PowZero();
    r := r0;
    var i := first + 2;
    while i < 64
      invariant first + 2 <= i <= 64 + first && i % 2 == first
      invariant Full(r, Times(g, n + Prefix256(e, i / 2), base))
    {
      r := AddEntry(r, table, i / 2, d[i], n + Prefix256(e, i / 2), g, base);
      PrefixStep(e, i / 2);
      assert e[i / 2] == d[i];
      i := i + 2;
    }
  }

  /** ge25519_scalarmult_base_niels */
  method ScalarMultBase(table: seq<seq<u8>>, s: Limbs, ghost g: Group<Point>, ghost base: Point) returns (r: Ge)
    requires EdwardsGroup(g) && Fermat() && BaseTable(table, g, base) && Carried(s) && Value(s) < TWO255
    ensures Full(r, Times(g, Value(s), base))
  {
    hide *;
    var b := new int[64];
    Window4(b, s);
    var d := b[..];
    r := StartPoint(table, d[1], g, base);
    r := AddEveryOther(r, table, d, 1, 0, g, base);
    ghost var odd := DigitVal(Every2(d, 1), 256);
    r := TimesSixteen(r, odd, g, base);
    r := AddLowest(r, table, d[0], 16 * odd, g, base);
    r := AddEveryOther(r, table, d, 0, 16 * odd, g, base);
    EvenOdd(d);
  }
}
