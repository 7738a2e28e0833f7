/** The equation that batch verification checks, and why valid signatures satisfy it
    (src/ed25519-donna/ed25519-donna-batchverify.h, 219-247). */
module BatchEquation {
  import opened Words
  import opened Bytes
  import opened AbelianGroups
  import opened Edwards
  import opened PointBytes
  import opened ModmLimbs
  import opened DoubleMult
  import opened BaseMult
  import opened Euclid
  import opened BosCarter
  import opened Ed25519
  import Sha512Spec

  /** A message, a key, a signature and the sixteen random bytes drawn to weigh it. */
  datatype Item = Item(m: seq<u8>, pk: seq<u8>, rs: seq<u8>, z: seq<u8>)

  type Entry = e: Item | |e.pk| == 32 && |e.rs| == 64 && |e.z| == 16
    witness Item([], seq(32, i => 0), seq(64, i => 0), seq(16, i => 0))

  function Weight(e: Entry): int {
    LeVal(e.z)
  }

  function Response(e: Entry): int {
    LeVal(e.rs[32..]) % M
  }

  function Hash(e: Entry): int {
    Challenge(e.rs[..32], e.pk, e.m)
  }

  /** The scalar of the base point: the weighted responses, summed modulo the order. */
  function WeightedSum(es: seq<Entry>, k: nat): int
    requires k <= |es|
  {
    if k == 0 then 0 else (WeightedSum(es, k - 1) + (Response(es[k - 1]) * Weight(es[k - 1])) % M) % M
  }

  /** The scalars of a batch in order: base point, keys, signature points. */
  ghost function BatchScalars(es: seq<Entry>): (v: seq<int>)
    ensures |v| == 2 * |es| + 1
  {
    var n := |es|;
    seq(2 * n + 1, j requires 0 <= j < 2 * n + 1 =>
      if j == 0 then WeightedSum(es, n)
      else if j <= n then (Hash(es[j - 1]) * Weight(es[j - 1])) % M
      else Weight(es[j - n - 1]))
  }

  /** The points of a batch in the same order, keys and signature points negated. */
  ghost predicate BatchPoints(a: seq<Point>, es: seq<Entry>, base: Point) {
    var n := |es|;
    |a| == 2 * n + 1 && a[0] == base &&
    (forall i :: 0 <= i < n ==> Decodes(es[i].pk, a[1 + i])) &&
    forall i :: 0 <= i < n ==> Decodes(es[i].rs[..32], a[1 + n + i])
  }

  /** Every signature of the batch verifies, under a key of order dividing m. */
  ghost predicate AllVerify(es: seq<Entry>, a: seq<Point>, g: Group<Point>, base: Point)
    requires |a| == 2 * |es| + 1
  {
    forall i :: 0 <= i < |es| ==> KeyVerifies(es[i], a[1 + i], g, base)
  }

  ghost predicate KeyVerifies(e: Entry, neg: Point, g: Group<Point>, base: Point) {
    Verifies(e.m, e.pk, e.rs, g, base) && Times(g, M, neg) == g.zero
  }

  // ---- consecutive terms -------------------------------------------------------------------------

  /** The sum of [v[lo + j]]a[lo + j] for j below k. */
  ghost function Run<T(!new)>(g: Group<T>, v: seq<int>, a: seq<T>, lo: nat, k: nat): T
    requires lo + k <= |v| && lo + k <= |a|
  {
    if k == 0 then g.zero else g.add(Run(g, v, a, lo, k - 1), Times(g, v[lo + k - 1], a[lo + k - 1]))
  }

  lemma {:induction false} SumSplits<T(!new)>(g: Group<T>, v: seq<int>, a: seq<T>, lo: nat, k: nat)
    requires Abelian(g) && lo + k <= |v| && lo + k <= |a|
    ensures SumTimes(g, v, a, lo + k) == g.add(SumTimes(g, v, a, lo), Run(g, v, a, lo, k))
  {
    hide Abelian, Times;
    if k == 0 {
      Zero(g, SumTimes(g, v, a, lo));
    } else {
      SumSplits(g, v, a, lo, k - 1);
      Assoc(g, SumTimes(g, v, a, lo), Run(g, v, a, lo, k - 1), Times(g, v[lo + k - 1], a[lo + k - 1]));
    }
  }

  // ---- one signature's terms ---------------------------------------------------------------------

  /** By how much one signature misses its equation: [h](-A) + [S]B - R. */
  ghost function Defect<T(!new)>(g: Group<T>, base: T, e: Entry, neg: T, rneg: T): T {
    g.add(Comb(g, LeVal(Sha512Spec.Sha512(e.rs[..32] + e.pk + e.m)) % M, neg, LeVal(e.rs[32..]) % M, base), rneg)
  }

  /** [s z]B + [h z](-A) + [z](-R) = [z]([h](-A) + [s]B - R) when [m]A = 0. */
  lemma OneSignature<T(!new)>(g: Group<T>, base: T, neg: T, rneg: T, h: int, s: int, z: int)
    requires Abelian(g) && Times(g, M, neg) == g.zero
    ensures g.add(g.add(Times(g, s * z, base), Times(g, (h * z) % M, neg)), Times(g, z, rneg))
         == Times(g, z, g.add(Comb(g, h, neg, s, base), rneg))
  {
    hide Abelian, Times;
    var x, y := Times(g, h, neg), Times(g, s, base);
    TimesMod(g, h * z, M, neg);
    TimesTimes(g, z, h, neg);
    TimesTimes(g, z, s, base);
    TimesDistributes(g, z, x, y);
    TimesDistributes(g, z, g.add(x, y), rneg);
    Comm(g, Times(g, s * z, base), Times(g, (h * z) % M, neg));
    Products(h, s, z);
  }

  lemma Products(h: int, s: int, z: int)
    ensures h * z == z * h && s * z == z * s
  {
  }

  /** The decoder of a verified signature's R gives the negated right-hand side. */
  lemma DecodedResponse(e: Entry, g: Group<Point>, base: Point, neg: Point, rneg: Point)
    requires EdwardsGroup(g) && Fermat() && Verifies(e.m, e.pk, e.rs, g, base)
    requires Decodes(e.pk, neg) && Decodes(e.rs[..32], rneg)
    ensures rneg == g.neg(Comb(g, Hash(e), neg, Response(e), base))
  {
    hide EdwardsGroup, Fermat, Decodes, Comb, LeVal, IsPoint, Challenge, Encodes;
    OnlyDecoding(e.m, e.pk, e.rs, neg, g, base);
    var r := Comb(g, Hash(e), neg, Response(e), base);
    EncodedDecodes(e.rs[..32], g, r);
    DecodingUnique(e.rs[..32], rneg, g.neg(r));
  }

  // ---- the whole batch ---------------------------------------------------------------------------

  function Weighted(e: Entry): int {
    Response(e) * Weight(e)
  }

  function RawSum(es: seq<Entry>, k: nat): int
    requires k <= |es|
  {
    if k == 0 then 0 else RawSum(es, k - 1) + Weighted(es[k - 1])
  }

  lemma {:induction false} WeightedIsRaw(es: seq<Entry>, k: nat)
    requires k <= |es|
    ensures WeightedSum(es, k) == RawSum(es, k) % M
  {
    hide Response, Weight;
    if k > 0 {
      WeightedIsRaw(es, k - 1);
      ModSum(RawSum(es, k - 1), Response(es[k - 1]) * Weight(es[k - 1]));
    }
  }

  lemma ModSum(x: int, y: int)
    ensures (x % M + y % M) % M == (x + y) % M
  {
    var q := (x % M + y % M) / M;
    DivModUnique(x + y, M, x / M + y / M + q, (x % M + y % M) % M);
  }

  lemma ScalarsAt(es: seq<Entry>, k: nat)
    requires 0 < k <= |es|
    ensures BatchScalars(es)[k] == (Hash(es[k - 1]) * Weight(es[k - 1])) % M
    ensures BatchScalars(es)[|es| + k] == Weight(es[k - 1])
  {
    hide Hash, Weight, WeightedSum;
  }

  lemma PointCount(a: seq<Point>, es: seq<Entry>, base: Point)
    requires BatchPoints(a, es, base)
    ensures |a| == 2 * |es| + 1
  {
  }

  lemma PointsOf(a: seq<Point>, es: seq<Entry>, base: Point, i: nat)
    requires BatchPoints(a, es, base) && i < |es|
    ensures |a| == 2 * |es| + 1 && Decodes(es[i].pk, a[1 + i]) && Decodes(es[i].rs[..32], a[1 + |es| + i])
  {
    hide Decodes;
  }

  lemma RunUnfolds<T(!new)>(g: Group<T>, v: seq<int>, a: seq<T>, lo: nat, k: nat)
    requires lo + k <= |v| && lo + k <= |a|
    ensures if k == 0 then Run(g, v, a, lo, k) == g.zero
            else Run(g, v, a, lo, k) == g.add(Run(g, v, a, lo, k - 1), Times(g, v[lo + k - 1], a[lo + k - 1]))
  {
    hide Times;
  }

  lemma RawSumUnfolds(es: seq<Entry>, k: nat)
    requires k <= |es|
    ensures RawSum(es, k) == if k == 0 then 0 else RawSum(es, k - 1) + Weighted(es[k - 1])
  {
    hide Weighted;
  }

  /** The defects of the first k entries, each taken as often as its random bytes say. */
  ghost function WeightedDefects<T(!new)>(g: Group<T>, es: seq<Entry>, a: seq<T>, k: nat): T
    requires k <= |es| && |a| == 2 * |es| + 1
  {
    if k == 0 then g.zero
    else g.add(WeightedDefects(g, es, a, k - 1),
               Times(g, LeVal(es[k - 1].z), Defect(g, a[0], es[k - 1], a[k], a[|es| + k])))
  }

  ghost predicate KeysKilled<T(!new)>(g: Group<T>, es: seq<Entry>, a: seq<T>) {
    |a| == 2 * |es| + 1 && forall i :: 0 < i <= |es| ==> Times(g, M, a[i]) == g.zero
  }

  lemma TripleStep<T(!new)>(g: Group<T>, x: T, y: T, z: T, x': T, y': T, z': T)
    requires Abelian(g)
    ensures g.add(g.add(g.add(x, x'), g.add(y, y')), g.add(z, z'))
         == g.add(g.add(g.add(x, y), z), g.add(g.add(x', y'), z'))
  {
    hide Abelian;
    Exchange(g, x, x', y, y');
    Exchange(g, g.add(x, y), g.add(x', y'), z, z');
  }

  lemma EntryTerms<T(!new)>(g: Group<T>, es: seq<Entry>, a: seq<T>, k: nat)
    requires Abelian(g) && KeysKilled(g, es, a) && 0 < k <= |es|
    ensures var v, n, e := BatchScalars(es), |es|, es[k - 1];
            g.add(g.add(Times(g, Weighted(e), a[0]), Times(g, v[k], a[k])), Times(g, v[n + k], a[n + k])) ==
            Times(g, LeVal(e.z), Defect(g, a[0], e, a[k], a[n + k]))
  {
    hide Times, Abelian, BatchScalars, Comb, LeVal, Sha512Spec.Sha512;
    var n, e := |es|, es[k - 1];
    ScalarsAt(es, k);
    OneSignature(g, a[0], a[k], a[n + k], Hash(e), Response(e), Weight(e));
  }

  lemma {:induction false} TermsAreDefects<T(!new)>(g: Group<T>, es: seq<Entry>, a: seq<T>, k: nat)
    requires Abelian(g) && KeysKilled(g, es, a) && k <= |es|
    ensures var v, n := BatchScalars(es), |es|;
            g.add(g.add(Times(g, RawSum(es, k), a[0]), Run(g, v, a, 1, k)), Run(g, v, a, 1 + n, k)) ==
            WeightedDefects(g, es, a, k)
  {
    hide Times, Abelian, Response, Weight, Hash, BatchScalars, Run, RawSum, Weighted, Defect, LeVal;
    var v, n := BatchScalars(es), |es|;
    RunUnfolds(g, v, a, 1, k);
    RunUnfolds(g, v, a, 1 + n, k);
    RawSumUnfolds(es, k);
    if k == 0 {
      Zero(g, g.zero);
      TimesZero(g, a[0]);
    } else {
      TermsAreDefects(g, es, a, k - 1);
      EntryTerms(g, es, a, k);
      TimesAdd(g, RawSum(es, k - 1), Weighted(es[k - 1]), a[0]);
      TripleStep(g, Times(g, RawSum(es, k - 1), a[0]), Run(g, v, a, 1, k - 1), Run(g, v, a, 1 + n, k - 1),
                 Times(g, Weighted(es[k - 1]), a[0]), Times(g, v[k], a[k]), Times(g, v[n + k], a[n + k]));
    }
  }

  /** The weighted sum of a batch is the sum of its signatures' defects, each weighed by its own
      random bytes. */
  lemma SumIsWeightedDefects<T(!new)>(g: Group<T>, es: seq<Entry>, a: seq<T>)
    requires Abelian(g) && KeysKilled(g, es, a) && Times(g, M, a[0]) == g.zero
    ensures SumTimes(g, BatchScalars(es), a, 2 * |es| + 1) == WeightedDefects(g, es, a, |es|)
  {
    hide Times, Abelian, Run, RawSum, BatchScalars, SumTimes, WeightedDefects;
    var v, n := BatchScalars(es), |es|;
    FirstScalar(es);
    SumSplits(g, v, a, 1, n);
    SumSplits(g, v, a, 1 + n, n);
    FirstTerm(g, v, a);
    TimesMod(g, RawSum(es, n), M, a[0]);
    TermsAreDefects(g, es, a, n);
  }

  // ---- valid batches -------------------------------------------------------------------------------

  /** A signature verifies exactly when S has its top bits clear, R is the one encoding of its
      point, and there is no defect. */
  lemma VerifiesIffNoDefect(e: Entry, g: Group<Point>, base: Point, neg: Point, rneg: Point)
    requires EdwardsGroup(g) && Fermat() && Decodes(e.pk, neg) && Decodes(e.rs[..32], rneg)
    ensures Verifies(e.m, e.pk, e.rs, g, base) <==>
            e.rs[63] < 32 && Encodes(e.rs[..32], g.neg(rneg)) && Defect(g, base, e, neg, rneg) == g.zero
  {
    hide EdwardsGroup, Fermat, Decodes, Comb, LeVal, IsPoint, Encodes, Abelian, Sha512Spec.Sha512;
    GroupAbelian(g);
    var r := Comb(g, Hash(e), neg, Response(e), base);
    Inverse(g, r);
    if Verifies(e.m, e.pk, e.rs, g, base) {
      OnlyDecoding(e.m, e.pk, e.rs, neg, g, base);
      DecodedResponse(e, g, base, neg, rneg);
      NegNeg(g, r);
    } else if Defect(g, base, e, neg, rneg) == g.zero && e.rs[63] < 32 {
      OnlyDecoding(e.m, e.pk, e.rs, neg, g, base);
      NegUnique(g, r, rneg);
      NegNeg(g, r);
    }
  }

  lemma NegNeg<T(!new)>(g: Group<T>, x: T)
    requires Abelian(g)
    ensures g.neg(g.neg(x)) == x
  {
    hide Abelian;
    Inverse(g, x);
    NegUnique(g, g.neg(x), x);
  }

  lemma EntryHasNoDefect(g: Group<Point>, base: Point, es: seq<Entry>, a: seq<Point>, k: nat)
    requires EdwardsGroup(g) && Fermat() && BatchPoints(a, es, base) && AllVerify(es, a, g, base) && 0 < k <= |es|
    ensures |a| == 2 * |es| + 1 && Defect(g, a[0], es[k - 1], a[k], a[|es| + k]) == g.zero
  {
    hide EdwardsGroup, Fermat, Times, IsPoint, Defect, LeVal, Decodes, Verifies, Encodes;
    PointsOf(a, es, base, k - 1);
    assert KeyVerifies(es[k - 1], a[1 + (k - 1)], g, base);
    VerifiesIffNoDefect(es[k - 1], g, base, a[k], a[|es| + k]);
  }

  lemma {:induction false} NoDefects<T(!new)>(g: Group<T>, es: seq<Entry>, a: seq<T>, k: nat)
    requires Abelian(g) && |a| == 2 * |es| + 1 && k <= |es|
    requires forall i :: 0 < i <= k ==> Defect(g, a[0], es[i - 1], a[i], a[|es| + i]) == g.zero
    ensures WeightedDefects(g, es, a, k) == g.zero
  {
    hide Times, Abelian, Defect, LeVal;
    if k > 0 {
      NoDefects(g, es, a, k - 1);
      TimesOfZero(g, LeVal(es[k - 1].z));
      Zero(g, g.zero);
    }
  }

  /** A batch of valid signatures sums to zero, whatever the weights. */
  lemma ValidBatchSumsToZero(g: Group<Point>, base: Point, tables: Tables, es: seq<Entry>, a: seq<Point>)
    requires Setting(g, base, tables) && BatchPoints(a, es, base) && AllVerify(es, a, g, base)
    ensures SumTimes(g, BatchScalars(es), a, 2 * |es| + 1) == g.zero
  {
    hide EdwardsGroup, Fermat, Times, Abelian, IsPoint, SlidingTable, BaseTable, Decodes, Verifies, BatchScalars, SumTimes,
      WeightedDefects, Defect;
    GroupAbelian(g);
    forall i | 0 < i <= |es|
      ensures Times(g, M, a[i]) == g.zero
    {
      assert KeyVerifies(es[i - 1], a[1 + (i - 1)], g, base);
    }
    SumIsWeightedDefects(g, es, a);
    forall i | 0 < i <= |es|
      ensures Defect(g, a[0], es[i - 1], a[i], a[|es| + i]) == g.zero
    {
      EntryHasNoDefect(g, base, es, a, i);
    }
    NoDefects(g, es, a, |es|);
  }

  lemma FirstScalar(es: seq<Entry>)
    ensures BatchScalars(es)[0] == RawSum(es, |es|) % M
  {
    WeightedIsRaw(es, |es|);
  }

  lemma FirstTerm<T(!new)>(g: Group<T>, v: seq<int>, a: seq<T>)
    requires Abelian(g) && |v| > 0 && |a| > 0
    ensures SumTimes(g, v, a, 1) == Times(g, v[0], a[0])
  {
    hide Abelian, Times;
    assert SumTimes(g, v, a, 0) == g.zero;
    Zero(g, Times(g, v[0], a[0]));
    Comm(g, g.zero, Times(g, v[0], a[0]));
  }

  // ---- batches with a bad signature --------------------------------------------------------------------

  /** The same batch but for the random bytes of entry i. */
  ghost predicate Reweighed(es: seq<Entry>, es': seq<Entry>, i: nat) {
    i < |es| == |es'| && es' == es[i := Item(es[i].m, es[i].pk, es[i].rs, es'[i].z)]
  }

  lemma SwapLast<T(!new)>(g: Group<T>, x: T, y: T, z: T)
    requires Abelian(g)
    ensures g.add(g.add(x, y), z) == g.add(g.add(x, z), y)
  {
    hide Abelian;
    Assoc(g, x, y, z);
    Assoc(g, x, z, y);
    Comm(g, y, z);
  }

  /** Two weighings of a batch differ by the two multiples of one defect. */
  lemma {:induction false} WeighingsDiffer<T(!new)>(g: Group<T>, es: seq<Entry>, es': seq<Entry>, a: seq<T>, i: nat, k: nat)
    requires Abelian(g) && Reweighed(es, es', i) && |a| == 2 * |es| + 1 && k <= |es|
    ensures var d := Defect(g, a[0], es[i], a[i + 1], a[|es| + i + 1]);
            if k <= i then WeightedDefects(g, es', a, k) == WeightedDefects(g, es, a, k)
            else g.add(WeightedDefects(g, es', a, k), Times(g, LeVal(es[i].z), d)) ==
                 g.add(WeightedDefects(g, es, a, k), Times(g, LeVal(es'[i].z), d))
  {
    hide Abelian, Times, LeVal, Comb, Sha512Spec.Sha512;
    if k > 0 {
      WeighingsDiffer(g, es, es', a, i, k - 1);
      var d := Defect(g, a[0], es[i], a[i + 1], a[|es| + i + 1]);
      var x, x' := WeightedDefects(g, es, a, k - 1), WeightedDefects(g, es', a, k - 1);
      if k - 1 == i {
        SwapLast(g, x, Times(g, LeVal(es[i].z), d), Times(g, LeVal(es'[i].z), d));
      } else if k - 1 > i {
        var t := Times(g, LeVal(es[k - 1].z), Defect(g, a[0], es[k - 1], a[k], a[|es| + k]));
        SwapLast(g, x', t, Times(g, LeVal(es[i].z), d));
        SwapLast(g, x, t, Times(g, LeVal(es'[i].z), d));
      }
    }
  }

  lemma DefectKilled<T(!new)>(g: Group<T>, base: T, e: Entry, neg: T, rneg: T)
    requires Abelian(g) && Times(g, M, base) == g.zero && Times(g, M, neg) == g.zero && Times(g, M, rneg) == g.zero
    ensures Times(g, M, Defect(g, base, e, neg, rneg)) == g.zero
  {
    hide Abelian, Times, LeVal, Sha512Spec.Sha512;
    var x, y := Times(g, Hash(e), neg), Times(g, Response(e), base);
    MultipleKilled(g, M, Hash(e), neg);
    MultipleKilled(g, M, Response(e), base);
    TimesDistributes(g, M, x, y);
    TimesDistributes(g, M, g.add(x, y), rneg);
    Zero(g, g.zero);
  }

  /** Two multiples below m of a nonzero element of order m differ. */
  lemma {:induction false} EqualMultiples<T(!new)>(g: Group<T>, d: T, w: int, w': int)
    requires Abelian(g) && Prime(M) && Times(g, M, d) == g.zero && d != g.zero
    requires 0 <= w < M && 0 <= w' < M && Times(g, w, d) == Times(g, w', d)
    ensures w == w'
    decreases w'
  {
    hide Abelian, Times, Prime;
    if w < w' {
      EqualMultiples(g, d, w', w);
    } else if w' < w {
      TimesNeg(g, w', d);
      TimesAdd(g, w, -w', d);
      Inverse(g, Times(g, w, d));
      NoTorsion(g, w - w', M, d);
    }
  }

  lemma RandomRange(e: Entry)
    ensures LeVal(e.z) < M
  {
    hide LeVal;
    LeValBound(e.z);
    Pow256Words();
  }

  /** However the rest of a batch is weighed, at most one choice of sixteen random bytes for a
      signature with a defect makes the batch sum to zero. */
  lemma AtMostOneWeight<T(!new)>(g: Group<T>, es: seq<Entry>, es': seq<Entry>, a: seq<T>, i: nat)
    requires Abelian(g) && Prime(M) && Reweighed(es, es', i) && |a| == 2 * |es| + 1 && Killed(g, M, a, |a|)
    requires SumTimes(g, BatchScalars(es), a, |a|) == g.zero && SumTimes(g, BatchScalars(es'), a, |a|) == g.zero
    requires Defect(g, a[0], es[i], a[i + 1], a[|es| + i + 1]) != g.zero
    ensures es'[i].z == es[i].z && es' == es
  {
    hide Abelian, Times, SumTimes, BatchScalars, Prime, LeVal, WeightedDefects, Defect;
    var d := Defect(g, a[0], es[i], a[i + 1], a[|es| + i + 1]);
    SumIsWeightedDefects(g, es, a);
    SumIsWeightedDefects(g, es', a);
    WeighingsDiffer(g, es, es', a, i, |es|);
    Zero(g, Times(g, LeVal(es[i].z), d));
    Zero(g, Times(g, LeVal(es'[i].z), d));
    DefectKilled(g, a[0], es[i], a[i + 1], a[|es| + i + 1]);
    RandomRange(es[i]);
    RandomRange(es'[i]);
    EqualMultiples(g, d, LeVal(es[i].z), LeVal(es'[i].z));
    LeValInjective(es[i].z, es'[i].z);
  }
}
