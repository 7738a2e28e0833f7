/** Batch verification (src/ed25519-donna/ed25519-donna-batchverify.h, 190-274). */
module BatchVerify {
  import opened Words
  import opened Modular
  import opened Bytes
  import opened Field
  import opened FieldBytes
  import opened AbelianGroups
  import opened Edwards
  import opened CurveOps
  import opened PointBytes
  import opened ModmLimbs
  import opened Barrett
  import opened ScalarBytes
  import opened DoubleMult
  import opened BaseMult
  import opened Euclid
  import opened BosCarter
  import opened Ladder
  import opened BatchHeap
  import opened MultiScalar
  import opened Ed25519
  import opened BatchEquation
  import Sha512Spec

  const MAX_BATCH_SIZE: nat := 64
  const TWO252: int := 0x1000000000000000000000000000000000000000000000000000000000000000

  // ---- the base point ------------------------------------------------------------------------------

  /** ge25519_basepoint */
  const BASEPOINT: Ge := Ge(
    Fe(0x00062d608f25d51a, 0x000412a4b4f6592a, 0x00075b7171a4b31d, 0x0001ff60527118fe, 0x000216936d3cd6e5),
    Fe(0x0006666666666658, 0x0004cccccccccccc, 0x0001999999999999, 0x0003333333333333, 0x0006666666666666),
    Fe(1, 0, 0, 0, 0),
    Fe(0x00068ab3a5b7dda3, 0x00000eea2a5eadbb, 0x0002af8df483c27e, 0x000332b375274732, 0x00067875f0fd78b7))

  const BASE: Affine := Affine(
    15112221349535400772501151409588531511454012693041857206046113283949847762202,
    46316835694926478169428394003475163141307993866256225615783033603165251855960)

  /** The base point is on the curve, and its stored coordinates stand for it. */
  lemma BasePoint()
    ensures IsPoint(BASE) && Full(BASEPOINT, BASE)
  {
    assert Val(BASEPOINT.x) == BASE.x && Val(BASEPOINT.y) == BASE.y && Val(BASEPOINT.z) == 1;
    NotZero(1);
  }

  /** The parameters of section 5.1 of RFC 8032: p, the order m, d = -121665/121666, and the base
      point with y = 4/5 and even x. */
  lemma Parameters()
    ensures P == TWO255 - 19 && M == TWO252 + 27742317777372353535851937790883648493
    ensures (121666 * D + 121665) % P == 0
    ensures (5 * BASE.y - 4) % P == 0 && BASE.x % 2 == 0
    ensures Encoding(BASE) == 0x6666666666666666666666666666666666666666666666666666666666666658
  {
  }

  // ---- the neutral element -------------------------------------------------------------------------

  /** ge25519_is_neutral_vartime */
  method IsNeutral(p: Ge, ghost q: Point) returns (neutral: bool)
    requires Fermat() && Partial(p, q)
    ensures neutral <==> q == NEUTRAL
  {
    hide Cong, Fermat, Val, Field.Eval, Tight, Loose, LeVal, IsPoint;
    PointRange(q);
    TightIsWide(p.y);
    TightIsWide(p.z);
    var zero := IsZero(p.x);
    var y := Contract(p.y);
    var z := Contract(p.z);
    ContractCanonical(p.y, p.z, y, z);
    neutral := zero && y == z;
    NeutralCoordinates(Val(p.x), Val(p.y), Val(p.z), q);
  }

  lemma NeutralCoordinates(x: int, y: int, z: int, q: Affine)
    requires Fermat() && Projective(x, y, z, q) && 0 <= q.x < P && 0 <= q.y < P
    ensures Cong(x, 0) && Cong(y, z) <==> q == NEUTRAL
  {
    hide Cong, Fermat;
    ScaledEqual(x, q.x, z, 0);
    ScaledEqual(y, q.y, z, 1);
  }

  /** x = q z modulo p with z a unit: x = k z only for q = k. */
  lemma ScaledEqual(x: int, q: int, z: int, k: int)
    requires Fermat() && Cong(x, q * z) && !Cong(z, 0) && 0 <= q < P && 0 <= k < P
    ensures Cong(x, k * z) <==> q == k
  {
    hide Cong, Fermat;
    if Cong(x, k * z) {
      CongSym(x, q * z);
      CongTrans(q * z, x, k * z);
      CancelUnit(z, q, k);
      CongCanonical(q, k);
    }
  }

  // ---- the scalars of a batch ------------------------------------------------------------------------

  /** Scalar j is in 56-bit limbs and has the given value. */
  ghost predicate Holds(s: seq<Limbs>, j: nat, value: int) {
    j < |s| && Carried(s[j]) && Value(s[j]) == value
  }

  lemma WeightRange(e: Entry)
    ensures 0 <= Weight(e) < W128 && Weight(e) % M == Weight(e)
  {
    hide LeVal;
    LeValBound(e.z);
    Pow256Of16();
    DivModUnique(LeVal(e.z), M, 0, LeVal(e.z));
  }

  lemma Pow256Of16()
    ensures Pow256(16) == W128
  {
    Pow256Words();
  }

  /** Lines 222-223: the weights, after the key scalars. */
  method LoadWeights(h: Heap, es: seq<Entry>)
    requires |es| <= MAX_BATCH_SIZE && h.scalars.Length == HEAP_BATCH_SIZE
    modifies h.scalars
    ensures forall i :: 0 <= i < |es| ==> Holds(h.scalars[..], |es| + 1 + i, Weight(es[i]))
  {
    hide Value, Carried, Weight;
    var n := |es|;
    for i := 0 to n
      invariant forall k :: 0 <= k < i ==> Holds(h.scalars[..], n + 1 + k, Weight(es[k]))
    {
      h.scalars[n + 1 + i] := LoadWeight(es[i]);
    }
  }

  method LoadWeight(e: Entry) returns (s: Limbs)
    ensures Carried(s) && Value(s) == LeVal(e.z) == Weight(e)
  {
    hide Value, Carried, LeVal;
    WeightRange(e);
    s := Expand256(e.z);
  }

  /** Lines 227-228 for one signature. */
  method WeightedResponse(e: Entry, w: Limbs) returns (s: Limbs)
    requires Carried(w) && Value(w) == Weight(e)
    ensures Carried(s) && Value(s) == (Response(e) * Weight(e)) % M
  {
    hide Value, Carried, LeVal;
    WeightRange(e);
    s := Expand256(e.rs[32..]);
    s := Mul256(s, w);
  }

  /** Lines 235-237 for one signature. */
  method WeightedHash(e: Entry, w: Limbs) returns (s: Limbs)
    requires Carried(w) && Value(w) == Weight(e)
    ensures Carried(s) && Value(s) == (BatchEquation.Hash(e) * Weight(e)) % M
  {
    hide Value, Carried, LeVal, Sha512Spec.Sha512;
    WeightRange(e);
    var hram := Hram(e.rs[..32], e.pk, e.m);
    s := Expand256(hram);
    s := Mul256(s, w);
  }

  /** Lines 226-229: the weighted responses, one by one. */
  method WeighResponses(h: Heap, es: seq<Entry>)
    requires |es| <= MAX_BATCH_SIZE && h.scalars.Length == HEAP_BATCH_SIZE
    requires forall i :: 0 <= i < |es| ==> Holds(h.scalars[..], |es| + 1 + i, Weight(es[i]))
    modifies h.scalars
    ensures forall i :: 0 <= i < |es| ==> Holds(h.scalars[..], i, (Response(es[i]) * Weight(es[i])) % M)
    ensures forall i :: 0 <= i < |es| ==> Holds(h.scalars[..], |es| + 1 + i, Weight(es[i]))
  {
    hide Value, Carried, Weight, Response;
    var n := |es|;
    for i := 0 to n
      invariant forall k :: 0 <= k < i ==> Holds(h.scalars[..], k, (Response(es[k]) * Weight(es[k])) % M)
      invariant forall k :: 0 <= k < n ==> Holds(h.scalars[..], n + 1 + k, Weight(es[k]))
    {
      assert Holds(h.scalars[..], n + 1 + i, Weight(es[i]));
      h.scalars[i] := WeightedResponse(es[i], h.scalars[n + 1 + i]);
    }
  }

  /** Lines 226-231: the weighted responses, summed into scalar 0. */
  method LoadResponses(h: Heap, es: seq<Entry>)
    requires 0 < |es| <= MAX_BATCH_SIZE && h.scalars.Length == HEAP_BATCH_SIZE
    requires forall i :: 0 <= i < |es| ==> Holds(h.scalars[..], |es| + 1 + i, Weight(es[i]))
    modifies h.scalars
    ensures Holds(h.scalars[..], 0, WeightedSum(es, |es|))
    ensures forall i :: 0 <= i < |es| ==> Holds(h.scalars[..], |es| + 1 + i, Weight(es[i]))
  {
    hide Value, Carried, Weight, Response;
    var n := |es|;
    WeighResponses(h, es);
    FirstWeighted(es);
    for i := 1 to n
      invariant Holds(h.scalars[..], 0, WeightedSum(es, i))
      invariant forall k :: i <= k < n ==> Holds(h.scalars[..], k, (Response(es[k]) * Weight(es[k])) % M)
      invariant forall k :: 0 <= k < n ==> Holds(h.scalars[..], n + 1 + k, Weight(es[k]))
    {
      assert Holds(h.scalars[..], i, (Response(es[i]) * Weight(es[i])) % M);
      SumRange(es, i);
      h.scalars[0] := Add256(h.scalars[0], h.scalars[i]);
    }
  }

  lemma FirstWeighted(es: seq<Entry>)
    requires |es| > 0
    ensures WeightedSum(es, 1) == (Response(es[0]) * Weight(es[0])) % M
  {
    hide Weight, Response;
    assert WeightedSum(es, 0) == 0;
  }

  lemma SumRange(es: seq<Entry>, k: nat)
    requires k <= |es|
    ensures WeightedSum(es, k) < M
  {
    hide Weight, Response;
  }

  /** Lines 234-238: the key scalars. */
  method LoadHashes(h: Heap, es: seq<Entry>)
    requires |es| <= MAX_BATCH_SIZE && h.scalars.Length == HEAP_BATCH_SIZE
    requires forall i :: 0 <= i < |es| ==> Holds(h.scalars[..], |es| + 1 + i, Weight(es[i]))
    modifies h.scalars
    ensures h.scalars[0] == old(h.scalars[0])
    ensures forall i :: 0 <= i < |es| ==> Holds(h.scalars[..], 1 + i, (BatchEquation.Hash(es[i]) * Weight(es[i])) % M)
    ensures forall i :: 0 <= i < |es| ==> Holds(h.scalars[..], |es| + 1 + i, Weight(es[i]))
  {
    hide Value, Carried, Weight, BatchEquation.Hash;
    var n := |es|;
    for i := 0 to n
      invariant h.scalars[0] == old(h.scalars[0])
      invariant forall k :: 0 <= k < i ==> Holds(h.scalars[..], 1 + k, (BatchEquation.Hash(es[k]) * Weight(es[k])) % M)
      invariant forall k :: 0 <= k < n ==> Holds(h.scalars[..], n + 1 + k, Weight(es[k]))
    {
      assert Holds(h.scalars[..], n + 1 + i, Weight(es[i]));
      h.scalars[i + 1] := WeightedHash(es[i], h.scalars[n + 1 + i]);
    }
  }

  /** Lines 219-238 */
  method LoadScalars(h: Heap, es: seq<Entry>)
    requires 0 < |es| <= MAX_BATCH_SIZE && h.scalars.Length == HEAP_BATCH_SIZE
    modifies h.scalars
    ensures forall i :: 0 <= i < |es| ==> Holds(h.scalars[..], |es| + 1 + i, LeVal(es[i].z))
    ensures forall i :: 0 <= i < |es| ==> Holds(h.scalars[..], 1 + i,
              (LeVal(Sha512Spec.Sha512(es[i].rs[..32] + es[i].pk + es[i].m)) % M * LeVal(es[i].z)) % M)
    ensures forall j :: 0 <= j < 2 * |es| + 1 ==> Holds(h.scalars[..], j, BatchScalars(es)[j])
  {
    hide Holds, LeVal, Sha512Spec.Sha512, WeightedSum;
    LoadWeights(h, es);
    LoadResponses(h, es);
    ghost var s := h.scalars[..];
    LoadHashes(h, es);
    SameHolds(s, h.scalars[..], WeightedSum(es, |es|));
    ghost var n := |es|;
    forall j | 0 <= j < 2 * n + 1
      ensures Holds(h.scalars[..], j, BatchScalars(es)[j])
    {
      if 0 < j <= n {
        assert Holds(h.scalars[..], 1 + (j - 1), (BatchEquation.Hash(es[j - 1]) * Weight(es[j - 1])) % M);
      } else if j > n {
        assert Holds(h.scalars[..], n + 1 + (j - n - 1), Weight(es[j - n - 1]));
      }
    }
  }

  lemma SameHolds(s: seq<Limbs>, t: seq<Limbs>, value: int)
    requires Holds(s, 0, value) && |t| > 0 && s[0] == t[0]
    ensures Holds(t, 0, value)
  {
  }

  // ---- the points of a batch -------------------------------------------------------------------------

  ghost predicate Undecodable(b: seq<u8>)
    requires |b| == 32
  {
    forall q: Affine :: !Decodes(b, q)
  }

  /** Some key or some signature point of the batch is no point. */
  ghost predicate SomeUndecodable(es: seq<Entry>) {
    exists i :: 0 <= i < |es| && (Undecodable(es[i].pk) || Undecodable(es[i].rs[..32]))
  }

  /** The bytes decoded in one of the two passes over the batch. */
  function Encoded(e: Entry, keys: bool): (b: seq<u8>)
    ensures |b| == 32
  {
    if keys then e.pk else e.rs[..32]
  }

  ghost predicate Unpacked(points: seq<Ge>, es: seq<Entry>, at: nat, keys: bool, a: seq<Point>) {
    at + |es| <= |points| && |a| == |es| &&
    forall i :: 0 <= i < |es| ==> Decodes(Encoded(es[i], keys), a[i]) && Full(points[at + i], a[i])
  }

  lemma UnpackedKept(before: seq<Ge>, after: seq<Ge>, es: seq<Entry>, at: nat, keys: bool, a: seq<Point>)
    requires Unpacked(before, es, at, keys, a) && |after| == |before|
    requires forall j :: at <= j < at + |es| ==> after[j] == before[j]
    ensures Unpacked(after, es, at, keys, a)
  {
    hide Decodes, Full, IsPoint;
  }

  /** Lines 242-244 and 245-247: decodes the keys, or the signature points, from place `at` on. */
  method Unpack(h: Heap, es: seq<Entry>, at: nat, keys: bool) returns (ok: bool, ghost a: seq<Point>)
    requires Fermat() && at + |es| <= HEAP_BATCH_SIZE == h.points.Length
    modifies h.points
    ensures forall j :: 0 <= j < HEAP_BATCH_SIZE && !(at <= j < at + |es|) ==> h.points[j] == old(h.points[j])
    ensures ok ==> Unpacked(h.points[..], es, at, keys, a)
    ensures !ok ==> SomeUndecodable(es)
  {
    hide Fermat, Decodes, Full, IsPoint, Encoded;
    a := [];
    for i := 0 to |es|
      invariant forall j :: 0 <= j < HEAP_BATCH_SIZE && !(at <= j < at + i) ==> h.points[j] == old(h.points[j])
      invariant |a| == i && forall k :: 0 <= k < i ==> Decodes(Encoded(es[k], keys), a[k]) && Full(h.points[at + k], a[k])
    {
      var good, r, q := UnpackNegative(Encoded(es[i], keys));
      if !good {
        EncodedCases(es[i]);
        return false, a;
      }
      DecodedIsPoint(Encoded(es[i], keys), q);
      h.points[at + i] := r;
      a := a + [q];
    }
    ok := true;
  }

  /** Lines 241-247 */
  method LoadPoints(h: Heap, es: seq<Entry>) returns (ok: bool, ghost a: seq<Point>)
    requires Fermat() && IsPoint(BASE) && |es| <= MAX_BATCH_SIZE && h.points.Length == HEAP_BATCH_SIZE
    modifies h.points
    ensures ok ==> BatchPoints(a, es, BASE) && Stand(h.points[..], a, 2 * |es| + 1)
    ensures !ok ==> SomeUndecodable(es)
  {
    hide Fermat, Full, IsPoint, BASE, BASEPOINT, BatchPoints, Stand, Unpacked, SomeUndecodable;
    BasePoint();
    h.points[0] := BASEPOINT;
    ghost var keys, rests;
    ok, keys := Unpack(h, es, 1, true);
    if !ok {
      return false, [];
    }
    ghost var before := h.points[..];
    ok, rests := Unpack(h, es, 1 + |es|, false);
    if !ok {
      return false, [];
    }
    UnpackedKept(before, h.points[..], es, 1, true, keys);
    a := [BASE] + keys + rests;
    AllUnpacked(h.points[..], a, es, keys, rests);
  }

  lemma AllUnpacked(points: seq<Ge>, a: seq<Point>, es: seq<Entry>, keys: seq<Point>, rests: seq<Point>)
    requires IsPoint(BASE) && |points| > 0 && Full(points[0], BASE) && a == [BASE] + keys + rests
    requires Unpacked(points, es, 1, true, keys) && Unpacked(points, es, 1 + |es|, false, rests)
    ensures BatchPoints(a, es, BASE) && Stand(points, a, 2 * |es| + 1)
  {
    hide Decodes, Full, IsPoint, BASE, BatchPoints, Stand, Encoded;
    Concatenated(BASE, keys, rests);
    AllDecode(a, es, keys, rests);
    AllStand(points, a, |es|, keys, rests);
  }

  lemma Concatenated<T>(x: T, keys: seq<T>, rests: seq<T>)
    requires |keys| == |rests|
    ensures var a, n := [x] + keys + rests, |keys|;
            |a| == 2 * n + 1 && a[0] == x && (forall i :: 0 <= i < n ==> a[1 + i] == keys[i]) &&
            forall i :: 0 <= i < n ==> a[1 + n + i] == rests[i]
  {
  }

  lemma EncodedCases(e: Entry)
    ensures Encoded(e, true) == e.pk && Encoded(e, false) == e.rs[..32]
  {
  }

  lemma AllDecode(a: seq<Point>, es: seq<Entry>, keys: seq<Point>, rests: seq<Point>)
    requires IsPoint(BASE) && |es| == |keys| == |rests| && |a| == 2 * |es| + 1 && a[0] == BASE
    requires forall i :: 0 <= i < |es| ==> a[1 + i] == keys[i]
    requires forall i :: 0 <= i < |es| ==> a[1 + |es| + i] == rests[i]
    requires forall i :: 0 <= i < |es| ==> Decodes(Encoded(es[i], true), keys[i])
    requires forall i :: 0 <= i < |es| ==> Decodes(Encoded(es[i], false), rests[i])
    ensures BatchPoints(a, es, BASE)
  {
  }

  lemma AllStand(points: seq<Ge>, a: seq<Point>, n: nat, keys: seq<Point>, rests: seq<Point>)
    requires IsPoint(BASE) && n == |keys| == |rests| && |a| == 2 * n + 1 <= |points| && a[0] == BASE
    requires forall i :: 0 <= i < n ==> a[1 + i] == keys[i]
    requires forall i :: 0 <= i < n ==> a[1 + n + i] == rests[i]
    requires Full(points[0], BASE) && forall i :: 0 <= i < n ==> Full(points[1 + i], keys[i])
    requires forall i :: 0 <= i < n ==> Full(points[1 + n + i], rests[i])
    ensures Stand(points, a, 2 * n + 1)
  {
    hide Full, IsPoint, BASE;
    forall j | 0 <= j < 2 * n + 1
      ensures Full(points[j], a[j])
    {
      if 0 < j <= n {
        assert a[1 + (j - 1)] == keys[j - 1];
      } else if j > n {
        assert a[1 + n + (j - n - 1)] == rests[j - n - 1];
      }
    }
  }

  // ---- one batch -------------------------------------------------------------------------------------

  /** How an entry came to its verdict: with its batch, after its batch's sum failed, after its
      batch failed to decode, or in the rest of at most three. */
  datatype Verdict = Passed | SumFailed | NotDecoded | Alone

  /** The final ladder stays within its scalar (see LadderDefined). */
  ghost predicate SumDefined(es: seq<Entry>) {
    var v := BatchScalars(es);
    InitialSize(|v|) <= |v| && NonNegative(v, InitialSize(|v|)) && LadderDefined(GcdOf(v, InitialSize(|v|)))
  }

  /** The batch decodes, and `neutral` says whether its computed sum is the neutral element. */
  ghost predicate SumChecked(es: seq<Entry>, g: Group<Point>, neutral: bool) {
    exists a :: Checked(es, g, a, neutral)
  }

  ghost predicate Checked(es: seq<Entry>, g: Group<Point>, a: seq<Point>, neutral: bool) {
    var v := BatchScalars(es);
    IsPoint(BASE) && BatchPoints(a, es, BASE) && SumDefined(es) && Ready(v, |v|) && |v| <= |a| &&
    (neutral <==> Computed(g, v, a, |v|) == NEUTRAL)
  }

  lemma BatchNonNegative(es: seq<Entry>)
    ensures NonNegative(BatchScalars(es), 2 * |es| + 1)
  {
    hide Weight, BatchEquation.Hash, WeightedSum;
    forall j | 0 <= j < 2 * |es| + 1
      ensures BatchScalars(es)[j] >= 0
    {
      ScalarNonNegative(es, j);
    }
  }

  lemma ScalarNonNegative(es: seq<Entry>, j: nat)
    requires j < 2 * |es| + 1
    ensures BatchScalars(es)[j] >= 0 && (j > |es| ==> BatchScalars(es)[j] < W128)
  {
    hide Weight, BatchEquation.Hash, Response;
    if j > |es| {
      WeightRange(es[j - |es| - 1]);
    }
  }

  /** The loaded scalars are ready for the multi-scalar multiplication. */
  lemma LoadedReady(s: seq<Limbs>, es: seq<Entry>)
    requires |es| >= 2 && 2 * |es| + 1 <= |s| && SumDefined(es)
    requires forall j :: 0 <= j < 2 * |es| + 1 ==> Holds(s, j, BatchScalars(es)[j])
    ensures Fitting(s, 2 * |es| + 1, 4) && Short(s, InitialSize(2 * |es| + 1), 2 * |es| + 1)
    ensures Ready(Values(s), 2 * |es| + 1)
    ensures LadderDefined(GcdOf(Values(s), InitialSize(2 * |es| + 1)))
    ensures forall j :: 0 <= j < 2 * |es| + 1 ==> Values(s)[j] == BatchScalars(es)[j]
  {
    hide BatchScalars, Value, Carried, GcdOf, LadderDefined;
    var count := 2 * |es| + 1;
    BatchNonNegative(es);
    InitialSizeFits(count);
    forall j | 0 <= j < count
      ensures Values(s)[j] == BatchScalars(es)[j] && Carried(s[j])
    {
      assert Holds(s, j, BatchScalars(es)[j]);
    }
    forall j | InitialSize(count) <= j < count
      ensures Value(s[j]) < W128
    {
      assert Holds(s, j, BatchScalars(es)[j]);
      ScalarNonNegative(es, j);
    }
    GcdFrame(Values(s), BatchScalars(es), InitialSize(count));
  }

  /** Lines 219-250 for one batch: does its weighted sum vanish? */
  method CheckBatch(h: Heap, es: seq<Entry>, ghost g: Group<Point>) returns (verdict: Verdict)
    requires EdwardsGroup(g) && Fermat() && IsPoint(BASE) && 4 <= |es| <= MAX_BATCH_SIZE && SumDefined(es)
    requires h.points.Length == h.scalars.Length == h.heap.Length == HEAP_BATCH_SIZE
    modifies h.scalars, h.points, h.heap, h`size
    ensures verdict != Alone && (verdict.NotDecoded? ==> SomeUndecodable(es))
    ensures verdict.Passed? || verdict.SumFailed? ==> SumChecked(es, g, verdict.Passed?)
  {
    hide EdwardsGroup, Fermat, IsPoint, BASE, SumDefined, SomeUndecodable, BatchPoints, Stand, Holds, Fitting, Short, Values,
      NonNegative, GcdOf, LadderDefined, Computed, Full, Partial, InitialSize, BatchScalars, Taken;
    LoadScalars(h, es);
    var ok, a := LoadPoints(h, es);
    if !ok {
      return NotDecoded;
    }
    PointCount(a, es, BASE);
    var count := 2 * |es| + 1;
    LoadedReady(h.scalars[..], es);
    ghost var v := Values(h.scalars[..]);
    var r := MultiScalarMult(h, count, g, a);
    ComputedFrame(g, v, BatchScalars(es), a, count);
    ghost var q := Computed(g, v, a, count);
    FullIsPartial(r, q);
    var neutral := IsNeutral(r, q);
    assert Checked(es, g, a, neutral);
    verdict := if neutral then Passed else SumFailed;
  }

  // ---- what a batch's verdict means ------------------------------------------------------------------

  lemma ScalarsBelowOrder(es: seq<Entry>)
    ensures Ready(BatchScalars(es), 2 * |es| + 1) || |es| < 2
    ensures forall j :: 0 <= j < 2 * |es| + 1 ==> BatchScalars(es)[j] < M
  {
    hide Weight, BatchEquation.Hash, Response, BatchScalars, InitialSize;
    if |es| >= 2 {
      InitialSizeFits(2 * |es| + 1);
      BatchNonNegative(es);
    }
    forall j | 0 <= j < 2 * |es| + 1
      ensures BatchScalars(es)[j] < M
    {
      ScalarBelowOrder(es, j);
    }
  }

  lemma ScalarBelowOrder(es: seq<Entry>, j: nat)
    requires j < 2 * |es| + 1
    ensures BatchScalars(es)[j] < M
  {
    hide Weight, BatchEquation.Hash, Response;
    SumRange(es, |es|);
    if j > |es| {
      WeightRange(es[j - |es| - 1]);
    }
  }

  lemma ResidueDefined(es: seq<Entry>)
    requires SumDefined(es) && Ready(BatchScalars(es), 2 * |es| + 1)
    ensures LadderDefined(Residue(BatchScalars(es), 2 * |es| + 1))
  {
    hide BatchScalars, GcdOf, InitialSize, TwoNonzero;
    var v := BatchScalars(es);
    if AllJoin(v, 2 * |es| + 1) {
      JoinedResidue(v, 2 * |es| + 1);
      DivModUnique(Residue(v, 2 * |es| + 1), TWO224, 0, Residue(v, 2 * |es| + 1));
    }
  }

  /** Over points of order dividing m, a batch passes exactly when the weighted sum of the points
      that came in is zero, whatever common divisor their scalars have. */
  lemma PassesIffSumVanishes(es: seq<Entry>, g: Group<Point>, a: seq<Point>, neutral: bool)
    requires EdwardsGroup(g) && Prime(M) && Checked(es, g, a, neutral)
    requires Killed(g, M, a, Taken(BatchScalars(es), 2 * |es| + 1))
    ensures var n := Taken(BatchScalars(es), 2 * |es| + 1);
            n <= 2 * |es| + 1 == |a| && (neutral <==> SumTimes(g, BatchScalars(es), a, n) == g.zero)
  {
    hide EdwardsGroup, Abelian, IsPoint, BASE, SumTimes, Times, Computed, Taken, BatchScalars, Killed, Prime, Ready, Residue,
      LadderDefined, SumDefined, BatchPoints;
    GroupAbelian(g);
    PointCount(a, es, BASE);
    var v := BatchScalars(es);
    TakenReady(v, |v|);
    ScalarsBelowOrder(es);
    ResidueDefined(es);
    VanishTogether(g, v, a, |v|);
  }

  /** Keys of order dividing m give signature points of order dividing m. */
  lemma AllKilled(es: seq<Entry>, tables: Tables, g: Group<Point>, a: seq<Point>)
    requires IsPoint(BASE) && Setting(g, BASE, tables) && BatchPoints(a, es, BASE) && AllVerify(es, a, g, BASE)
    ensures Killed(g, M, a, 2 * |es| + 1)
  {
    hide EdwardsGroup, IsPoint, BASE, Times, SlidingTable, BaseTable, Fermat, Verifies, Decodes;
    var n := |es|;
    forall j | 0 <= j < 2 * n + 1
      ensures Times(g, M, a[j]) == g.zero
    {
      if 0 < j <= n {
        assert KeyVerifies(es[j - 1], a[1 + (j - 1)], g, BASE);
      } else if j > n {
        var i := j - n - 1;
        PointsOf(a, es, BASE, i);
        assert KeyVerifies(es[i], a[1 + i], g, BASE);
        DecodedResponse(es[i], g, BASE, a[1 + i], a[1 + n + i]);
        ResponseKilled(g, BASE, a[1 + i], BatchEquation.Hash(es[i]), Response(es[i]));
      }
    }
  }

  lemma ResponseKilled(g: Group<Point>, base: Point, neg: Point, h: int, s: int)
    requires EdwardsGroup(g) && Times(g, M, base) == g.zero && Times(g, M, neg) == g.zero
    ensures Times(g, M, g.neg(Comb(g, h, neg, s, base))) == g.zero
  {
    hide EdwardsGroup, Abelian, Times, IsPoint;
    GroupAbelian(g);
    var x, y := Times(g, h, neg), Times(g, s, base);
    MultipleKilled(g, M, h, neg);
    MultipleKilled(g, M, s, base);
    TimesDistributes(g, M, x, y);
    Zero(g, g.zero);
    var r := g.add(x, y);
    TimesOne(g, r);
    TimesNeg(g, 1, r);
    MultipleKilled(g, M, -1, r);
  }

  /** A batch of valid signatures under keys of order dividing m passes once all its scalars came in. */
  lemma ValidBatchPasses(es: seq<Entry>, tables: Tables, g: Group<Point>, a: seq<Point>, neutral: bool)
    requires IsPoint(BASE) && Setting(g, BASE, tables) && Prime(M) && Checked(es, g, a, neutral)
    requires |a| == 2 * |es| + 1 && AllVerify(es, a, g, BASE) && AllJoin(BatchScalars(es), 2 * |es| + 1)
    ensures neutral
  {
    hide EdwardsGroup, IsPoint, BASE, BatchPoints, SumTimes, Times, Computed, BatchScalars, AllVerify, SlidingTable, BaseTable,
      Fermat, Prime, Killed, AllJoin, Ready, SumDefined;
    AllKilled(es, tables, g, a);
    ValidBatchSumsToZero(g, BASE, tables, es, a);
    PassesIffSumVanishes(es, g, a, neutral);
  }

  /** The points of a batch are determined by its keys and signatures. */
  lemma SamePoints(es: seq<Entry>, es': seq<Entry>, i: nat, a: seq<Point>, a': seq<Point>)
    requires Fermat() && IsPoint(BASE) && Reweighed(es, es', i) && BatchPoints(a, es, BASE) && BatchPoints(a', es', BASE)
    ensures a' == a
  {
    hide Fermat, IsPoint, BASE, Decodes;
    var n := |es|;
    forall j | 0 <= j < 2 * n + 1
      ensures a'[j] == a[j]
    {
      if 0 < j <= n {
        PointsOf(a, es, BASE, j - 1);
        PointsOf(a', es', BASE, j - 1);
        DecodingUnique(es[j - 1].pk, a[j], a'[j]);
      } else if j > n {
        PointsOf(a, es, BASE, j - n - 1);
        PointsOf(a', es', BASE, j - n - 1);
        DecodingUnique(es[j - n - 1].rs[..32], a[j], a'[j]);
      }
    }
  }

  /** A batch with a defective signature passes for at most one choice of that signature's random
      bytes, among those with which all scalars come in. */
  lemma OneWeightPasses(es: seq<Entry>, es': seq<Entry>, i: nat, g: Group<Point>, a: seq<Point>, a': seq<Point>)
    requires EdwardsGroup(g) && Fermat() && Prime(M) && Checked(es, g, a, true) && Checked(es', g, a', true)
    requires Reweighed(es, es', i) && |a| == 2 * |es| + 1 && Killed(g, M, a, |a|)
    requires AllJoin(BatchScalars(es), |a|) && AllJoin(BatchScalars(es'), |a|)
    requires Defect(g, a[0], es[i], a[i + 1], a[|es| + i + 1]) != g.zero
    ensures es' == es
  {
    hide EdwardsGroup, Fermat, Abelian, IsPoint, BASE, BatchPoints, SumTimes, Times, Computed, BatchScalars, Prime, Killed,
      AllJoin, Ready, SumDefined, Defect;
    GroupAbelian(g);
    SamePoints(es, es', i, a, a');
    PassesIffSumVanishes(es, g, a, true);
    PassesIffSumVanishes(es', g, a, true);
    AtMostOneWeight(g, es, es', a, i);
  }

  // ---- all the batches -----------------------------------------------------------------------------------

  ghost predicate Good(e: Entry, g: Group<Point>)
    requires IsPoint(BASE)
  {
    Verifies(e.m, e.pk, e.rs, g, BASE)
  }

  /** Line 256 and 270: ret |= valid ^ 1. */
  function OrInvalid(ret: nat, valid: int): (r: nat)
    requires ret < 4
    ensures r < 4 && (r >= 2 <==> ret >= 2) && (r % 2 == 1 <==> ret % 2 == 1 || valid == 0)
  {
    if valid == 0 && ret % 2 == 0 then ret + 1 else ret
  }

  /** Line 251: ret |= 2. */
  function OrFailed(ret: nat): (r: nat)
    requires ret < 4
    ensures r < 4 && r >= 2 && r % 2 == ret % 2
  {
    if ret < 2 then ret + 2 else ret
  }

  ghost predicate SomeInvalid(valid: seq<int>, lo: nat, hi: nat) {
    exists i :: lo <= i < hi <= |valid| && valid[i] == 0
  }

  /** Lines 254-257 and 268-271: opens the signatures one by one. */
  method OpenEach(es: seq<Entry>, lo: nat, hi: nat, tables: Tables, valid: array<int>, ret0: nat, ghost g: Group<Point>)
    returns (ret: nat)
    requires IsPoint(BASE) && Setting(g, BASE, tables) && lo <= hi <= |es| == valid.Length && ret0 < 4
    modifies valid
    ensures forall i :: 0 <= i < lo || hi <= i < |es| ==> valid[i] == old(valid[i])
    ensures forall i :: lo <= i < hi ==> valid[i] == if Good(es[i], g) then 1 else 0
    ensures ret < 4 && (ret >= 2 <==> ret0 >= 2) && (ret % 2 == 1 <==> ret0 % 2 == 1 || SomeInvalid(valid[..], lo, hi))
  {
    hide Setting, IsPoint, BASE, Verifies;
    ret := ret0;
    for i := lo to hi
      invariant forall k :: 0 <= k < lo || i <= k < |es| ==> valid[k] == old(valid[k])
      invariant forall k :: lo <= k < i ==> valid[k] == if Good(es[k], g) then 1 else 0
      invariant ret < 4 && (ret >= 2 <==> ret0 >= 2) && (ret % 2 == 1 <==> ret0 % 2 == 1 || SomeInvalid(valid[..], lo, i))
    {
      ghost var before := valid[..];
      var open := SignOpen(es[i].m, es[i].pk, es[i].rs, tables, g, BASE);
      valid[i] := if open == 0 then 1 else 0;
      ret := OrInvalid(ret, valid[i]);
      InvalidStep(before, valid[..], lo, i);
    }
  }

  lemma InvalidStep(before: seq<int>, after: seq<int>, lo: nat, i: nat)
    requires lo <= i < |before| == |after| && forall k :: 0 <= k < i ==> before[k] == after[k]
    ensures SomeInvalid(after, lo, i + 1) <==> SomeInvalid(before, lo, i) || after[i] == 0
  {
  }

  /** The entries of the batch that starts at b. */
  function Batch(es: seq<Entry>, b: nat): (c: seq<Entry>)
    requires b <= |es|
  {
    es[b..if |es| - b > MAX_BATCH_SIZE then b + MAX_BATCH_SIZE else |es|]
  }

  /** Batches start at multiples of 64 as long as more than three entries are left. */
  predicate StartsBatch(es: seq<Entry>, b: nat) {
    b % MAX_BATCH_SIZE == 0 && b + 3 < |es|
  }

  /** The start of the batch that entry i belongs to. */
  function BatchStart(i: nat): (b: nat)
    ensures b <= i
  {
    i - i % MAX_BATCH_SIZE
  }

  /** What the verdict on entry i says about its batch. */
  ghost predicate Explained(es: seq<Entry>, i: nat, verdict: Verdict, g: Group<Point>)
    requires i < |es|
  {
    var b := BatchStart(i);
    match verdict
    case Alone => !StartsBatch(es, b)
    case NotDecoded => StartsBatch(es, b) && SomeUndecodable(Batch(es, b))
    case Passed => StartsBatch(es, b) && SumChecked(Batch(es, b), g, true)
    case SumFailed => StartsBatch(es, b) && SumChecked(Batch(es, b), g, false)
  }

  /** The verdicts on the first k entries: an entry is valid if its batch passed or it opens by itself. */
  ghost predicate Judged(es: seq<Entry>, valid: seq<int>, verdicts: seq<Verdict>, k: nat, g: Group<Point>)
    requires IsPoint(BASE)
  {
    k <= |valid| == |es| && |verdicts| == k &&
    (forall i :: 0 <= i < k ==> Explained(es, i, verdicts[i], g)) &&
    forall i :: 0 <= i < k ==> valid[i] == if verdicts[i].Passed? || Good(es[i], g) then 1 else 0
  }

  /** Bit 0 of the result: some entry is invalid. Bit 1: some batch's sum failed. */
  ghost predicate Reported(ret: nat, valid: seq<int>, verdicts: seq<Verdict>, k: nat) {
    ret < 4 && (ret % 2 == 1 <==> SomeInvalid(valid, 0, k)) && (ret >= 2 <==> SumFailed in verdicts)
  }

  lemma JudgedStep(es: seq<Entry>, before: seq<int>, valid: seq<int>, verdicts: seq<Verdict>, k: nat, hi: nat,
                   verdict: Verdict, g: Group<Point>)
    requires IsPoint(BASE) && Judged(es, before, verdicts, k, g) && k <= hi <= |es| == |valid|
    requires forall i :: 0 <= i < k ==> valid[i] == before[i]
    requires forall i :: k <= i < hi ==> Explained(es, i, verdict, g)
    requires forall i :: k <= i < hi ==> valid[i] == if verdict.Passed? || Good(es[i], g) then 1 else 0
    ensures Judged(es, valid, verdicts + seq(hi - k, i => verdict), hi, g)
  {
    hide Explained, Good, IsPoint, BASE;
  }

  lemma ReportedStep(ret0: nat, ret: nat, before: seq<int>, valid: seq<int>, verdicts: seq<Verdict>, k: nat, hi: nat,
                     verdict: Verdict)
    requires Reported(ret0, before, verdicts, k) && k <= hi <= |valid| == |before|
    requires forall i :: 0 <= i < k ==> valid[i] == before[i]
    requires ret < 4 && (ret % 2 == 1 <==> ret0 % 2 == 1 || SomeInvalid(valid, k, hi))
    requires ret >= 2 <==> ret0 >= 2 || (verdict.SumFailed? && k < hi)
    ensures Reported(ret, valid, verdicts + seq(hi - k, i => verdict), hi)
  {
    InvalidSplit(before, valid, k, hi);
    var more := seq(hi - k, i => verdict);
    assert SumFailed in verdicts + more <==> SumFailed in verdicts || SumFailed in more;
    if verdict.SumFailed? && k < hi {
      assert more[0] == SumFailed;
    }
  }

  lemma InvalidSplit(before: seq<int>, after: seq<int>, k: nat, hi: nat)
    requires k <= hi <= |after| == |before| && forall i :: 0 <= i < k ==> after[i] == before[i]
    ensures SomeInvalid(after, 0, hi) <==> SomeInvalid(before, 0, k) || SomeInvalid(after, k, hi)
  {
  }

  /** All entries of a batch share its start. */
  lemma SharedStart(es: seq<Entry>, b: nat, size: nat, verdict: Verdict, g: Group<Point>)
    requires b % MAX_BATCH_SIZE == 0 && b + size <= |es| && size <= MAX_BATCH_SIZE
    requires size > 0 ==> Explained(es, b, verdict, g)
    ensures forall i :: b <= i < b + size ==> Explained(es, i, verdict, g)
  {
    hide SumChecked, SomeUndecodable, Batch;
    forall i | b <= i < b + size
      ensures Explained(es, i, verdict, g)
    {
      DivModUnique(i, MAX_BATCH_SIZE, b / MAX_BATCH_SIZE, i - b);
    }
  }

  lemma BatchAt(es: seq<Entry>, b: nat)
    requires StartsBatch(es, b)
    ensures var size := if |es| - b > MAX_BATCH_SIZE then MAX_BATCH_SIZE else |es| - b;
            Batch(es, b) == es[b..b + size] && |Batch(es, b)| == size && 4 <= size <= MAX_BATCH_SIZE
  {
  }

  /** Lines 217-258: one batch, with the fallback to opening each signature. */
  method OneBatch(es: seq<Entry>, b: nat, size: nat, h: Heap, tables: Tables, valid: array<int>, ret0: nat,
                  ghost verdicts: seq<Verdict>, ghost g: Group<Point>) returns (ret: nat, ghost verdict: Verdict)
    requires IsPoint(BASE) && Setting(g, BASE, tables) && StartsBatch(es, b) && SumDefined(Batch(es, b))
    requires size == if |es| - b > MAX_BATCH_SIZE then MAX_BATCH_SIZE else |es| - b
    requires h.points.Length == h.scalars.Length == h.heap.Length == HEAP_BATCH_SIZE && valid.Length == |es|
    requires Judged(es, valid[..], verdicts, b, g) && Reported(ret0, valid[..], verdicts, b)
    requires forall i :: b <= i < |es| ==> valid[i] == 1
    modifies valid, h.scalars, h.points, h.heap, h`size
    ensures Judged(es, valid[..], verdicts + seq(size, i => verdict), b + size, g)
    ensures Reported(ret, valid[..], verdicts + seq(size, i => verdict), b + size)
    ensures forall i :: b + size <= i < |es| ==> valid[i] == 1
  {
    hide EdwardsGroup, Fermat, SlidingTable, BaseTable, IsPoint, BASE, Judged, Reported, SumDefined, Batch, Good, SumChecked,
      SomeUndecodable, SomeInvalid;
    BatchAt(es, b);
    ghost var before := valid[..];
    var v := CheckBatch(h, es[b..b + size], g);
    SharedStart(es, b, size, v, g);
    ReportedBound(ret0, valid[..], verdicts, b);
    ret := ret0;
    if v.Passed? {
      NoneInvalid(valid[..], b, b + size);
    } else {
      if v.SumFailed? {
        ret := OrFailed(ret);
      }
      ret := OpenEach(es, b, b + size, tables, valid, ret, g);
    }
    JudgedStep(es, before, valid[..], verdicts, b, b + size, v, g);
    ReportedStep(ret0, ret, before, valid[..], verdicts, b, b + size, v);
    verdict := v;
  }

  lemma ReportedBound(ret: nat, valid: seq<int>, verdicts: seq<Verdict>, k: nat)
    requires Reported(ret, valid, verdicts, k)
    ensures ret < 4
  {
  }

  lemma NoneInvalid(valid: seq<int>, lo: nat, hi: nat)
    requires hi <= |valid| && forall i :: lo <= i < hi ==> valid[i] == 1
    ensures !SomeInvalid(valid, lo, hi)
  {
  }

  lemma NothingYet(es: seq<Entry>, valid: seq<int>, g: Group<Point>)
    requires IsPoint(BASE) && |valid| == |es|
    ensures Judged(es, valid, [], 0, g) && Reported(0, valid, [], 0)
  {
  }

  /** What is left after the batches is too little for another. */
  lemma RestAlone(es: seq<Entry>, b: nat, g: Group<Point>)
    requires b <= |es| <= b + 3 && (b % MAX_BATCH_SIZE == 0 || b == |es|)
    ensures forall i :: b <= i < |es| ==> Explained(es, i, Alone, g)
  {
  }

  /** ed25519_sign_open_batch */
  method SignOpenBatch(es: seq<Entry>, tables: Tables, valid: array<int>, ghost g: Group<Point>)
    returns (ret: nat, ghost verdicts: seq<Verdict>)
    requires IsPoint(BASE) && Setting(g, BASE, tables) && valid.Length == |es|
    requires forall b: nat :: StartsBatch(es, b) ==> SumDefined(Batch(es, b))
    modifies valid
    ensures Judged(es, valid[..], verdicts, |es|, g) && Reported(ret, valid[..], verdicts, |es|)
    ensures |verdicts| == |es| && forall i :: 0 <= i < |es| ==> (verdicts[i].Alone? <==> |es| - (i - i % 64) <= 3)
  {
    hide Setting, IsPoint, BASE, Judged, Reported, SumDefined, Batch, Explained;
    var h := new Heap(seq(HEAP_BATCH_SIZE, i => NEUTRAL_GE), seq(HEAP_BATCH_SIZE, i => [0, 0, 0, 0, 0]));
    for i := 0 to |es|
      invariant forall k :: 0 <= k < i ==> valid[k] == 1
    {
      valid[i] := 1;
    }
    ret, verdicts := 0, [];
    var b := 0;
    NothingYet(es, valid[..], g);
    while |es| - b > 3
      invariant 0 <= b <= |es| && (b % MAX_BATCH_SIZE == 0 || b == |es|)
      invariant forall i :: b <= i < |es| ==> valid[i] == 1
      invariant Judged(es, valid[..], verdicts, b, g) && Reported(ret, valid[..], verdicts, b)
    {
      var batchsize := if |es| - b > MAX_BATCH_SIZE then MAX_BATCH_SIZE else |es| - b;
      ghost var verdict;
      ret, verdict := OneBatch(es, b, batchsize, h, tables, valid, ret, verdicts, g);
      verdicts := verdicts + seq(batchsize, i => verdict);
      b := b + batchsize;
    }
    ghost var before, ret0 := valid[..], ret;
    ReportedBound(ret, valid[..], verdicts, b);
    ret := OpenEach(es, b, |es|, tables, valid, ret, g);
    RestAlone(es, b, g);
    JudgedStep(es, before, valid[..], verdicts, b, |es|, Alone, g);
    ReportedStep(ret0, ret, before, valid[..], verdicts, b, |es|, Alone);
    verdicts := verdicts + seq(|es| - b, i => Alone);
    OnlyRestAlone(es, valid[..], verdicts, g);
  }

  /** Only a rest of at most three after the last full batch is opened without a batch check. */
  lemma OnlyRestAlone(es: seq<Entry>, valid: seq<int>, verdicts: seq<Verdict>, g: Group<Point>)
    requires IsPoint(BASE) && Judged(es, valid, verdicts, |es|, g)
    ensures |verdicts| == |es| && forall i :: 0 <= i < |es| ==> (verdicts[i].Alone? <==> |es| - (i - i % 64) <= 3)
  {
    hide IsPoint, BASE, Good, SumChecked, SomeUndecodable, Batch;
    forall i | 0 <= i < |es|
      ensures verdicts[i].Alone? <==> |es| - (i - i % 64) <= 3
    {
      assert Explained(es, i, verdicts[i], g);
      BatchStarts(i);
    }
  }

  lemma BatchStarts(i: nat)
    ensures BatchStart(i) == i - i % 64 && BatchStart(i) % MAX_BATCH_SIZE == 0
  {
    DivModUnique(i - i % 64, 64, i / 64, 0);
  }

  // ---- valid batches -----------------------------------------------------------------------------------

  /** Every entry verifies, under a key of order dividing m, and all the scalars come in. */
  ghost predicate ValidBatch(es: seq<Entry>, g: Group<Point>)
    requires IsPoint(BASE)
  {
    (forall i :: 0 <= i < |es| ==> Good(es[i], g) && KeyKilled(es[i], g)) && AllJoin(BatchScalars(es), 2 * |es| + 1)
  }

  ghost predicate KeyKilled(e: Entry, g: Group<Point>) {
    forall q: Point :: Decodes(e.pk, q) ==> Times(g, M, q) == g.zero
  }

  /** A verified entry decodes, key and signature point. */
  lemma GoodDecodes(e: Entry, tables: Tables, g: Group<Point>)
    requires IsPoint(BASE) && Setting(g, BASE, tables) && Good(e, g)
    ensures !Undecodable(e.pk) && !Undecodable(e.rs[..32])
  {
    hide EdwardsGroup, Fermat, SlidingTable, BaseTable, IsPoint, BASE, Decodes, Encodes, Times, Comb, LeVal, Challenge;
    var neg: Point :| Decodes(e.pk, neg) && Accepts(e.m, e.pk, e.rs, neg, g, BASE);
    var r := Comb(g, Challenge(e.rs[..32], e.pk, e.m), neg, LeVal(e.rs[32..]) % M, BASE);
    EncodedDecodes(e.rs[..32], g, r);
  }

  lemma ValidBatchVerifies(es: seq<Entry>, g: Group<Point>, a: seq<Point>)
    requires IsPoint(BASE) && ValidBatch(es, g) && BatchPoints(a, es, BASE)
    ensures |a| == 2 * |es| + 1 && AllVerify(es, a, g, BASE)
  {
    hide IsPoint, BASE, Decodes, Times, Verifies, AllJoin, BatchScalars;
    PointCount(a, es, BASE);
    forall i | 0 <= i < |es|
      ensures KeyVerifies(es[i], a[1 + i], g, BASE)
    {
      assert Good(es[i], g) && KeyKilled(es[i], g);
      PointsOf(a, es, BASE, i);
    }
  }

  /** No entry of a valid batch falls back to being opened by itself. */
  lemma ValidBatchVerdict(es: seq<Entry>, i: nat, verdict: Verdict, tables: Tables, g: Group<Point>)
    requires IsPoint(BASE) && Setting(g, BASE, tables) && Prime(M) && i < |es| && Explained(es, i, verdict, g)
    requires StartsBatch(es, BatchStart(i)) ==> ValidBatch(Batch(es, BatchStart(i)), g)
    ensures verdict.Passed? || verdict.Alone?
  {
    hide Setting, IsPoint, BASE, Prime, Batch, ValidBatch, SomeUndecodable, Checked, BatchStart;
    if verdict.SumFailed? {
      var c := Batch(es, BatchStart(i));
      var a :| Checked(c, g, a, false);
      NeverFails(c, tables, g, a);
    } else if verdict.NotDecoded? {
      AlwaysDecodes(Batch(es, BatchStart(i)), tables, g);
    }
  }

  lemma NeverFails(es: seq<Entry>, tables: Tables, g: Group<Point>, a: seq<Point>)
    requires IsPoint(BASE) && Setting(g, BASE, tables) && Prime(M) && ValidBatch(es, g)
    ensures !Checked(es, g, a, false)
  {
    hide Setting, IsPoint, BASE, Prime, BatchPoints, SumDefined, Ready, Computed, AllVerify, BatchScalars, AllJoin, Good, KeyKilled;
    if Checked(es, g, a, false) {
      ValidBatchVerifies(es, g, a);
      ValidBatchPasses(es, tables, g, a, false);
    }
  }

  lemma AlwaysDecodes(es: seq<Entry>, tables: Tables, g: Group<Point>)
    requires IsPoint(BASE) && Setting(g, BASE, tables) && ValidBatch(es, g)
    ensures !SomeUndecodable(es)
  {
    hide Setting, IsPoint, BASE, Good, Undecodable, AllJoin, BatchScalars, KeyKilled;
    forall i | 0 <= i < |es|
      ensures !Undecodable(es[i].pk) && !Undecodable(es[i].rs[..32])
    {
      GoodDecodes(es[i], tables, g);
    }
  }

  /** When every entry verifies and every batch is valid, the driver returns 0 and marks every entry. */
  lemma AllValidReturnsZero(es: seq<Entry>, valid: seq<int>, verdicts: seq<Verdict>, ret: nat, tables: Tables, g: Group<Point>)
    requires IsPoint(BASE) && Setting(g, BASE, tables) && Prime(M)
    requires Judged(es, valid, verdicts, |es|, g) && Reported(ret, valid, verdicts, |es|)
    requires forall i :: 0 <= i < |es| ==> Good(es[i], g)
    requires forall b: nat :: StartsBatch(es, b) ==> ValidBatch(Batch(es, b), g)
    ensures ret == 0 && forall i :: 0 <= i < |es| ==> valid[i] == 1
  {
    hide Setting, IsPoint, BASE, Prime, Good, Explained, ValidBatch, Batch, BatchStart;
    forall i | 0 <= i < |es|
      ensures verdicts[i] != SumFailed
    {
      ValidBatchVerdict(es, i, verdicts[i], tables, g);
    }
  }

  // ---- batches with a bad signature --------------------------------------------------------------------

  /** Key and signature point have order dividing m. */
  ghost predicate EntryKilled(e: Entry, g: Group<Point>) {
    KeyKilled(e, g) && forall q: Point :: Decodes(e.rs[..32], q) ==> Times(g, M, q) == g.zero
  }

  /** The entry decodes to points that miss the signature equation. */
  ghost predicate Defective(e: Entry, g: Group<Point>)
    requires IsPoint(BASE)
  {
    forall neg: Point, rneg: Point ::
      Decodes(e.pk, neg) && Decodes(e.rs[..32], rneg) ==> Defect(g, BASE, e, neg, rneg) != g.zero
  }

  lemma EntriesKilled(es: seq<Entry>, g: Group<Point>, a: seq<Point>)
    requires IsPoint(BASE) && BatchPoints(a, es, BASE) && Times(g, M, BASE) == g.zero
    requires forall j :: 0 <= j < |es| ==> EntryKilled(es[j], g)
    ensures |a| == 2 * |es| + 1 && a[0] == BASE && Killed(g, M, a, |a|)
  {
    hide IsPoint, BASE, Decodes, Times;
    var n := |es|;
    forall j | 0 <= j < 2 * n + 1
      ensures Times(g, M, a[j]) == g.zero
    {
      if 0 < j <= n {
        PointsOf(a, es, BASE, j - 1);
        assert EntryKilled(es[j - 1], g);
      } else if j > n {
        PointsOf(a, es, BASE, j - n - 1);
        assert EntryKilled(es[j - n - 1], g);
      }
    }
  }

  lemma BatchReweighed(es: seq<Entry>, es': seq<Entry>, i: nat)
    requires Reweighed(es, es', i) && StartsBatch(es, BatchStart(i))
    ensures var b := BatchStart(i);
            i - b < |Batch(es, b)| && Batch(es, b)[i - b] == es[i] && Batch(es', b)[i - b] == es'[i] &&
            Reweighed(Batch(es, b), Batch(es', b), i - b)
  {
    var b := BatchStart(i);
    assert i - b < MAX_BATCH_SIZE;
    assert Batch(es', b) == Batch(es, b)[i - b := es'[i]];
  }

  /** One batch: at most one choice of a defective entry's random bytes passes. */
  lemma OneWeightChecked(es: seq<Entry>, es': seq<Entry>, i: nat, tables: Tables, g: Group<Point>)
    requires IsPoint(BASE) && Setting(g, BASE, tables) && Prime(M) && Reweighed(es, es', i) && Defective(es[i], g)
    requires SumChecked(es, g, true) && SumChecked(es', g, true)
    requires forall j :: 0 <= j < |es| ==> EntryKilled(es[j], g)
    requires AllJoin(BatchScalars(es), 2 * |es| + 1) && AllJoin(BatchScalars(es'), 2 * |es| + 1)
    ensures es' == es
  {
    hide EdwardsGroup, Fermat, SlidingTable, BaseTable, IsPoint, BASE, Prime, BatchPoints, Computed, Times, BatchScalars, AllJoin,
      Ready, SumDefined, EntryKilled, Defect, Decodes, Killed;
    var a :| Checked(es, g, a, true);
    var a' :| Checked(es', g, a', true);
    EntriesKilled(es, g, a);
    PointsOf(a, es, BASE, i);
    OneWeightPasses(es, es', i, g, a, a');
  }

  /** The driver: two runs that differ in the random bytes of one defective entry, all scalars
      coming in, do not both let its batch pass. */
  lemma OneWeightVerdict(es: seq<Entry>, es': seq<Entry>, i: nat, tables: Tables, g: Group<Point>)
    requires IsPoint(BASE) && Setting(g, BASE, tables) && Prime(M) && Reweighed(es, es', i) && Defective(es[i], g)
    requires Explained(es, i, Passed, g) && Explained(es', i, Passed, g)
    requires var b := BatchStart(i);
             (forall j :: 0 <= j < |Batch(es, b)| ==> EntryKilled(Batch(es, b)[j], g)) &&
             AllJoin(BatchScalars(Batch(es, b)), 2 * |Batch(es, b)| + 1) &&
             AllJoin(BatchScalars(Batch(es', b)), 2 * |Batch(es, b)| + 1)
    ensures es' == es
  {
    hide Setting, IsPoint, BASE, Prime, BatchScalars, AllJoin, EntryKilled, Defective, SumChecked, Batch, BatchStart;
    var b := BatchStart(i);
    BatchReweighed(es, es', i);
    OneWeightChecked(Batch(es, b), Batch(es', b), i - b, tables, g);
  }
}
