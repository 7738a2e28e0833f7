/** The sum of [scalar]point over a batch, by the Bos-Carter method
    (src/ed25519-donna/ed25519-donna-batchverify.h, 150-188). */
module MultiScalar {
  import opened Words
  import Powers
  import opened AbelianGroups
  import opened Edwards
  import opened CurveOps
  import opened ModmLimbs
  import opened ModmBatch
  import opened HeapOrder
  import opened BatchHeap
  import opened Euclid
  import opened BosCarter
  import opened Ladder
  import opened DoubleMult

  const TWO127: int := 0x80000000000000000000000000000000

  ghost predicate Stand(points: seq<Ge>, a: seq<Point>, n: nat) {
    n <= |points| && n <= |a| && forall i :: 0 <= i < n ==> Full(points[i], a[i])
  }

  /** At least two of the first n are nonzero. */
  ghost predicate TwoNonzero(v: seq<int>, n: nat) {
    exists i, j :: 0 <= i < j < n <= |v| && v[i] != 0 && v[j] != 0
  }

  /** Some entry of the first n is at least b. */
  ghost predicate Reaches(v: seq<int>, n: nat, b: int) {
    exists i :: 0 <= i < n <= |v| && v[i] >= b
  }

  /** How many scalars the heap starts with: about half, made odd. */
  function InitialSize(count: nat): nat {
    var half := (count + 1) / 2;
    if half % 2 == 0 then half + 1 else half
  }

  lemma InitialSizeFits(count: nat)
    requires count >= 5
    ensures 3 <= InitialSize(count) <= count && InitialSize(count) % 2 == 1
  {
  }

  // ---- one step -----------------------------------------------------------------------------------

  /** Lines 182-184: subtract the second largest from the largest, add the points the other way
      and restore the heap. */
  method Reduce(h: Heap, count: nat, limbsize: nat, max1: nat, max2: nat, ghost g: Group<Point>, ghost a: seq<Point>)
    returns (ghost b: seq<Point>)
    requires EdwardsGroup(g) && Fermat()
    requires 3 <= h.size <= count <= h.heap.Length && h.size % 2 == 1 && limbsize <= 4
    requires Heaped(h.heap[..], h.scalars[..], h.size) && Fitting(h.scalars[..], h.size, limbsize)
    requires Stand(h.points[..], a, count)
    requires max1 == h.heap[0] && TopTwo(Values(h.scalars[..]), h.size, max1, max2)
    modifies h.scalars, h.points, h.heap
    ensures Heaped(h.heap[..], h.scalars[..], h.size) && Fitting(h.scalars[..], h.size, limbsize)
    ensures max1 < |old(Values(h.scalars[..]))| && max2 < |old(Values(h.scalars[..]))| && max1 < |a| && max2 < |a|
    ensures Values(h.scalars[..]) == Lowered(old(Values(h.scalars[..])), max1, max2)
    ensures b == Merged(g, a, max1, max2) && Stand(h.points[..], b, count)
    ensures forall i :: h.size <= i < h.scalars.Length ==> h.scalars[i] == old(h.scalars[i])
  {
    hide EdwardsGroup, Fermat, Full, Ordered, Keys, Values, IsPoint, LowValue, Value, Indices, Sinking, Carried, FitsIn;
    ghost var s := h.scalars[..];
    TopValues(s, h.size, max1, max2, limbsize);
    var d := SubBatch(h.scalars[max1], h.scalars[max2], limbsize);
    Difference(s, d, h.size, max1, max2, limbsize);
    RootLowered(h.heap[..], s, d, h.size);
    h.scalars[max1] := d;
    assert h.scalars[..] == s[max1 := d];
    h.points[max2] := AddPoints(h.points[max2], h.points[max1], g, a[max2], a[max1]);
    b := Merged(g, a, max1, max2);
    h.UpdatedRoot(limbsize);
  }

  /** The two largest compare on their low limbs as their values do. */
  lemma TopValues(s: seq<Limbs>, n: nat, x: nat, y: nat, limbsize: nat)
    requires limbsize <= 4 && Fitting(s, n, limbsize) && TopTwo(Values(s), n, x, y)
    ensures Carried(s[x]) && Carried(s[y]) && FitsIn(s[x], limbsize) && FitsIn(s[y], limbsize)
    ensures LowValue(s[y], limbsize + 1) <= LowValue(s[x], limbsize + 1)
    ensures Value(s[x]) == LowValue(s[x], limbsize + 1) && Value(s[y]) == LowValue(s[y], limbsize + 1)
  {
    hide LowValue, Carried, Value, FitsIn;
    FittingValue(s[x], limbsize);
    FittingValue(s[y], limbsize);
  }

  /** The difference fits again, and the values change at x only. */
  lemma Difference(s: seq<Limbs>, d: Limbs, n: nat, x: nat, y: nat, limbsize: nat)
    requires limbsize <= 4 && Fitting(s, n, limbsize) && x < n && y < n && Carried(d)
    requires Value(s[x]) == LowValue(s[x], limbsize + 1) && Value(s[y]) == LowValue(s[y], limbsize + 1)
    requires LowValue(d, limbsize + 1) == LowValue(s[x], limbsize + 1) - LowValue(s[y], limbsize + 1)
    requires forall i :: limbsize < i < 5 ==> d[i] == s[x][i]
    ensures Fitting(s[x := d], n, limbsize) && Values(s[x := d]) == Lowered(Values(s), x, y)
  {
    hide LowValue, Carried, Value;
    assert FitsIn(d, limbsize);
    FittingValue(d, limbsize);
    var v, w := Values(s[x := d]), Lowered(Values(s), x, y);
    assert forall i :: 0 <= i < |v| ==> v[i] == w[i];
  }

  lemma RootLowered(h: seq<nat>, s: seq<Limbs>, d: Limbs, n: nat)
    requires n > 0 && Heaped(h, s, n)
    ensures Sinking(Keys(h, Values(s[h[0] := d]), n), 0)
  {
    hide Ordered, Sinking, Value;
    var k, r := Keys(h, Values(s), n), Keys(h, Values(s[h[0] := d]), n);
    assert forall i :: 0 < i < n ==> r[i] == k[i];
    RootChanged(k, r);
  }

  /** The scalars from n up to count have at most 128 bits. */
  ghost predicate Short(s: seq<Limbs>, n: nat, count: nat) {
    count <= |s| && forall i :: n <= i < count ==> Value(s[i]) < W128
  }

  // ---- limb sizes -----------------------------------------------------------------------------------

  /** If the top limb in use is zero in the largest scalar, it is zero in all. */
  lemma DropLimb(s: seq<Limbs>, n: nat, x: nat, limbsize: nat)
    requires 0 < limbsize <= 4 && Fitting(s, n, limbsize) && x < n && s[x][limbsize] == 0
    requires forall i :: 0 <= i < n ==> Value(s[i]) <= Value(s[x])
    ensures Fitting(s, n, limbsize - 1)
  {
    hide Value, Carried;
    forall i | 0 <= i < n
      ensures FitsIn(s[i], limbsize - 1)
    {
      TopLimbZero(s[i], s[x], limbsize);
    }
  }

  lemma TopLimbZero(a: Limbs, top: Limbs, limbsize: nat)
    requires 0 < limbsize <= 4 && Carried(a) && Carried(top) && FitsIn(a, limbsize) && FitsIn(top, limbsize)
    requires top[limbsize] == 0 && Value(a) <= Value(top)
    ensures a[limbsize] == 0
  {
    hide Unit, Value, Carried;
    FittingValue(a, limbsize);
    FittingValue(top, limbsize);
    LowValueRange(a, limbsize);
    LowValueRange(top, limbsize);
    if a[limbsize] > 0 {
      MulMonotone(Unit(limbsize), 1, a[limbsize]);
    }
  }

  /** A scalar of 127 bits or more uses limb 2 or a higher one. */
  lemma UsesLimbTwo(a: Limbs, limbsize: nat)
    requires limbsize <= 4 && Carried(a) && FitsIn(a, limbsize) && Value(a) >= TWO127
    ensures limbsize >= 2 && (limbsize == 2 ==> a[2] != 0)
  {
  }

  lemma ZeroLimb(a: Limbs)
    requires FitsIn(a, 0) && a[0] == 0
    ensures Value(a) == 0
  {
  }

  /** A scalar of at most 128 bits fits in limbs 0 to 2, so in any larger window. */
  lemma FitsInThree(a: Limbs, limbsize: nat)
    requires Carried(a) && Value(a) < W128 && limbsize >= 2
    ensures FitsIn(a, limbsize)
  {
  }

  lemma TailFits(s: seq<Limbs>, n: nat, count: nat, limbsize: nat)
    requires n <= count && 2 <= limbsize <= 4 && Fitting(s, n, limbsize) && Fitting(s, count, 4)
    requires Short(s, n, count)
    ensures Fitting(s, count, limbsize)
  {
    hide Value, Carried, FitsIn;
    forall i | n <= i < count
      ensures FitsIn(s[i], limbsize)
    {
      FitsInThree(s[i], limbsize);
    }
  }

  /** A larger set has a second largest at least as large. */
  lemma SecondGrows(v: seq<int>, n: nat, x: nat, y: nat, m: nat, x': nat, y': nat)
    requires n <= m && TopTwo(v, n, x, y) && TopTwo(v, m, x', y')
    ensures v[y] <= v[y'] && v[x] <= v[x']
  {
  }

  /** Lines 171-173: stop looking at a limb that the largest scalar no longer uses. */
  method Shrink(h: Heap, limbsize0: nat, max1: nat, max2: nat) returns (limbsize: nat)
    requires limbsize0 <= 4 && Fitting(h.scalars[..], h.size, limbsize0)
    requires TopTwo(Values(h.scalars[..]), h.size, max1, max2) && Values(h.scalars[..])[max2] > 0
    ensures limbsize <= limbsize0 && Fitting(h.scalars[..], h.size, limbsize)
    ensures limbsize0 == 4 || Values(h.scalars[..])[max1] >= TWO127 ==> limbsize >= 2
  {
    hide Value, Carried;
    limbsize := limbsize0;
    ghost var s := h.scalars[..];
    if Value(s[max1]) >= TWO127 {
      UsesLimbTwo(s[max1], limbsize);
    }
    if h.scalars[max1][limbsize] == 0 {
      if limbsize == 0 {
        ZeroLimb(s[max1]);
        assert false;
      }
      TopIsMax(s, h.size, max1, max2);
      DropLimb(s, h.size, max1, limbsize);
      limbsize := limbsize - 1;
    }
  }

  /** Lines 171-180: fewer limbs, and all the scalars once none is longer than 128 bits. */
  method Prepare(h: Heap, count: nat, limbsize0: nat, extended0: bool, first: nat, second: nat)
    returns (limbsize: nat, extended: bool, max1: nat, max2: nat)
    requires 3 <= h.size <= count <= h.heap.Length && limbsize0 <= 4
    requires Heaped(h.heap[..], h.scalars[..], h.size) && Fitting(h.scalars[..], h.size, limbsize0)
    requires Fitting(h.scalars[..], count, 4)
    requires Short(h.scalars[..], h.size, count)
    requires first == h.heap[0] && TopTwo(Values(h.scalars[..]), h.size, first, second)
    requires Values(h.scalars[..])[second] > 0
    requires extended0 || limbsize0 == 4 || Values(h.scalars[..])[first] >= TWO127
    modifies h.heap, h`size
    ensures h.size == if extended && !extended0 then count else old(h.size)
    ensures limbsize <= limbsize0 && Heaped(h.heap[..], h.scalars[..], h.size) && Fitting(h.scalars[..], h.size, limbsize)
    ensures max1 == h.heap[0] && TopTwo(Values(h.scalars[..]), h.size, max1, max2)
    ensures Values(h.scalars[..])[max2] > 0
    ensures extended <==> extended0 || Values(h.scalars[..])[first] < W128
    ensures !extended ==> max1 == first
  {
    hide Value, Carried, Values, Keys, Indices, Ordered, Fitting, TopTwo, Heaped, Short;
    ghost var v := Values(h.scalars[..]);
    TopBounds(h.scalars[..], h.size, first, second, limbsize0);
    limbsize := Shrink(h, limbsize0, first, second);
    extended, max1, max2 := extended0, first, second;
    if !extended {
      var short := IsAtMost128Bits(h.scalars[first]);
      if short {
        ghost var n := h.size;
        TailFits(h.scalars[..], n, count, limbsize);
        h.Extend(count);
        max1, max2 := h.GetTop2(limbsize);
        SecondGrows(v, n, first, second, count, max1, max2);
        extended := true;
      }
    }
  }

  lemma TopIsMax(s: seq<Limbs>, n: nat, x: nat, y: nat)
    requires TopTwo(Values(s), n, x, y)
    ensures n <= |s| && forall i :: 0 <= i < n ==> Value(s[i]) <= Value(s[x])
  {
    hide Value;
    forall i | 0 <= i < n
      ensures Value(s[i]) <= Value(s[x])
    {
      assert Values(s)[i] <= Values(s)[x];
    }
  }

  lemma TopBounds(s: seq<Limbs>, n: nat, x: nat, y: nat, limbsize: nat)
    requires Fitting(s, n, limbsize) && TopTwo(Values(s), n, x, y)
    ensures x < |s| && y < |s| && Carried(s[x]) && Values(s)[x] == Value(s[x]) && Values(s)[y] == Value(s[y])
  {
  }

  // ---- what holds before and after the heap takes in all the scalars ------------------------------------

  /** Before: the scalars still reach 127 bits unless no limb has been dropped; once a step is
      done, two were nonzero at the start, and two still are or one has over 128 bits. */
  ghost predicate Pending(v: seq<int>, v0: seq<int>, n: nat, limbsize: nat, stepped: bool) {
    (limbsize == 4 || Reaches(v, n, TWO127)) &&
    if stepped then TwoNonzero(v0, n) && (TwoNonzero(v, n) || Reaches(v, n, W128)) else v == v0
  }

  /** After: two were nonzero at the start, and the common divisors have at most 128 bits. */
  ghost predicate Joined(v0: seq<int>, n: nat, count: nat) {
    n <= count && NonNegative(v0, count) && TwoNonzero(v0, n) && GcdOf(v0, n) < W128 && 0 < GcdOf(v0, count) < W128
  }

  lemma NonzeroPair(v: seq<int>, n: nat, x: nat, y: nat)
    requires x < n <= |v| && y < n && x != y && v[x] != 0 && v[y] != 0
    ensures TwoNonzero(v, n)
  {
    if x < y {
      assert v[x] != 0 && v[y] != 0;
    } else {
      assert v[y] != 0 && v[x] != 0;
    }
  }

  lemma PendingStep(v: seq<int>, v0: seq<int>, n: nat, x: nat, y: nat, limbsize: nat, next: nat, stepped: bool)
    requires Pending(v, v0, n, limbsize, stepped) && TopTwo(v, n, x, y) && v[y] > 0 && v[x] >= W128
    ensures Pending(Lowered(v, x, y), v0, n, next, true)
  {
    hide TwoNonzero;
    NonzeroPair(v, n, x, y);
    var w := Lowered(v, x, y);
    assert w[x] == v[x] - v[y] && w[y] == v[y];
    if w[x] > 0 {
      NonzeroPair(w, n, x, y);
    }
  }

  lemma Join<T(!new)>(g: Group<T>, v: seq<int>, a: seq<T>, v0: seq<int>, a0: seq<T>, n: nat, count: nat,
                      x: nat, y: nat, limbsize: nat, stepped: bool)
    requires Pending(v, v0, n, limbsize, stepped) && TopTwo(v, n, x, y) && 0 < v[y] && v[x] < W128
    requires n <= count && Conserved(g, v, a, v0, a0, n) && Conserved(g, v, a, v0, a0, count)
    ensures Joined(v0, n, count)
  {
    hide TwoNonzero, Reaches, GcdOf, SumTimes;
    NonzeroPair(v, n, x, y);
    GcdAtMost(v, n, x);
    GcdAtMost(v, count, x);
  }

  // ---- the whole run --------------------------------------------------------------------------------------

  /** The state between steps. */
  ghost predicate Running(g: Group<Point>, v: seq<int>, a: seq<Point>, v0: seq<int>, a0: seq<Point>, count: nat,
                          size: nat, limbsize: nat, extended: bool, stepped: bool) {
    var n := InitialSize(count);
    Conserved(g, v, a, v0, a0, count) &&
    if extended then size == count && Joined(v0, n, count)
    else size == n && Conserved(g, v, a, v0, a0, n) && Pending(v, v0, n, limbsize, stepped)
  }

  lemma RunStep(g: Group<Point>, v: seq<int>, a: seq<Point>, v0: seq<int>, a0: seq<Point>, count: nat,
                size0: nat, limbsize0: nat, extended0: bool, stepped: bool, x0: nat, y0: nat,
                size: nat, limbsize: nat, extended: bool, x: nat, y: nat)
    requires Abelian(g) && count >= 5 && Running(g, v, a, v0, a0, count, size0, limbsize0, extended0, stepped)
    requires TopTwo(v, size0, x0, y0) && v[y0] > 0 && TopTwo(v, size, x, y) && v[y] > 0
    requires extended <==> extended0 || v[x0] < W128
    requires size == (if extended && !extended0 then count else size0) && (!extended ==> x == x0)
    ensures x < |a| && y < |a| && Running(g, Lowered(v, x, y), Merged(g, a, x, y), v0, a0, count, size, limbsize, extended, true)
  {
    hide Abelian, Conserved, Pending, Joined, Lowered, Merged, InitialSize;
    InitialSizeFits(count);
    var n := InitialSize(count);
    ConservedBounds(g, v, a, v0, a0, count);
    StepConserves(g, v, a, v0, a0, count, x, y);
    if extended && !extended0 {
      Join(g, v, a, v0, a0, n, count, x0, y0, limbsize0, stepped);
    } else if !extended {
      StepConserves(g, v, a, v0, a0, n, x, y);
      PendingStep(v, v0, n, x, y, limbsize0, limbsize, stepped);
    }
  }

  lemma ConservedBounds(g: Group<Point>, v: seq<int>, a: seq<Point>, v0: seq<int>, a0: seq<Point>, k: nat)
    requires Conserved(g, v, a, v0, a0, k)
    ensures k <= |v| && k <= |a| && NonNegative(v, k)
  {
  }

  // ---- the result, as a function of the scalars and points -------------------------------------------------

  /** The heap takes in all the scalars: two of the first ones are nonzero, and their common divisor has
      at most 128 bits. */
  ghost predicate AllJoin(v: seq<int>, count: nat) {
    var n := InitialSize(count);
    NonNegative(v, n) && TwoNonzero(v, n) && GcdOf(v, n) < W128
  }

  /** How many scalars come in. */
  ghost function Taken(v: seq<int>, count: nat): nat {
    if AllJoin(v, count) then count else InitialSize(count)
  }

  ghost predicate Ready(v: seq<int>, count: nat) {
    InitialSize(count) <= count && NonNegative(v, count)
  }

  /** The scalar left at the end: the common divisor of those that came in. */
  ghost function Residue(v: seq<int>, count: nat): nat
    requires Ready(v, count)
  {
    GcdOf(v, Taken(v, count))
  }

  /** The point left at the end: the sum with the common divisor taken out of the scalars. */
  ghost function Share(g: Group<Point>, v: seq<int>, a: seq<Point>, count: nat): Point
    requires Ready(v, count) && count <= |a|
  {
    var d := Residue(v, count);
    if d == 0 then g.zero else SumTimes(g, Divided(v, d), a, Taken(v, count))
  }

  /** The point returned. */
  ghost function Computed(g: Group<Point>, v: seq<int>, a: seq<Point>, count: nat): Point
    requires Ready(v, count) && count <= |a|
  {
    Times(g, LadderScalar(Residue(v, count)), Share(g, v, a, count))
  }

  /** When the second largest is zero, one scalar is left: the common divisor. */
  lemma OneLeft(g: Group<Point>, v: seq<int>, a: seq<Point>, v0: seq<int>, a0: seq<Point>, k: nat, x: nat, y: nat)
    requires Abelian(g) && Conserved(g, v, a, v0, a0, k) && TopTwo(v, k, x, y) && v[y] == 0
    ensures x < |a| && v[x] == GcdOf(v0, k) && !TwoNonzero(v, k)
    ensures v[x] > 0 ==> a[x] == SumTimes(g, Divided(v0, v[x]), a0, k)
  {
    hide Abelian, SumTimes, GcdOf, Times;
    assert forall i :: 0 <= i < k && i != x ==> v[i] == 0;
    GcdSingle(v, k, x);
    if v[x] > 0 {
      var w := Divided(v, v[x]);
      SelfQuotient(v[x]);
      SumSingle(g, w, a, k, x);
      TimesOne(g, a[x]);
    }
  }

  lemma SelfQuotient(d: nat)
    requires d > 0
    ensures d / d == 1 && 0 / d == 0
  {
  }

  lemma RunEnds(g: Group<Point>, v: seq<int>, a: seq<Point>, v0: seq<int>, a0: seq<Point>, count: nat,
                size: nat, limbsize: nat, extended: bool, stepped: bool, x: nat, y: nat)
    requires Abelian(g) && count >= 5 && Running(g, v, a, v0, a0, count, size, limbsize, extended, stepped)
    requires TopTwo(v, size, x, y) && v[y] == 0
    requires Ready(v0, count) && LadderDefined(GcdOf(v0, InitialSize(count)))
    ensures count <= |a0| && size == Taken(v0, count) && x < |a| && v[x] == Residue(v0, count)
    ensures LadderDefined(v[x]) && (v[x] > 0 ==> a[x] == Share(g, v0, a0, count))
  {
    hide Abelian, SumTimes, GcdOf, Times, TwoNonzero, InitialSize;
    InitialSizeFits(count);
    OneLeft(g, v, a, v0, a0, size, x, y);
    if !extended {
      NotJoined(v, v0, size, limbsize, stepped, x);
    }
  }

  /** Stopping early: fewer than two scalars were nonzero, or their divisor has over 128 bits. */
  lemma NotJoined(v: seq<int>, v0: seq<int>, n: nat, limbsize: nat, stepped: bool, x: nat)
    requires NonNegative(v, n) && Pending(v, v0, n, limbsize, stepped) && !TwoNonzero(v, n) && x < n
    requires forall i :: 0 <= i < n ==> v[i] <= v[x]
    ensures !TwoNonzero(v0, n) || v[x] >= W128
  {
    hide TwoNonzero;
  }

  lemma RunStarts(g: Group<Point>, v0: seq<int>, a0: seq<Point>, count: nat)
    requires count >= 5 && NonNegative(v0, count) && count <= |a0|
    ensures Running(g, v0, a0, v0, a0, count, InitialSize(count), 4, false, false)
  {
    hide SumTimes, GcdOf;
  }

  lemma FittingPrefix(s: seq<Limbs>, n: nat, count: nat)
    requires n <= count && Fitting(s, count, 4)
    ensures Fitting(s, n, 4)
  {
  }

  lemma StandAt(points: seq<Ge>, a: seq<Point>, n: nat, i: nat)
    requires Stand(points, a, n) && i < n
    ensures i < |points| && i < n <= |a| && Full(points[i], a[i])
  {
  }

  /** Scalars outside the heap are untouched, so the bounds on all of them stay. */
  lemma TailKept(s: seq<Limbs>, t: seq<Limbs>, n: nat, count: nat, limbsize: nat)
    requires n <= count && Fitting(s, count, 4) && Short(s, n, count) && Fitting(t, n, limbsize) && |t| == |s|
    requires forall i :: n <= i < |s| ==> t[i] == s[i]
    ensures Fitting(t, count, 4) && Short(t, n, count)
  {
    hide Value, Carried;
  }

  /** The largest of a pending run, as Prepare asks for it. */
  lemma PendingTop(g: Group<Point>, v: seq<int>, a: seq<Point>, v0: seq<int>, a0: seq<Point>, count: nat,
                   size: nat, limbsize: nat, extended: bool, stepped: bool, x: nat, y: nat)
    requires Running(g, v, a, v0, a0, count, size, limbsize, extended, stepped) && TopTwo(v, size, x, y)
    ensures extended || limbsize == 4 || v[x] >= TWO127
  {
    hide TwoNonzero, Conserved, Joined;
  }

  /** Lines 171-184: one turn of the loop. */
  method Advance(h: Heap, count: nat, limbsize0: nat, extended0: bool, ghost stepped: bool, first: nat, second: nat,
                 ghost g: Group<Point>, ghost a: seq<Point>, ghost v0: seq<int>, ghost a0: seq<Point>)
    returns (limbsize: nat, extended: bool, ghost b: seq<Point>)
    requires EdwardsGroup(g) && Fermat() && 5 <= count <= h.heap.Length && count % 2 == 1
    requires limbsize0 <= 4 && 3 <= h.size <= count && h.size % 2 == 1
    requires Heaped(h.heap[..], h.scalars[..], h.size) && Fitting(h.scalars[..], h.size, limbsize0)
    requires Fitting(h.scalars[..], count, 4) && Short(h.scalars[..], h.size, count) && Stand(h.points[..], a, count)
    requires Running(g, Values(h.scalars[..]), a, v0, a0, count, h.size, limbsize0, extended0, stepped)
    requires first == h.heap[0] && TopTwo(Values(h.scalars[..]), h.size, first, second)
    requires Values(h.scalars[..])[second] > 0 && NonNegative(Values(h.scalars[..]), count)
    modifies h.scalars, h.points, h.heap, h`size
    ensures limbsize <= 4 && 3 <= h.size <= count && h.size % 2 == 1
    ensures Heaped(h.heap[..], h.scalars[..], h.size) && Fitting(h.scalars[..], h.size, limbsize)
    ensures Fitting(h.scalars[..], count, 4) && Short(h.scalars[..], h.size, count) && Stand(h.points[..], b, count)
    ensures Running(g, Values(h.scalars[..]), b, v0, a0, count, h.size, limbsize, extended, true)
    ensures NonNegative(Values(h.scalars[..]), count)
    ensures Total(Values(h.scalars[..]), count) < old(Total(Values(h.scalars[..]), count))
  {
    hide EdwardsGroup, Fermat, Abelian, IsPoint, Values, Fitting, Short, Stand, Heaped, TopTwo, Running,
      Value, Total, Lowered, Merged;
    GroupAbelian(g);
    ghost var s, v, size0 := h.scalars[..], Values(h.scalars[..]), h.size;
    PendingTop(g, v, a, v0, a0, count, h.size, limbsize0, extended0, stepped, first, second);
    var max1, max2;
    limbsize, extended, max1, max2 := Prepare(h, count, limbsize0, extended0, first, second);
    ShortSuffix(s, size0, h.size, count);
    RunStep(g, v, a, v0, a0, count, size0, limbsize0, extended0, stepped, first, second, h.size, limbsize, extended, max1, max2);
    TopSmaller(v, h.size, count, max1, max2);
    TotalDrops(v, count, max1, max2);
    b := Reduce(h, count, limbsize, max1, max2, g, a);
    TailKept(s, h.scalars[..], h.size, count, limbsize);
  }

  lemma ShortSuffix(s: seq<Limbs>, n: nat, m: nat, count: nat)
    requires n <= m && Short(s, n, count)
    ensures Short(s, m, count)
  {
  }

  lemma TopSmaller(v: seq<int>, n: nat, count: nat, x: nat, y: nat)
    requires TopTwo(v, n, x, y) && n <= count <= |v|
    ensures x < count && y < count && v[y] <= v[x]
  {
  }

  /** ge25519_multi_scalarmult_vartime */
  method MultiScalarMult(h: Heap, count: nat, ghost g: Group<Point>, ghost a0: seq<Point>)
    returns (r: Ge)
    requires EdwardsGroup(g) && Fermat()
    requires 5 <= count <= h.heap.Length && count % 2 == 1
    requires Fitting(h.scalars[..], count, 4) && Short(h.scalars[..], InitialSize(count), count)
    requires Stand(h.points[..], a0, count) && count <= |a0| && Ready(Values(h.scalars[..]), count)
    requires LadderDefined(GcdOf(Values(h.scalars[..]), InitialSize(count)))
    modifies h.scalars, h.points, h.heap, h`size
    ensures h.size == Taken(old(Values(h.scalars[..])), count)
    ensures Full(r, Computed(g, old(Values(h.scalars[..])), a0, count))
  {
    hide EdwardsGroup, Fermat, Full, Abelian, IsPoint, Values, Fitting, Short, Stand, Heaped, TopTwo, Running, InitialSize,
      Value, GcdOf, Times, SumTimes, LadderDefined, Lowered, Merged, AllJoin, Taken, Residue, Share, LadderScalar;
    ghost var v0, a := Values(h.scalars[..]), a0;
    GroupAbelian(g);
    InitialSizeFits(count);
    var limbsize: nat := 4;
    var ext := false;
    FittingPrefix(h.scalars[..], InitialSize(count), count);
    h.Build(InitialSize(count));
    StandAt(h.points[..], a0, count, 0);
    RunStarts(g, v0, a0, count);
    ghost var stepped := false;
    var max1, max2;
    while true
      invariant limbsize <= 4 && 3 <= h.size <= count && h.size % 2 == 1
      invariant Heaped(h.heap[..], h.scalars[..], h.size) && Fitting(h.scalars[..], h.size, limbsize)
      invariant Fitting(h.scalars[..], count, 4) && Short(h.scalars[..], h.size, count)
      invariant Stand(h.points[..], a, count)
      invariant Running(g, Values(h.scalars[..]), a, v0, a0, count, h.size, limbsize, ext, stepped)
      invariant NonNegative(Values(h.scalars[..]), count)
      decreases Total(Values(h.scalars[..]), count)
    {
      max1, max2 := h.GetTop2(limbsize);
      TopBounds(h.scalars[..], h.size, max1, max2, limbsize);
      var zero := IsZeroBatch(h.scalars[max2]);
      if zero {
        break;
      }
      ValueNonNegative(h.scalars[max2]);
      limbsize, ext, a := Advance(h, count, limbsize, ext, stepped, max1, max2, g, a, v0, a0);
      stepped := true;
    }
    RunEnds(g, Values(h.scalars[..]), a, v0, a0, count, h.size, limbsize, ext, stepped, max1, max2);
    TopBounds(h.scalars[..], h.size, max1, max2, limbsize);
    TopSmaller(Values(h.scalars[..]), h.size, count, max1, max2);
    StandAt(h.points[..], a, count, max1);
    r := FinalMult(h.points[max1], h.scalars[max1], g, a[max1]);
    ZeroResidue(g, a[max1], Share(g, v0, a0, count));
  }

  // ---- when the result is the sum ---------------------------------------------------------------------------

  /** More scalars have a smaller common divisor. */
  lemma GcdShrinks(v: seq<int>, n: nat, count: nat)
    requires n <= count && NonNegative(v, count) && GcdOf(v, n) > 0
    ensures 0 < GcdOf(v, count) <= GcdOf(v, n)
  {
    hide GcdOf, Divides;
    var x := NonzeroEntry(v, n);
    GcdAtMost(v, count, x);
    var d := GcdOf(v, count);
    assert Divides(d, d) by { DividesBy(d, d, 1); }
    CommonDivisors(v, count, d);
    CommonDivisors(v, n, d);
    DivisorAtMost(d, GcdOf(v, n));
  }

  lemma NonzeroEntry(v: seq<int>, n: nat) returns (x: nat)
    requires NonNegative(v, n) && GcdOf(v, n) > 0
    ensures x < n && v[x] > 0
  {
    hide GcdOf;
    if n == 0 {
      GcdOfNone(v);
    } else if forall i :: 0 <= i < n ==> v[i] == 0 {
      GcdSingle(v, n, 0);
      assert false;
    }
    x :| 0 <= x < n && v[x] > 0;
  }

  lemma GcdOfNone(v: seq<int>)
    ensures GcdOf(v, 0) == 0
  {
  }

  lemma ZeroResidue(g: Group<Point>, p: Point, q: Point)
    requires Abelian(g)
    ensures Times(g, LadderScalar(0), p) == Times(g, LadderScalar(0), q)
  {
  }

  /** The residue brings the sum back. */
  lemma ShareTimesResidue(g: Group<Point>, v: seq<int>, a: seq<Point>, count: nat)
    requires Abelian(g) && Ready(v, count) && count <= |a|
    ensures Times(g, Residue(v, count), Share(g, v, a, count)) == SumTimes(g, v, a, Taken(v, count))
  {
    hide Abelian, GcdOf, SumTimes, Times, AllJoin, InitialSize, DividesAll;
    var n := Taken(v, count);
    if Residue(v, count) > 0 {
      GcdDividesAll(v, n);
      SumScaled(g, v, Residue(v, count), a, n);
    } else {
      TimesZero(g, g.zero);
      AllZero(v, n);
      SumZeros(g, v, a, n);
    }
  }

  lemma AllZero(v: seq<int>, n: nat)
    requires NonNegative(v, n) && GcdOf(v, n) == 0
    ensures forall i :: 0 <= i < n ==> v[i] == 0
  {
    hide GcdOf;
    forall i | 0 <= i < n
      ensures v[i] == 0
    {
      if v[i] > 0 {
        GcdAtMost(v, n, i);
      }
    }
  }

  lemma JoinedResidue(v: seq<int>, count: nat)
    requires Ready(v, count) && AllJoin(v, count)
    ensures 0 < Residue(v, count) < W128
  {
    hide GcdOf, InitialSize;
    var n := InitialSize(count);
    var i, j :| 0 <= i < j < n <= |v| && v[i] != 0 && v[j] != 0;
    GcdAtMost(v, n, i);
    GcdShrinks(v, n, count);
  }

  /** The result, whichever scalars came in: their sum of multiples when the common divisor d is 0 or 1,
      and the sum plus [2^k]q when d has k bits, up to 224, where [d]q is the sum. */
  lemma LadderResult(g: Group<Point>, v: seq<int>, a: seq<Point>, count: nat)
    requires Abelian(g) && Ready(v, count) && count <= |a|
    ensures var d := Residue(v, count);
            var q := Share(g, v, a, count);
            var sum := SumTimes(g, v, a, Taken(v, count));
            Times(g, d, q) == sum && (AllJoin(v, count) ==> 0 < d < W128) &&
            (d <= 1 ==> Computed(g, v, a, count) == sum) &&
            (1 < d < TWO224 ==> Computed(g, v, a, count) == g.add(Times(g, Powers.Pow2(BitLength(d)), q), sum))
  {
    hide Abelian, GcdOf, SumTimes, Times, Powers.Pow2, BitLength, AllJoin, Taken, Share, Residue;
    ShareTimesResidue(g, v, a, count);
    if AllJoin(v, count) {
      JoinedResidue(v, count);
    }
    var d := Residue(v, count);
    if 1 < d < TWO224 {
      DivModUnique(d, TWO224, 0, d);
      TimesAdd(g, Powers.Pow2(BitLength(d)), d, Share(g, v, a, count));
    }
  }

  /** Over points of order dividing m, the result is zero exactly when the sum is, for every common
      divisor: what the ladder multiplies by is no multiple of m either. */
  lemma VanishTogether(g: Group<Point>, v: seq<int>, a: seq<Point>, count: nat)
    requires Abelian(g) && Prime(M) && Ready(v, count) && count <= |a| && LadderDefined(Residue(v, count))
    requires Killed(g, M, a, Taken(v, count)) && forall i :: 0 <= i < Taken(v, count) ==> v[i] < M
    ensures Computed(g, v, a, count) == g.zero <==> SumTimes(g, v, a, Taken(v, count)) == g.zero
  {
    hide Abelian, GcdOf, SumTimes, Times, AllJoin, Taken, LadderScalar, LadderDefined, Prime, Killed;
    ShareTimesResidue(g, v, a, count);
    var n, d := Taken(v, count), Residue(v, count);
    if d > 0 {
      TakenReady(v, count);
      var x := NonzeroEntry(v, n);
      GcdAtMost(v, n, x);
      LadderRange(d);
      SumKilled(g, M, Divided(v, d), a, n);
      NoTorsion(g, d, M, Share(g, v, a, count));
      NoTorsion(g, LadderScalar(d), M, Share(g, v, a, count));
    } else {
      TimesZero(g, Share(g, v, a, count));
      LadderOfZero();
    }
  }

  lemma TakenReady(v: seq<int>, count: nat)
    requires Ready(v, count)
    ensures Taken(v, count) <= count && NonNegative(v, Taken(v, count))
  {
  }

  /** Scalars on which the loop ends before all came in: the result is not the sum. */
  lemma EarlyStop(g: Group<Point>, a: seq<Point>)
    requires Abelian(g) && |a| == 5
    ensures var v := [1, 0, 0, 1, 0];
            Ready(v, 5) && !AllJoin(v, 5) && Computed(g, v, a, 5) == a[0] &&
            SumTimes(g, v, a, 5) == g.add(a[0], a[3])
  {
    hide Abelian, Times, GcdOf, Divided;
    var v := [1, 0, 0, 1, 0];
    GcdSingle(v, 3, 0);
    ShareTimesResidue(g, v, a, 5);
    SumSingle(g, v, a, 3, 0);
    TimesOne(g, a[0]);
    TimesOne(g, Share(g, v, a, 5));
    FiveTerms(g, v, a);
  }

  lemma FiveTerms(g: Group<Point>, v: seq<int>, a: seq<Point>)
    requires Abelian(g) && |a| == 5 && v == [1, 0, 0, 1, 0]
    ensures SumTimes(g, v, a, 5) == g.add(a[0], a[3])
  {
    hide Abelian, Times;
    SumSingle(g, v, a, 3, 0);
    TimesOne(g, a[0]);
    TimesOne(g, a[3]);
    TimesZero(g, a[4]);
    Zero(g, g.add(a[0], a[3]));
    assert SumTimes(g, v, a, 4) == g.add(SumTimes(g, v, a, 3), Times(g, 1, a[3]));
  }

  /** A common divisor of 2 makes the ladder multiply by 6. */
  lemma LadderOfTwo()
    ensures LadderScalar(2) == 6
  {
    assert BitLength(1) == 1 + BitLength(0);
    assert BitLength(2) == 1 + BitLength(1);
    assert Powers.Pow2(1) == 2 * Powers.Pow2(0);
    assert Powers.Pow2(2) == 2 * Powers.Pow2(1);
  }

  // ---- only the first entries matter ------------------------------------------------------------------------

  lemma {:induction false} GcdFrame(v: seq<int>, w: seq<int>, n: nat)
    requires NonNegative(v, n) && NonNegative(w, n) && forall i :: 0 <= i < n ==> v[i] == w[i]
    ensures GcdOf(v, n) == GcdOf(w, n)
  {
    if n > 0 {
      GcdFrame(v, w, n - 1);
    }
  }

  lemma NonzeroFrame(v: seq<int>, w: seq<int>, n: nat)
    requires n <= |v| && n <= |w| && TwoNonzero(v, n) && forall i :: 0 <= i < n ==> v[i] == w[i]
    ensures TwoNonzero(w, n)
  {
    var i, j :| 0 <= i < j < n <= |v| && v[i] != 0 && v[j] != 0;
    NonzeroPair(w, n, i, j);
  }

  lemma JoinFrame(v: seq<int>, w: seq<int>, count: nat)
    requires Ready(v, count) && count <= |w| && forall i :: 0 <= i < count ==> v[i] == w[i]
    ensures Ready(w, count) && Taken(w, count) == Taken(v, count) && Residue(w, count) == Residue(v, count)
  {
    hide GcdOf, TwoNonzero, InitialSize;
    var n := InitialSize(count);
    GcdFrame(v, w, n);
    GcdFrame(v, w, count);
    if TwoNonzero(v, n) {
      NonzeroFrame(v, w, n);
    }
    if TwoNonzero(w, n) {
      NonzeroFrame(w, v, n);
    }
  }

  lemma ComputedFrame(g: Group<Point>, v: seq<int>, w: seq<int>, a: seq<Point>, count: nat)
    requires Ready(v, count) && count <= |w| && count <= |a| && forall i :: 0 <= i < count ==> v[i] == w[i]
    ensures Ready(w, count) && Computed(g, w, a, count) == Computed(g, v, a, count)
  {
    hide GcdOf, SumTimes, Times, AllJoin, Taken, LadderScalar, InitialSize;
    JoinFrame(v, w, count);
    TakenReady(v, count);
    var d := Residue(v, count);
    if d > 0 {
      SumFrame(g, Divided(v, d), a, Divided(w, d), a, Taken(v, count));
    }
  }
}
