/** Signed-digit recodings of a scalar (src/ed25519-donna/modm-donna-64bit.h, 213-280). */
module Recode {
  import opened Words
  import opened Powers
  import opened ModmLimbs
  import opened Digits

  // ---- taking the limbs apart ----------------------------------------------------

  ghost function LimbUnit(i: int): int {
    if i <= 0 then 1 else if i == 1 then S1 else if i == 2 then S2 else if i == 3 then S3 else S4
  }

  ghost function LimbPrefix(s: Limbs, i: int): int {
    Eval(if i > 0 then s[0] else 0, if i > 1 then s[1] else 0, if i > 2 then s[2] else 0, if i > 3 then s[3] else 0, 0)
  }

  lemma EmptyDigits(base: int)
    ensures DigitVal([], base) == 0 && Pow(base, 0) == 1
  {
  }

  lemma Pow16Values()
    ensures Pow(16, 14) == B56 && Pow(16, 8) == 0x100000000
  {
    assert Pow(16, 4) == 0x10000;
    PowAdd(16, 4, 4);
    assert Pow(16, 2) == 256;
    PowAdd(16, 8, 4);
    PowAdd(16, 12, 2);
  }

  lemma Pow2Values()
    ensures Pow(2, 56) == B56 && Pow(2, 32) == 0x100000000
  {
    assert Pow(2, 8) == 0x100;
    PowAdd(2, 8, 8);
    PowAdd(2, 16, 16);
    PowAdd(2, 32, 16);
    PowAdd(2, 48, 8);
  }

  /** Lines 219-226: the sixty-four nibbles of a scalar. */
  method SpreadNibbles(r: array<int>, s: Limbs)
    requires r.Length == 64 && Carried(s) && s[4] < 0x100000000
    modifies r
    ensures forall i :: 0 <= i < 64 ==> 0 <= r[i] < 16
    ensures DigitVal(r[..], 16) == Value(s)
  {
    Pow16Values();
    hide Pow, DigitVal;
    var at := 0;
    assert r[..0] == [];
    EmptyDigits(16);
    for i := 0 to 4
      invariant at == 14 * i
      invariant forall k :: 0 <= k < at ==> 0 <= r[k] < 16
      invariant DigitVal(r[..at], 16) == LimbPrefix(s, i) && Pow(16, at) == LimbUnit(i)
    {
      ghost var done := r[..at];
      WriteDigits(r, at, s[i], 14, 16);
      assert r[..at + 14] == done + r[at..at + 14];
      DigitValConcat(done, r[at..at + 14], 16);
      PowAdd(16, at, 14);
      at := at + 14;
    }
    ghost var done := r[..at];
    WriteDigits(r, at, s[4], 8, 16);
    assert r[..] == done + r[at..at + 8];
    DigitValConcat(done, r[at..at + 8], 16);
  }

  /** Lines 248-255: the binary expansion of a scalar. */
  method SpreadBits(r: array<int>, s: Limbs)
    requires r.Length == 256 && Carried(s) && s[4] < 0x100000000
    modifies r
    ensures forall i :: 0 <= i < 256 ==> 0 <= r[i] < 2
    ensures DigitVal(r[..], 2) == Value(s)
  {
    Pow2Values();
    hide Pow, DigitVal;
    var at := 0;
    assert r[..0] == [];
    EmptyDigits(2);
    for i := 0 to 4
      invariant at == 56 * i
      invariant forall k :: 0 <= k < at ==> 0 <= r[k] < 2
      invariant DigitVal(r[..at], 2) == LimbPrefix(s, i) && Pow(2, at) == LimbUnit(i)
    {
      ghost var done := r[..at];
      WriteDigits(r, at, s[i], 56, 2);
      assert r[..at + 56] == done + r[at..at + 56];
      DigitValConcat(done, r[at..at + 56], 2);
      PowAdd(2, at, 56);
      at := at + 56;
    }
    ghost var done := r[..at];
    WriteDigits(r, at, s[4], 32, 2);
    assert r[..] == done + r[at..at + 32];
    DigitValConcat(done, r[at..at + 32], 2);
  }

  // ---- radix 16 ------------------------------------------------------------------

  /** Before step i of the loop that makes nibbles signed: digits below i are done,
      digit i may hold a carry from its right neighbour, the pending carry is apart. */
  ghost predicate Signing(d: seq<int>, i: nat, carry: int, total: int) {
    && |d| == 64 && i < 64 && 0 <= carry <= 1
    && (forall k :: 0 <= k < i ==> -8 <= d[k] <= 7)
    && 0 <= d[i] <= 16 && (d[i] == 16 ==> carry == 0)
    && (forall k :: i < k < 64 ==> 0 <= d[k] <= 15)
    && (if i < 63 then d[63] <= 7 else d[63] + carry <= 8)
    && DigitVal(d, 16) + Pow(16, i) * carry == total
  }

  /** The digits after step i. */
  function SignedDigits(d: seq<int>, i: nat, carry: int): (e: seq<int>)
    requires i + 1 < |d|
  {
    var x := d[i] + carry;
    d[i + 1 := d[i + 1] + x / 16][i := x % 16 - 16 * (x % 16 / 8)]
  }

  lemma SigningStep(d: seq<int>, i: nat, carry: int, total: int)
    requires i < 63 && Signing(d, i, carry, total)
    ensures Signing(SignedDigits(d, i, carry), i + 1, (d[i] + carry) % 16 / 8, total)
  {
    SignedStep(d, i, carry, total);
    hide DigitVal, Pow;
    var e := SignedDigits(d, i, carry);
    assert forall k :: 0 <= k < 64 && k != i && k != i + 1 ==> e[k] == d[k];
  }

  /** One step keeps the value of the whole string. */
  lemma SignedStep(d: seq<int>, i: nat, carry: int, total: int)
    requires i + 1 < |d| && DigitVal(d, 16) + Pow(16, i) * carry == total
    ensures DigitVal(SignedDigits(d, i, carry), 16) + Pow(16, i + 1) * ((d[i] + carry) % 16 / 8) == total
  {
    var x := d[i] + carry;
    var carry' := x % 16 / 8;
    var e0 := d[i + 1 := d[i + 1] + x / 16];
    DigitUpdate(d, i + 1, d[i + 1] + x / 16, 16);
    DigitUpdate(e0, i, x % 16 - 16 * carry', 16);
    assert Pow(16, i + 1) == 16 * Pow(16, i);
    var p := Pow(16, i);
    hide DigitVal, Pow;
    assert e0[i] == d[i];
    SignedAlgebra(p, d[i], carry, x / 16, x % 16, carry');
  }

  lemma SignedAlgebra(p: int, d: int, carry: int, q: int, m: int, c: int)
    requires d + carry == 16 * q + m
    ensures p * carry == (16 * p) * q + p * (m - 16 * c - d) + (16 * p) * c
  {
    assert p * (d + carry) == p * (16 * q + m);
  }

  lemma SigningStart(d: seq<int>, v: int)
    requires |d| == 64 && (forall i :: 0 <= i < 64 ==> 0 <= d[i] < 16)
    requires DigitVal(d, 16) == v < TWO255
    ensures Signing(d, 0, 0, v)
  {
    TopNibble(d, v);
  }

  /** The body of the loop. */
  method SignDigit(r: array<int>, i: nat, carry: int) returns (next: int)
    requires i + 1 < r.Length
    modifies r
    ensures r[..] == SignedDigits(old(r[..]), i, carry) && next == (old(r[i]) + carry) % 16 / 8
  {
    r[i] := r[i] + carry;
    r[i + 1] := r[i + 1] + r[i] / 16;
    r[i] := r[i] % 16;
    next := r[i] / 8;
    r[i] := r[i] - 16 * next;
  }

  /** contract256_window4_modm: signed radix-16 digits of a scalar below 2^255. */
  method Window4(r: array<int>, s: Limbs)
    requires r.Length == 64 && Carried(s) && Value(s) < TWO255
    modifies r
    ensures DigitVal(r[..], 16) == Value(s)
    ensures forall i :: 0 <= i < 64 ==> -8 <= r[i] <= 8
  {
    LowLimbsBound(s[0], s[1], s[2], s[3], s[4]);
    hide Value, DigitVal, Pow, Signing, SignedDigits;
    SpreadNibbles(r, s);
    SigningStart(r[..], Value(s));
    var carry := 0;
    for i := 0 to 63
      invariant Signing(r[..], i, carry, Value(s))
    {
      SigningStep(r[..], i, carry, Value(s));
      carry := SignDigit(r, i, carry);
    }
    ghost var d := r[..];
    r[63] := r[63] + carry;
    SigningEnd(d, carry, Value(s), r[..]);
  }

  lemma SigningEnd(d: seq<int>, carry: int, total: int, e: seq<int>)
    requires Signing(d, 63, carry, total) && e == d[63 := d[63] + carry]
    ensures DigitVal(e, 16) == total
    ensures forall i :: 0 <= i < 64 ==> -8 <= e[i] <= 8
  {
    DigitUpdate(d, 63, d[63] + carry, 16);
    hide DigitVal, Pow;
  }

  lemma TopNibble(d: seq<int>, v: int)
    requires |d| == 64 && (forall i :: 0 <= i < 64 ==> 0 <= d[i] < 16)
    requires DigitVal(d, 16) == v < TWO255
    ensures d[63] <= 7
  {
    assert d == d[..63] + [d[63]];
    DigitValConcat(d[..63], [d[63]], 16);
    NonNegative(d[..63], 16);
    DigitValHead(d[63], [], 16);
    assert [d[63]] + [] == [d[63]];
    Pow16Values();
    hide DigitVal, Pow;
    PowAdd(16, 14, 14); PowAdd(16, 28, 28); PowAdd(16, 56, 7);
  }

  lemma {:induction false} NonNegative(d: seq<int>, base: int)
    requires base >= 0 && forall i :: 0 <= i < |d| ==> 0 <= d[i]
    ensures DigitVal(d, base) >= 0
  {
    if d != [] {
      NonNegative(d[1..], base);
      ProductAtMost(base, DigitVal(d[1..], base), base, DigitVal(d[1..], base));
    }
  }

  // ---- sliding windows -------------------------------------------------------------

  /** The largest digit of a window of w bits. */
  function WindowMax(w: nat): (m: int)
    requires w >= 1
  {
    Pow2(w - 1) - 1
  }

  /** Digit k is zero, or odd, within the window and followed by w - 1 zeros. */
  ghost predicate WindowDigit(d: seq<int>, k: nat, w: nat)
    requires k < |d| && w >= 1
  {
    d[k] == 0
    || (d[k] % 2 == 1 && -WindowMax(w) <= d[k] <= WindowMax(w) && (forall l :: k < l < k + w && l < |d| ==> d[l] == 0))
  }

  /** Every digit is a window digit: nonzero digits are odd, small and w places apart. */
  ghost predicate Recoded(d: seq<int>, w: nat)
    requires w >= 1
  {
    |d| == 256 && forall k :: 0 <= k < 256 ==> WindowDigit(d, k, w)
  }

  /** Digits below j are recoded, the others are still bits; a bit carried into the top
      place has only zeros below it. */
  ghost predicate Sliding(d: seq<int>, j: nat, w: nat)
    requires w >= 1
  {
    && |d| == 256
    && (forall k :: 0 <= k < j && k < 256 ==> WindowDigit(d, k, w))
    && (forall k :: j <= k < 256 ==> d[k] == 0 || d[k] == 1)
    && (d[255] == 1 ==> forall k :: j <= k < 255 ==> d[k] == 0)
  }

  lemma {:induction false} Pow2IsPow(e: nat)
    ensures Pow(2, e) == Pow2(e)
  {
    if e > 0 {
      Pow2IsPow(e - 1);
    }
  }

  /** The carry loop (lines 268-274): adds 2^at to the bits from `at` on. */
  method CarryInto(r: array<int>, at: nat)
    requires r.Length == 256 && at < 255 && r[at] == 1 && r[255] == 0
    requires forall k :: at <= k < 256 ==> r[k] == 0 || r[k] == 1
    modifies r
    ensures r[..at] == old(r[..at]) && r[at] == 0
    ensures forall k :: at <= k < 256 ==> r[k] == 0 || r[k] == 1
    ensures r[255] == 1 ==> forall k :: at <= k < 255 ==> r[k] == 0
    ensures DigitVal(r[..], 2) == old(DigitVal(r[..], 2)) + Pow2(at)
  {
    hide DigitVal;
    ghost var total := DigitVal(r[..], 2);
    var k := at;
    while r[k] != 0
      invariant at <= k < 256 && r[..at] == old(r[..at])
      invariant forall l :: at <= l < k ==> r[l] == 0
      invariant forall l :: k <= l < 256 ==> r[l] == old(r[l])
      invariant DigitVal(r[..], 2) == total + Pow2(at) - Pow2(k)
      invariant k == at || r[at] == 0
      decreases 256 - k
    {
      ghost var d := r[..];
      DigitUpdate(d, k, 0, 2);
      Pow2IsPow(k);
      r[k] := 0;
      assert r[..] == d[k := 0];
      k := k + 1;
    }
    ghost var d := r[..];
    DigitUpdate(d, k, 1, 2);
    Pow2IsPow(k);
    r[k] := 1;
    assert r[..] == d[k := 1];
  }

  /** Where step b of a window stands: below the window the bits are absorbed, beyond it
      the digit is final and the w - 1 places above it are empty. */
  ghost predicate Absorbing(d: seq<int>, j: nat, b: nat, w: nat)
    requires w >= 1
  {
    && |d| == 256 && j < 256 && 1 <= b && j + b <= 256
    && d[j] % 2 == 1
    && (if b < w then 1 <= d[j] <= Pow2(b) - 1 else -WindowMax(w) <= d[j] <= WindowMax(w))
    && (forall l :: j < l < j + b && l < j + w ==> d[l] == 0)
    && (forall k :: j < k < 256 ==> d[k] == 0 || d[k] == 1)
    && (b < w && j < 255 ==> d[255] == 0)
    && (d[255] == 1 ==> forall k :: j < k < 255 ==> d[k] == 0)
  }

  /** The three guards of the loop, decided by the place of b in the window. */
  lemma Guards(x: int, bit: int, b: nat, w: nat)
    requires 1 <= b && 2 <= w && (bit == 0 || bit == 1)
    requires if b < w then 1 <= x <= Pow2(b) - 1 else -WindowMax(w) <= x <= WindowMax(w)
    ensures x + bit * Pow2(b) <= WindowMax(w) <==> bit == 0 || b < w - 1
    ensures bit == 1 && b >= w - 1 ==> (x - Pow2(b) >= -WindowMax(w) <==> b == w - 1)
    ensures bit == 1 && b < w - 1 ==> 1 <= x + Pow2(b) <= Pow2(b + 1) - 1
    ensures b < w ==> x <= WindowMax(w) && Pow2(b) <= Pow2(b + 1)
  {
    if b < w - 1 {
      Pow2Monotone(b + 1, w - 1);
    } else {
      Pow2Monotone(w - 1, b);
      if b >= w {
        Pow2Monotone(w, b);
      }
    }
  }

  /** Moving a bit b places up into digit j keeps the value. */
  lemma Absorbed(d: seq<int>, j: nat, b: nat)
    requires |d| == 256 && j + b < 256 && 1 <= b
    ensures DigitVal(d[j := d[j] + d[j + b] * Pow2(b)][j + b := 0], 2) == DigitVal(d, 2)
  {
    hide DigitVal, Pow2, Pow;
    var x := d[j + b];
    var e := d[j := d[j] + x * Pow2(b)];
    DigitUpdate(d, j, d[j] + x * Pow2(b), 2);
    DigitUpdate(e, j + b, 0, 2);
    Places(j, b, x);
  }

  /** Borrowing from the place b above takes 2^(j+b) off the value. */
  lemma Borrowed(d: seq<int>, j: nat, b: nat)
    requires |d| == 256 && j + b < 256 && 1 <= b
    ensures DigitVal(d[j := d[j] - Pow2(b)], 2) == DigitVal(d, 2) - Pow2(j + b)
  {
    hide DigitVal, Pow2, Pow;
    DigitUpdate(d, j, d[j] - Pow2(b), 2);
    Places(j, b, -1);
  }

  lemma Places(j: nat, b: nat, x: int)
    ensures Pow(2, j) * (x * Pow2(b)) == x * Pow2(j + b) && Pow(2, j + b) == Pow2(j + b)
  {
    Pow2IsPow(j);
    Pow2IsPow(j + b);
    Pow2Add(j, b);
    hide Pow2, Pow;
    Reassociate(Pow2(j), x, Pow2(b));
  }

  lemma Reassociate(p: int, x: int, q: int)
    ensures p * (x * q) == x * (p * q)
  {
  }

  /** Lines 263-265: the bit joins the digit. */
  method TakeBit(r: array<int>, j: nat, b: nat, w: nat)
    requires r.Length == 256 && 2 <= w && j + b < 256 && Absorbing(r[..], j, b, w)
    requires r[j] + r[j + b] * Pow2(b) <= WindowMax(w)
    modifies r
    ensures r[..j] == old(r[..j]) && DigitVal(r[..], 2) == old(DigitVal(r[..], 2)) && Absorbing(r[..], j, b + 1, w)
  {
    hide DigitVal, Pow2, WindowMax;
    ghost var d := r[..];
    Guards(r[j], r[j + b], b, w);
    AbsorbKeepsParity(d[j], d[j + b], b);
    r[j] := r[j] + r[j + b] * Pow2(b);
    r[j + b] := 0;
    assert r[..] == d[j := d[j] + d[j + b] * Pow2(b)][j + b := 0];
    Absorbed(d, j, b);
  }

  /** Lines 266-274: the bit is subtracted instead, and carried into the higher places. */
  method BorrowBit(r: array<int>, j: nat, b: nat, w: nat)
    requires r.Length == 256 && 2 <= w && j + b < 256 && Absorbing(r[..], j, b, w)
    requires r[j] + r[j + b] * Pow2(b) > WindowMax(w) && r[j] - r[j + b] * Pow2(b) >= -WindowMax(w)
    modifies r
    ensures r[..j] == old(r[..j]) && DigitVal(r[..], 2) == old(DigitVal(r[..], 2)) && Absorbing(r[..], j, b + 1, w)
  {
    hide DigitVal, Pow2, WindowMax;
    ghost var d := r[..];
    Guards(r[j], r[j + b], b, w);
    AbsorbKeepsParity(d[j], -1, b);
    r[j] := r[j] - r[j + b] * Pow2(b);
    assert r[..] == d[j := d[j] - Pow2(b)];
    Borrowed(d, j, b);
    CarryInto(r, j + b);
  }

  /** The body of the window loop at place b (lines 263-277); `stop` is its break. */
  method AbsorbBit(r: array<int>, j: nat, b: nat, w: nat) returns (stop: bool)
    requires r.Length == 256 && 2 <= w && j + b < 256 && Absorbing(r[..], j, b, w)
    modifies r
    ensures r[..j] == old(r[..j]) && DigitVal(r[..], 2) == old(DigitVal(r[..], 2))
    ensures if stop then b >= w && r[..] == old(r[..]) else Absorbing(r[..], j, b + 1, w)
  {
    hide DigitVal, Pow2, WindowMax;
    stop := false;
    Guards(r[j], r[j + b], b, w);
    if r[j] + r[j + b] * Pow2(b) <= WindowMax(w) {
      TakeBit(r, j, b, w);
    } else if r[j] - r[j + b] * Pow2(b) >= -WindowMax(w) {
      BorrowBit(r, j, b, w);
    } else if r[j + b] != 0 {
      stop := true;
    }
  }

  lemma AbsorbKeepsParity(x: int, bit: int, b: nat)
    requires b >= 1 && x % 2 == 1
    ensures (x + bit * Pow2(b)) % 2 == 1
  {
    assert Pow2(b) == 2 * Pow2(b - 1);
    assert bit * Pow2(b) == 2 * (bit * Pow2(b - 1));
  }

  /** Lines 259-278 for one nonzero place. */
  method RecodeDigit(r: array<int>, j: nat, w: nat)
    requires r.Length == 256 && 2 <= w <= 7 && j < 256 && Sliding(r[..], j, w) && r[j] != 0
    modifies r
    ensures Sliding(r[..], j + 1, w) && DigitVal(r[..], 2) == old(DigitVal(r[..], 2))
  {
    ghost var d0 := r[..];
    assert Pow2(1) == 2;
    hide DigitVal, Pow2;
    assert Absorbing(r[..], j, 1, w);
    hide Absorbing, Sliding;
    var b := 1;
    var stop := false;
    while !stop && b < 256 - j && b <= 6
      invariant 1 <= b <= 7 && j + b <= 256 && r[..j] == d0[..j]
      invariant Absorbing(r[..], j, b, w) && (stop ==> b >= w)
      invariant DigitVal(r[..], 2) == DigitVal(d0, 2)
      decreases 7 - b, !stop
    {
      stop := AbsorbBit(r, j, b, w);
      if !stop {
        b := b + 1;
      }
    }
    DigitFinished(d0, r[..], j, b, w);
  }

  lemma DigitFinished(d0: seq<int>, d: seq<int>, j: nat, b: nat, w: nat)
    requires 2 <= w <= 7 && j < 256 && Sliding(d0, j, w) && d0[j] != 0
    requires Absorbing(d, j, b, w) && d[..j] == d0[..j] && (b >= w || b == 256 - j || b == 7)
    ensures Sliding(d, j + 1, w)
  {
    if b < w {
      Pow2Monotone(b, w - 1);
    }
    hide Pow2;
    forall k | 0 <= k < j
      ensures WindowDigit(d, k, w)
    {
      assert WindowDigit(d0, k, w);
      assert d[k] == d[..j][k] == d0[..j][k] == d0[k];
      assert d0[k] != 0 ==> k + w <= j;
      forall l | k < l < k + w && l < j
        ensures d[l] == d0[l]
      {
        assert d[l] == d[..j][l] == d0[..j][l];
      }
    }
    assert WindowDigit(d, j, w);
  }

  /** contract256_slidingwindow_modm: for every scalar below 2^255 the digits sum to the
      scalar, and each nonzero digit is odd, small and followed by w - 1 zeros. */
  method SlidingWindow(r: array<int>, s: Limbs, w: nat)
    requires r.Length == 256 && Carried(s) && Value(s) < TWO255 && 2 <= w <= 7
    modifies r
    ensures DigitVal(r[..], 2) == Value(s) && Recoded(r[..], w)
  {
    LowLimbsBound(s[0], s[1], s[2], s[3], s[4]);
    hide Value, DigitVal, Pow, Pow2;
    SpreadBits(r, s);
    TopBit(r[..], Value(s));
    for j := 0 to 256
      invariant Sliding(r[..], j, w) && DigitVal(r[..], 2) == Value(s)
    {
      if r[j] == 0 {
        SkipZero(r[..], j, w);
      } else {
        RecodeDigit(r, j, w);
      }
    }
  }

  lemma SkipZero(d: seq<int>, j: nat, w: nat)
    requires w >= 1 && j < 256 && Sliding(d, j, w) && d[j] == 0
    ensures Sliding(d, j + 1, w)
  {
  }

  lemma TopBit(d: seq<int>, v: int)
    requires |d| == 256 && (forall i :: 0 <= i < 256 ==> 0 <= d[i] < 2)
    requires DigitVal(d, 2) == v < TWO255
    ensures d[255] == 0
  {
    assert d == d[..255] + [d[255]];
    DigitValConcat(d[..255], [d[255]], 2);
    NonNegative(d[..255], 2);
    DigitValHead(d[255], [], 2);
    assert [d[255]] + [] == [d[255]];
    Pow2Values();
    assert Pow(2, 7) == 128 && Pow(2, 3) == 8;
    hide DigitVal, Pow;
    PowProduct(2, 56, 56, B56, B56); PowProduct(2, 112, 112, 0x10000000000000000000000000000, 0x10000000000000000000000000000);
    PowProduct(2, 224, 7, 0x100000000000000000000000000000000000000000000000000000000, 128); PowProduct(2, 231, 7, 0x8000000000000000000000000000000000000000000000000000000000, 128);
    PowProduct(2, 238, 7, 0x400000000000000000000000000000000000000000000000000000000000, 128); PowProduct(2, 245, 7, 0x20000000000000000000000000000000000000000000000000000000000000, 128);
    PowProduct(2, 252, 3, 0x1000000000000000000000000000000000000000000000000000000000000000, 8);
  }

  lemma PowProduct(base: int, a: nat, b: nat, x: int, y: int)
    requires Pow(base, a) == x && Pow(base, b) == y
    ensures Pow(base, a + b) == x * y
  {
    PowAdd(base, a, b);
  }
}
