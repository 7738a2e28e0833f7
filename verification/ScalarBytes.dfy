/** Scalars to and from bytes (src/ed25519-donna/modm-donna-64bit.h, 152-211). */
module ScalarBytes {
  import opened Words
  import opened Bytes
  import opened ModmLimbs
  import opened Barrett

  const TWO192: int := 0x1000000000000000000000000000000000000000000000000

  function Words4(x0: int, x1: int, x2: int, x3: int): int {
    x0 + x1 * W64 + x2 * W128 + x3 * TWO192
  }

  /** Bits 0 to 263 of eight words, cut every 56. */
  lemma LowParts(x0: u64, x1: u64, x2: u64, x3: u64, x4: u64, high: int)
    ensures Eval(x0 % B56, x0 / 0x100000000000000 + (x1 % 0x1000000000000) * 0x100, x1 / 0x1000000000000 + (x2 % 0x10000000000) * 0x10000,
                 x2 / 0x10000000000 + (x3 % 0x100000000) * 0x1000000, x3 / 0x100000000 + (x4 % 0x100) * 0x100000000)
            == (Words4(x0, x1, x2, x3) + TWO256 * (x4 + W64 * high)) % TWO264
  {
    RegroupLow(x0, x1, x2, x3, x4, high, x0 % B56, x0 / B56, x1 % 0x1000000000000, x1 / 0x1000000000000, x2 % 0x10000000000, x2 / 0x10000000000,
               x3 % 0x100000000, x3 / 0x100000000, x4 % 0x100, x4 / 0x100);
  }

  lemma RegroupLow(x0: int, x1: int, x2: int, x3: int, x4: int, high: int, a0: int, b0: int, a1: int, b1: int,
                   a2: int, b2: int, a3: int, b3: int, a4: int, b4: int)
    requires x0 == b0 * 0x100000000000000 + a0 && 0 <= a0 < B56 && 0 <= b0 < 0x100
    requires x1 == b1 * 0x1000000000000 + a1 && 0 <= a1 < 0x1000000000000 && 0 <= b1 < 0x10000
    requires x2 == b2 * 0x10000000000 + a2 && 0 <= a2 < 0x10000000000 && 0 <= b2 < 0x1000000
    requires x3 == b3 * 0x100000000 + a3 && 0 <= a3 < 0x100000000 && 0 <= b3 < 0x100000000
    requires x4 == b4 * 0x100 + a4 && 0 <= a4 < 0x100
    ensures Eval(a0, b0 + a1 * 0x100, b1 + a2 * 0x10000, b2 + a3 * 0x1000000, b3 + a4 * 0x100000000)
            == (Words4(x0, x1, x2, x3) + TWO256 * (x4 + W64 * high)) % TWO264
  {
    var e := Eval(a0, b0 + a1 * 0x100, b1 + a2 * 0x10000, b2 + a3 * 0x1000000, b3 + a4 * 0x100000000);
    DivModUnique(Words4(x0, x1, x2, x3) + TWO256 * (x4 + W64 * high), TWO264, b4 + 0x100000000000000 * high, e);
  }

  /** Bits 248 and up of eight words, cut every 56. */
  lemma HighParts(low: int, x3: u64, x4: u64, x5: u64, x6: u64, x7: u64)
    requires 0 <= low < TWO192
    ensures Eval(x3 / 0x100000000000000 + (x4 % 0x1000000000000) * 0x100, x4 / 0x1000000000000 + (x5 % 0x10000000000) * 0x10000,
                 x5 / 0x10000000000 + (x6 % 0x100000000) * 0x1000000, x6 / 0x100000000 + (x7 % 0x1000000) * 0x100000000, x7 / 0x1000000)
            == (low + x3 * TWO192 + TWO256 * Words4(x4, x5, x6, x7)) / TWO248
  {
    RegroupHigh(low, x3, x4, x5, x6, x7, x3 % 0x100000000000000, x3 / 0x100000000000000, x4 % 0x1000000000000, x4 / 0x1000000000000, x5 % 0x10000000000, x5 / 0x10000000000,
                x6 % 0x100000000, x6 / 0x100000000, x7 % 0x1000000, x7 / 0x1000000);
  }

  lemma RegroupHigh(low: int, x3: int, x4: int, x5: int, x6: int, x7: int, a3: int, b3: int, a4: int, b4: int,
                    a5: int, b5: int, a6: int, b6: int, a7: int, b7: int)
    requires 0 <= low < TWO192
    requires x3 == b3 * 0x100000000000000 + a3 && 0 <= a3 < 0x100000000000000
    requires x4 == b4 * 0x1000000000000 + a4 && x5 == b5 * 0x10000000000 + a5
    requires x6 == b6 * 0x100000000 + a6 && x7 == b7 * 0x1000000 + a7
    ensures Eval(b3 + a4 * 0x100, b4 + a5 * 0x10000, b5 + a6 * 0x1000000, b6 + a7 * 0x100000000, b7)
            == (low + x3 * TWO192 + TWO256 * Words4(x4, x5, x6, x7)) / TWO248
  {
    var e := Eval(b3 + a4 * 0x100, b4 + a5 * 0x10000, b5 + a6 * 0x1000000, b6 + a7 * 0x100000000, b7);
    DivModUnique(low + x3 * TWO192 + TWO256 * Words4(x4, x5, x6, x7), TWO248, e, low + a3 * TWO192);
  }

  /** Lines 169-173: the low 264 bits. */
  method LowLimbs(x0: u64, x1: u64, x2: u64, x3: u64, x4: u64, ghost high: int) returns (out: Limbs)
    ensures Carried(out) && out[4] < 0x10000000000
    ensures Value(out) == (Words4(x0, x1, x2, x3) + TWO256 * (x4 + W64 * high)) % TWO264
  {
    hide Straddle, Shl, Eval, Words4;
    LowParts(x0, x1, x2, x3, x4, high);
    StraddleCut(x0, 0x100000000000000, x1, 0x100, 0x1000000000000, 0x100000000000000, B56);
    StraddleCut(x1, 0x1000000000000, x2, 0x10000, 0x10000000000, 0x1000000000000, B56);
    StraddleCut(x2, 0x10000000000, x3, 0x1000000, 0x100000000, 0x10000000000, B56);
    StraddleCut(x3, 0x100000000, x4, 0x100000000, 0x100, 0x100000000, 0x10000000000);
    out := [x0 % B56, Straddle(x0, 0x100000000000000, x1, 0x100) % B56, Straddle(x1, 0x1000000000000, x2, 0x10000) % B56,
            Straddle(x2, 0x10000000000, x3, 0x1000000) % B56, Straddle(x3, 0x100000000, x4, 0x100000000) % 0x10000000000];
  }

  /** Lines 180-184: what lies above bit 248. */
  method HighLimbs(x3: u64, x4: u64, x5: u64, x6: u64, x7: u64, ghost low: int) returns (q1: Limbs)
    requires 0 <= low < TWO192
    ensures Carried(q1)
    ensures Value(q1) == (low + x3 * TWO192 + TWO256 * Words4(x4, x5, x6, x7)) / TWO248
  {
    hide Straddle, Shl, Eval, Words4;
    HighParts(low, x3, x4, x5, x6, x7);
    StraddleCut(x3, 0x100000000000000, x4, 0x100, 0x1000000000000, 0x100000000000000, B56);
    StraddleCut(x4, 0x1000000000000, x5, 0x10000, 0x10000000000, 0x1000000000000, B56);
    StraddleCut(x5, 0x10000000000, x6, 0x1000000, 0x100000000, 0x10000000000, B56);
    StraddleCut(x6, 0x100000000, x7, 0x100000000, 0x1000000, 0x100000000, B56);
    q1 := [Straddle(x3, 0x100000000000000, x4, 0x100) % B56, Straddle(x4, 0x1000000000000, x5, 0x10000) % B56,
           Straddle(x5, 0x10000000000, x6, 0x1000000) % B56, Straddle(x6, 0x100000000, x7, 0x100000000) % B56, x7 / 0x1000000];
  }

  /** The 64-byte work buffer: the input followed by zeros. */
  function Padded(b: seq<u8>): (w: seq<u8>)
    requires |b| <= 64
    ensures |w| == 64
  {
    b + seq(64 - |b|, i => 0)
  }

  lemma PaddedValue(b: seq<u8>)
    requires |b| <= 64
    ensures LeVal(Padded(b)) == LeVal(b)
  {
    var z: seq<u8> := seq(64 - |b|, i => 0);
    ZerosValue(z);
    LeValConcat(b, z);
  }

  /** expand256_modm: the scalar a byte string of at most 64 bytes stands for, reduced. */
  method Expand256(b: seq<u8>) returns (out: Limbs)
    requires |b| <= 64
    ensures Carried(out) && Value(out) == LeVal(b) % M
  {
    hide *;
    var w := Padded(b);
    var x0, x1, x2, x3 := Load64(w, 0), Load64(w, 8), Load64(w, 16), Load64(w, 24);
    var x4, x5, x6, x7 := Load64(w, 32), Load64(w, 40), Load64(w, 48), Load64(w, 56);
    ghost var high, low := x5 + x6 * W64 + x7 * W128, x0 + x1 * W64 + x2 * W128;
    PaddedWords(b, x0, x1, x2, x3, x4, x5, x6, x7, high, low);
    out := LowLimbs(x0, x1, x2, x3, x4, high);
    if |b| < 32 {
      ShortValue(b);
      return;
    }
    var q1 := HighLimbs(x3, x4, x5, x6, x7, low);
    out := BarrettReduce(q1, out, LeVal(b));
  }

  lemma PaddedWords(b: seq<u8>, x0: u64, x1: u64, x2: u64, x3: u64, x4: u64, x5: u64, x6: u64, x7: u64, high: int, low: int)
    requires |b| <= 64
    requires x0 == Load64(Padded(b), 0) && x1 == Load64(Padded(b), 8) && x2 == Load64(Padded(b), 16)
    requires x3 == Load64(Padded(b), 24) && x4 == Load64(Padded(b), 32) && x5 == Load64(Padded(b), 40)
    requires x6 == Load64(Padded(b), 48) && x7 == Load64(Padded(b), 56)
    requires high == x5 + x6 * W64 + x7 * W128 && low == x0 + x1 * W64 + x2 * W128
    ensures LeVal(b) == Words4(x0, x1, x2, x3) + TWO256 * (x4 + W64 * high)
    ensures LeVal(b) == low + x3 * TWO192 + TWO256 * Words4(x4, x5, x6, x7)
    ensures 0 <= low < TWO192 && 0 <= LeVal(b) < TWO512
  {
    hide LeVal, Load64, Padded;
    PaddedValue(b);
    LeValOfEightWords(Padded(b));
    WordSums(x0, x1, x2, x3, x4, x5, x6, x7);
  }

  lemma WordSums(x0: u64, x1: u64, x2: u64, x3: u64, x4: u64, x5: u64, x6: u64, x7: u64)
    ensures var n := Words4(x0, x1, x2, x3) + TWO256 * Words4(x4, x5, x6, x7);
            var low := x0 + x1 * W64 + x2 * W128;
            && n == Words4(x0, x1, x2, x3) + TWO256 * (x4 + W64 * (x5 + x6 * W64 + x7 * W128))
            && n == low + x3 * TWO192 + TWO256 * Words4(x4, x5, x6, x7)
            && 0 <= low < TWO192 && 0 <= n < TWO512
  {
  }

  lemma ShortValue(b: seq<u8>)
    requires |b| < 32
    ensures LeVal(b) < TWO248 && LeVal(b) % M == LeVal(b) && LeVal(b) % TWO264 == LeVal(b)
  {
    LeValBound(b);
    Pow256Monotone(|b|, 31);
    Pow256Words();
    hide LeVal, Pow256;
  }

  lemma {:induction false} Pow256Monotone(i: nat, j: nat)
    requires i <= j
    ensures Pow256(i) <= Pow256(j)
  {
    if i < j {
      Pow256Monotone(i, j - 1);
    }
  }

  /** The four words of contract256_modm. */
  method ContractWords(a: Limbs) returns (w0: u64, w1: u64, w2: u64, w3: u64)
    requires Carried(a) && a[4] < 0x100000000
    ensures Words4(w0, w1, w2, w3) == Value(a)
  {
    ShlKeepsLow(a[1], 0x100000000000000, 0x100); ShlKeepsLow(a[2], 0x1000000000000, 0x10000);
    ShlKeepsLow(a[3], 0x10000000000, 0x1000000); ShlKeepsLow(a[4], 0x100000000, 0x100000000);
    hide Shl, Eval, Words4;
    w0 := Straddle(a[0], 1, a[1], 0x100000000000000);
    w1 := Straddle(a[1], 0x100, a[2], 0x1000000000000);
    w2 := Straddle(a[2], 0x10000, a[3], 0x10000000000);
    w3 := Straddle(a[3], 0x1000000, a[4], 0x100000000);
    WordsOfLimbs(a[0], a[1], a[2], a[3], a[4], a[1] / 0x100, a[1] % 0x100, a[2] / 0x10000, a[2] % 0x10000,
                 a[3] / 0x1000000, a[3] % 0x1000000);
  }

  lemma WordsOfLimbs(a0: int, a1: int, a2: int, a3: int, a4: int, b1: int, c1: int, b2: int, c2: int, b3: int, c3: int)
    requires a1 == b1 * 0x100 + c1 && a2 == b2 * 0x10000 + c2 && a3 == b3 * 0x1000000 + c3
    ensures Words4(a0 + c1 * 0x100000000000000, b1 + c2 * 0x1000000000000, b2 + c3 * 0x10000000000, b3 + a4 * 0x100000000) == Eval(a0, a1, a2, a3, a4)
  {
  }

  /** contract256_modm: the 32 bytes of a scalar below 2^256. */
  method Contract256(a: Limbs) returns (out: seq<u8>)
    requires Carried(a) && Value(a) < TWO256
    ensures |out| == 32 && LeVal(out) == Value(a)
  {
    LowLimbsBound(a[0], a[1], a[2], a[3], a[4]);
    hide LeVal, Eval;
    var w0, w1, w2, w3 := ContractWords(a);
    out := FourWords(w0, w1, w2, w3);
  }

  /** Contracting a reduced scalar and expanding it again gives the scalar back. */
  method ContractThenExpand(a: Limbs) returns (b: Limbs)
    requires Carried(a) && Value(a) < M
    ensures Carried(b) && Value(b) == Value(a)
  {
    ValueNonNegative(a);
    hide Value, Carried, LeVal;
    var bytes := Contract256(a);
    b := Expand256(bytes);
  }
}
