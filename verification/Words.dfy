/** Machine words and arithmetic modulo the field prime.

    Every variable of the C code that holds an unsigned word is given one of the
    types below, so each assignment carries the proof that the value fits.  A low
    mask is written `% 2^k`, a right shift `/ 2^k`, a left shift `* 2^k`; the few
    places where the C code wraps on purpose spell the reduction out. */
module Words {

  const W32: int := 0x1_0000_0000
  const W64: int := 0x1_0000_0000_0000_0000
  const W128: int := 0x1_0000_0000_0000_0000_0000_0000_0000_0000
  const TWO255: int := 0x8000000000000000000000000000000000000000000000000000000000000000
  const TWO256: int := 0x10000000000000000000000000000000000000000000000000000000000000000

  type u8 = x: int | 0 <= x < 0x100
  type u64 = x: int | 0 <= x < 0x1_0000_0000_0000_0000
  type u128 = x: int | 0 <= x < 0x1_0000_0000_0000_0000_0000_0000_0000_0000

  /** Bitwise or of a value below 2^k = `unit` with a multiple of it: the precondition
      is what makes the two operands disjoint and the or a sum. */
  function OrDisjoint(low: nat, high: nat, unit: nat): (r: nat)
    requires unit > 0 && low < unit && high % unit == 0
  {
    low + high
  }

  /** Quotient and remainder are determined by their defining equation. */
  lemma DivModUnique(n: int, unit: int, q: int, r: int)
    requires unit > 0 && 0 <= r < unit && n == q * unit + r
    ensures n / unit == q && n % unit == r
  {
    var k := n / unit - q;
    assert k * unit == r - n % unit;
    UnitSteps(k, unit);
  }

  lemma MulMonotone(x: int, y: int, z: int)
    requires 0 <= x && y <= z
    ensures x * y <= x * z
  {
    assert 0 <= x * (z - y);
  }

  lemma ProductAtMost(x: int, y: int, xMax: int, yMax: int)
    requires 0 <= x <= xMax && 0 <= y <= yMax
    ensures 0 <= x * y <= xMax * yMax
  {
    MulMonotone(x, y, yMax);
    MulMonotone(yMax, x, xMax);
  }

  /** mul64x64_128: the full product of two words. */
  function Prod(x: u64, y: u64): (r: u128) {
    ProductAtMost(x, y, W64 - 1, W64 - 1);
    x * y
  }

  lemma ProdScale(k: nat, x: u64, y: u64)
    requires k * x < W64
    ensures Prod(k * x, y) == k * Prod(x, y)
  {
    assert (k * x) * y == k * (x * y);
  }

  /** Left shift of a word by log2(a) bits, dropping what leaves the word. */
  function Shl(x: u64, a: nat): (r: u64) {
    (x * a) % W64
  }

  /** Shifting left by log2(a) keeps the low 64 - log2(a) = log2(b) bits. */
  lemma ShlKeepsLow(x: u64, a: nat, b: nat)
    requires a * b == W64
    ensures b > 0 && Shl(x, a) == (x % b) * a && ((x % b) * a) % a == 0
  {
    var q, r := x / b, x % b;
    assert x == q * b + r;
    calc {
      x * a;
      (q * b + r) * a;
      q * (a * b) + r * a;
    }
    ProductAtMost(r, a, b - 1, a);
    assert (b - 1) * a == b * a - a;
    DivModUnique(x * a, W64, q, r * a);
    DivModUnique(r * a, a, r, 0);
  }

  lemma ModOfMod(x: nat, b: nat, c: nat)
    requires b > 0 && c > 0 && b % c == 0
    ensures (x % b) % c == x % c
  {
    var k := b / c;
    var q, m := x / b, x % b;
    assert b == k * c;
    calc {
      x;
      q * b + m;
      q * (k * c) + ((m / c) * c + m % c);
      (q * k + m / c) * c + m % c;
    }
    DivModUnique(x, c, q * k + m / c, m % c);
  }

  /** Cutting `y` at log2(a) and log2(a) + log2(b): the middle bits. */
  lemma MiddleBits(y: nat, a: nat, b: nat)
    requires a > 0 && b > 0 && a * b > 0
    ensures (y / a) % b == (y % (a * b)) / a < b
  {
    var q, r := y / a, y % a;
    var q', r' := q / b, q % b;
    calc {
      y;
      (q' * b + r') * a + r;
      q' * (a * b) + (r' * a + r);
    }
    ProductAtMost(r', a, b - 1, a);
    assert (b - 1) * a == a * b - a;
    DivModUnique(y, a * b, q', r' * a + r);
    DivModUnique(r' * a + r, a, r', r);
  }

  /** Shifting left by log2(b) and cutting at log2(a b) keeps the low log2(a) bits. */
  lemma LowBits(y: nat, a: nat, b: nat)
    requires a > 0 && b > 0 && a * b > 0
    ensures (y * b) % (a * b) == (y % a) * b && ((y % a) * b) % b == 0
  {
    var q, r := y / a, y % a;
    calc {
      y * b;
      (q * a + r) * b;
      q * (a * b) + r * b;
    }
    ProductAtMost(r, b, a - 1, b);
    assert (a - 1) * b == a * b - b;
    DivModUnique(y * b, a * b, q, r * b);
    DivModUnique(r * b, b, r, 0);
  }

  /** One limb taken across a word boundary: the top bits of `lo` and, shifted up by
      log2(a), as many low bits of `hi` as fit. */
  function Straddle(lo: u64, cut: nat, hi: u64, a: nat): (r: nat)
    requires cut > 0 && a > 0 && lo / cut < a && Shl(hi, a) % a == 0
  {
    OrDisjoint(lo / cut, Shl(hi, a), a)
  }

  /** Cutting a straddled limb at log2(unit) bits keeps log2(c) bits of the upper word. */
  lemma TakeLow(lo: nat, hi: nat, a: nat, c: nat, b: nat, unit: nat)
    requires 0 < a && 0 < c && 0 < b && 0 < unit && lo < a && a * c == unit && b % c == 0
    ensures (lo + (hi % b) * a) % unit == lo + (hi % c) * a < unit
  {
    var m := hi % b;
    var q, r := m / c, m % c;
    ModOfMod(hi, b, c);
    calc {
      lo + m * a;
      lo + (q * c + r) * a;
      q * (a * c) + (r * a + lo);
    }
    ProductAtMost(r, a, c - 1, a);
    assert (c - 1) * a == a * c - a;
    DivModUnique(lo + m * a, unit, q, r * a + lo);
  }

  /** A straddled word cut at log2(unit): the top of `lo` and log2(c) bits of `hi`. */
  lemma StraddleCut(lo: u64, cut: nat, hi: u64, a: nat, c: nat, b: nat, unit: nat)
    requires cut > 0 && a > 0 && c > 0 && b > 0 && unit > 0
    requires lo / cut < a && a * b == W64 && a * c == unit && b % c == 0
    ensures Shl(hi, a) % a == 0 && Straddle(lo, cut, hi, a) < W64
    ensures Straddle(lo, cut, hi, a) % unit == lo / cut + (hi % c) * a < unit
  {
    ShlKeepsLow(hi, a, b);
    hide Shl;
    TakeLow(lo / cut, hi, a, c, b, unit);
    ProductAtMost(hi % b, a, b - 1, a);
    assert (b - 1) * a == a * b - a;
  }

  lemma UnitSteps(k: int, unit: int)
    requires unit > 0
    ensures k >= 1 ==> k * unit >= unit
    ensures k <= -1 ==> k * unit <= -unit
  {
  }
}

/** The prime 2^255 - 19 and congruence modulo it. */
module Modular {

  const P: int := 0x7fffffffffffffffffffffffffffffffffffffffffffffffffffffffffffffed

  /** A mark that a proof sets on a congruence it wants to compute with. */
  ghost predicate Shown(a: int, b: int, mark: int) {
    true
  }

  /** a = b modulo p; behind the mark, so that remainders of large products stay out of proofs
      that do not need them. */
  ghost predicate Cong(a: int, b: int) {
    forall mark :: Shown(a, b, mark) ==> (a - b) % P == 0
  }

  lemma Show(a: int, b: int)
    requires Cong(a, b)
    ensures (a - b) % P == 0
  {
    assert Shown(a, b, 0);
  }

  lemma NotZero(a: int)
    requires a % P != 0
    ensures !Cong(a, 0)
  {
    if Cong(a, 0) {
      Show(a, 0);
    }
  }

  lemma CongOfMultiple(a: int, b: int, k: int)
    requires a == b + P * k
    ensures Cong(a, b)
  {
  }

  lemma CongSym(a: int, b: int)
    requires Cong(a, b)
    ensures Cong(b, a)
  {
    Show(a, b);
  }

  lemma CongTrans(a: int, b: int, c: int)
    requires Cong(a, b) && Cong(b, c)
    ensures Cong(a, c)
  {
    Show(a, b);
    Show(b, c);
  }

  lemma CongAdd(a: int, a': int, b: int, b': int)
    requires Cong(a, a') && Cong(b, b')
    ensures Cong(a + b, a' + b')
  {
    Show(a, a');
    Show(b, b');
  }

  lemma CongSub(a: int, a': int, b: int, b': int)
    requires Cong(a, a') && Cong(b, b')
    ensures Cong(a - b, a' - b')
  {
    Show(a, a');
    Show(b, b');
  }

  lemma CongMul(a: int, a': int, b: int, b': int)
    requires Cong(a, a') && Cong(b, b')
    ensures Cong(a * b, a' * b')
  {
    Show(a, a');
    Show(b, b');
    var k, l := (a - a') / P, (b - b') / P;
    assert a == a' + P * k && b == b' + P * l;
    calc {
      a * b;
      (a' + P * k) * (b' + P * l);
      a' * b' + P * (a' * l + k * b' + P * (k * l));
    }
    CongOfMultiple(a * b, a' * b', a' * l + k * b' + P * (k * l));
  }

  /** A product known up to congruence of its factors. */
  lemma CongProduct(out: int, a: int, b: int, a': int, b': int)
    requires Cong(out, a * b) && Cong(a, a') && Cong(b, b')
    ensures Cong(out, a' * b')
  {
    hide Cong;
    CongMul(a, a', b, b');
    CongTrans(out, a * b, a' * b');
  }

  lemma CongRefl(a: int)
    ensures Cong(a, a)
  {
  }

  /** Congruent canonical residues are equal. */
  lemma CongCanonical(a: int, b: int)
    requires 0 <= a < P && 0 <= b < P && Cong(a, b)
    ensures a == b
  {
    Show(a, b);
  }

  lemma CongMod(a: int)
    ensures Cong(a, a % P) && 0 <= a % P < P
  {
  }

  lemma CongIffMod(a: int, b: int)
    ensures Cong(a, b) <==> a % P == b % P
  {
    if Cong(a, b) {
      Show(a, b);
    }
  }
}

/** Powers, and powers of two. */
module Powers {
  import opened Modular

  function Pow(x: int, e: nat): int {
    if e == 0 then 1 else x * Pow(x, e - 1)
  }

  function Pow2(e: nat): (r: nat)
    ensures r >= 1
  {
    if e == 0 then 1 else 2 * Pow2(e - 1)
  }

  lemma {:induction false} Pow2Add(a: nat, b: nat)
    ensures Pow2(a + b) == Pow2(a) * Pow2(b)
  {
    if a == 0 {
    } else {
      Pow2Add(a - 1, b);
      assert Pow2(a + b) == 2 * Pow2(a - 1 + b);
      assert Pow2(a) * Pow2(b) == 2 * (Pow2(a - 1) * Pow2(b));
    }
  }

  lemma Pow2Product(a: nat, b: nat, x: nat, y: nat)
    requires Pow2(a) == x && Pow2(b) == y
    ensures Pow2(a + b) == x * y
  {
    Pow2Add(a, b);
  }

  lemma {:induction false} Pow2Monotone(a: nat, b: nat)
    requires a <= b
    ensures Pow2(a) <= Pow2(b) && (a < b ==> 2 * Pow2(a) <= Pow2(b))
  {
    if a < b {
      Pow2Monotone(a, b - 1);
    }
  }

  lemma {:induction false} PowAdd(x: int, a: nat, b: nat)
    ensures Pow(x, a + b) == Pow(x, a) * Pow(x, b)
  {
    if a == 0 {
    } else {
      PowAdd(x, a - 1, b);
      assert Pow(x, a + b) == x * Pow(x, a - 1 + b);
      assert x * (Pow(x, a - 1) * Pow(x, b)) == x * Pow(x, a - 1) * Pow(x, b);
    }
  }

  lemma {:induction false} PowPow(x: int, a: nat, b: nat)
    ensures a * b >= 0 && Pow(Pow(x, a), b) == Pow(x, a * b)
  {
    if b == 0 {
      assert a * b == 0;
    } else {
      PowPow(x, a, b - 1);
      assert a * b == a + a * (b - 1);
      PowAdd(x, a, a * (b - 1));
    }
  }

  lemma {:induction false} PowMul(x: int, y: int, e: nat)
    ensures Pow(x * y, e) == Pow(x, e) * Pow(y, e)
  {
    if e == 0 {
    } else {
      PowMul(x, y, e - 1);
      Regroup(x, y, Pow(x, e - 1), Pow(y, e - 1));
    }
  }

  lemma Regroup(x: int, y: int, p: int, q: int)
    ensures (x * y) * (p * q) == (x * p) * (y * q)
  {
  }

  lemma {:induction false} CongPow(x: int, y: int, e: nat)
    requires Cong(x, y)
    ensures Cong(Pow(x, e), Pow(y, e))
  {
    if e == 0 {
    } else {
      CongPow(x, y, e - 1);
      CongMul(x, y, Pow(x, e - 1), Pow(y, e - 1));
    }
  }
}
