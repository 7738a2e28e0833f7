/** The addition chains for inversion and square roots
    (src/ed25519-donna/curve25519-donna-helpers.h). */
module Inversion {
  import opened Words
  import opened Modular
  import opened Powers
  import opened Field

  /** `f` is a carried representation of z^e. */
  ghost predicate IsPow(f: Fe, z: int, e: nat) {
    Tight(f) && Cong(Val(f), Pow(z, e))
  }

  method MulPow(a: Fe, b: Fe, ghost z: int, ghost e1: nat, ghost e2: nat) returns (out: Fe)
    requires IsPow(a, z, e1) && IsPow(b, z, e2)
    ensures IsPow(out, z, e1 + e2)
  {
    hide Cong, Pow, Eval;
    out := Mul(a, b);
    CongMul(Val(a), Pow(z, e1), Val(b), Pow(z, e2));
    PowAdd(z, e1, e2);
    CongTrans(Val(out), Val(a) * Val(b), Pow(z, e1 + e2));
  }

  method SquarePow(a: Fe, count: u64, ghost z: int, ghost e: nat) returns (out: Fe)
    requires IsPow(a, z, e) && count >= 1
    ensures e * Pow2(count) >= 0 && IsPow(out, z, e * Pow2(count))
  {
    hide Cong, Pow, Eval;
    out := SquareTimes(a, count);
    CongPow(Val(a), Pow(z, e), Pow2(count));
    PowPow(z, e, Pow2(count));
    CongTrans(Val(out), Pow(Val(a), Pow2(count)), Pow(z, e * Pow2(count)));
  }

  /** From x^(2^a - 1) and x^(2^n - 1) to x^(2^(a+n) - 1). */
  method Extend(c: Fe, n: u64, b: Fe, ghost z: int, ghost a: nat) returns (out: Fe)
    requires n >= 1 && IsPow(c, z, Pow2(a) - 1) && IsPow(b, z, Pow2(n) - 1)
    ensures IsPow(out, z, Pow2(a + n) - 1)
  {
    hide IsPow;
    var t0 := SquarePow(c, n, z, Pow2(a) - 1);
    out := MulPow(t0, b, z, (Pow2(a) - 1) * Pow2(n), Pow2(n) - 1);
    Pow2Add(a, n);
    assert (Pow2(a) - 1) * Pow2(n) + (Pow2(n) - 1) == Pow2(a) * Pow2(n) - 1;
  }

  /** curve25519_pow_two5mtwo0_two250mtwo0 */
  method PowTwo250(b0: Fe, ghost z: int) returns (b: Fe)
    requires IsPow(b0, z, Pow2(5) - 1)
    ensures IsPow(b, z, Pow2(250) - 1)
  {
    hide *;
    b := b0;
    b := Extend(b, 5, b, z, 5);              // 2^10 - 1
    var c := Extend(b, 10, b, z, 10);        // 2^20 - 1
    var t0 := Extend(c, 20, c, z, 20);       // 2^40 - 1
    b := Extend(t0, 10, b, z, 40);           // 2^50 - 1
    c := Extend(b, 50, b, z, 50);            // 2^100 - 1
    t0 := Extend(c, 100, c, z, 100);         // 2^200 - 1
    b := Extend(t0, 50, b, z, 200);          // 2^250 - 1
  }

  /** The common start of both chains: z^11 and z^31. */
  method PowElevenAndThirtyOne(z: Fe) returns (a: Fe, b: Fe)
    requires Tight(z)
    ensures IsPow(a, Val(z), 11) && IsPow(b, Val(z), Pow2(5) - 1)
  {
    ghost var v := Val(z);
    assert IsPow(z, v, 1) by { PowOne(v); }
    assert Pow2(1) == 2 && Pow2(2) == 4 && Pow2(5) == 32;
    hide IsPow, Pow2;
    a := SquarePow(z, 1, v, 1);              // 2
    var t0 := SquarePow(a, 2, v, 2);         // 8
    b := MulPow(t0, z, v, 8, 1);             // 9
    a := MulPow(b, a, v, 9, 2);              // 11
    t0 := SquarePow(a, 1, v, 11);            // 22
    b := MulPow(t0, b, v, 22, 9);            // 31
  }

  lemma Pow2Values()
    ensures Pow2(250) == 0x400000000000000000000000000000000000000000000000000000000000000 && Pow2(252) == 0x1000000000000000000000000000000000000000000000000000000000000000 && Pow2(255) == 0x8000000000000000000000000000000000000000000000000000000000000000
  {
    assert Pow2(10) == 0x400 && Pow2(5) == 0x20 && Pow2(2) == 4;
    hide Pow2;
    Pow2Product(10, 10, 0x400, 0x400);
    Pow2Product(20, 5, 0x100000, 0x20);
    Pow2Product(25, 25, 0x2000000, 0x2000000);
    Pow2Product(50, 50, 0x4000000000000, 0x4000000000000);
    Pow2Product(100, 25, 0x10000000000000000000000000, 0x2000000);
    Pow2Product(125, 125, 0x20000000000000000000000000000000, 0x20000000000000000000000000000000);
    Pow2Product(250, 2, 0x400000000000000000000000000000000000000000000000000000000000000, 0x4);
    Pow2Product(250, 5, 0x400000000000000000000000000000000000000000000000000000000000000, 0x20);
  }

  /** curve25519_recip: z^(p - 2). */
  method Recip(z: Fe) returns (out: Fe)
    requires Tight(z)
    ensures Tight(out) && Cong(Val(out), Pow(Val(z), P - 2))
  {
    var a, b := PowElevenAndThirtyOne(z);
    ghost var v := Val(z);
    Pow2Values();
    assert Pow2(5) == 32;
    hide Pow2, Pow, Cong;
    b := PowTwo250(b, v);
    b := SquarePow(b, 5, v, Pow2(250) - 1);
    out := MulPow(b, a, v, (Pow2(250) - 1) * Pow2(5), 11);
  }

  /** curve25519_pow_two252m3: z^((p - 5) / 8). */
  method PowTwo252Minus3(z: Fe) returns (out: Fe)
    requires Tight(z)
    ensures Tight(out) && Cong(Val(out), Pow(Val(z), (P - 5) / 8))
  {
    var c, b := PowElevenAndThirtyOne(z);
    ghost var v := Val(z);
    assert IsPow(z, v, 1) by { PowOne(v); }
    Pow2Values();
    assert Pow2(2) == 4;
    hide Pow2, Pow, Cong;
    b := PowTwo250(b, v);
    b := SquarePow(b, 2, v, Pow2(250) - 1);
    out := MulPow(b, z, v, (Pow2(250) - 1) * Pow2(2), 1);
  }
}
