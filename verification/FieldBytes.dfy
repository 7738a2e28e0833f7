/** Field elements to and from 32 bytes (src/ed25519-donna/curve25519-donna-64bit.h, 286-373). */
module FieldBytes {
  import opened Words
  import opened Modular
  import opened Bytes
  import opened Field


  /** curve25519_expand */
  method Expand(b: seq<u8>) returns (out: Fe)
    requires |b| == 32
    ensures Below(out, R1) && Val(out) == LeVal(b) % TWO255
  {
    hide LeVal, Load64, Shl, Straddle, Eval;
    LeValOfWords(b);
    var x0: u64, x1: u64, x2: u64, x3: u64 := Load64(b, 0), Load64(b, 8), Load64(b, 16), Load64(b, 24);
    ExpandLimbs(x0, x1, x2, x3);
    StraddleCut(x0, 0x8000000000000, x1, 0x2000, 0x4000000000, 0x8000000000000, R1);
    StraddleCut(x1, 0x4000000000, x2, 0x4000000, 0x2000000, 0x4000000000, R1);
    StraddleCut(x2, 0x2000000, x3, 0x8000000000, 0x1000, 0x2000000, R1);
    var o0: u64 := x0 % R1; x0 := Straddle(x0, 0x8000000000000, x1, 0x2000);
    var o1: u64 := x0 % R1; x1 := Straddle(x1, 0x4000000000, x2, 0x4000000);
    var o2: u64 := x1 % R1; x2 := Straddle(x2, 0x2000000, x3, 0x8000000000);
    var o3: u64 := x2 % R1; x3 := x3 / 0x1000;
    var o4: u64 := x3 % R1;
    out := Fe(o0, o1, o2, o3, o4);
  }

  lemma ExpandLimbs(w0: u64, w1: u64, w2: u64, w3: u64)
    ensures Eval(w0 % R1, w0 / 0x8000000000000 + (w1 % 0x4000000000) * 0x2000, w1 / 0x4000000000 + (w2 % 0x2000000) * 0x4000000,
                 w2 / 0x2000000 + (w3 % 0x1000) * 0x8000000000, (w3 / 0x1000) % R1)
            == (w0 + w1 * W64 + w2 * W128 + w3 * 0x1000000000000000000000000000000000000000000000000) % TWO255
  {
    hide Eval;
    TopLimb(w3);
    RegroupBits(w0, w1, w2, w3, w0 % R1, w0 / 0x8000000000000, w1 % 0x4000000000, w1 / 0x4000000000,
                w2 % 0x2000000, w2 / 0x2000000, w3 % 0x1000, (w3 / 0x1000) % R1, w3 / 0x8000000000000000);
  }

  lemma TopLimb(w: u64)
    ensures w == (w / 0x8000000000000000) * 0x8000000000000000 + ((w / 0x1000) % R1) * 0x1000 + w % 0x1000
  {
    var q := w / 0x1000;
    DivModUnique(w, 0x8000000000000000, q / R1, (q % R1) * 0x1000 + w % 0x1000);
  }

  /** The same bits, cut every 64 and cut every 51. */
  lemma RegroupBits(w0: int, w1: int, w2: int, w3: int,
                    a0: int, b0: int, a1: int, b1: int, a2: int, b2: int, a3: int, b3: int, top: int)
    requires w0 == b0 * 0x8000000000000 + a0 && 0 <= a0 < R1 && 0 <= b0 < 0x2000
    requires w1 == b1 * 0x4000000000 + a1 && 0 <= a1 < 0x4000000000 && 0 <= b1 < 0x4000000
    requires w2 == b2 * 0x2000000 + a2 && 0 <= a2 < 0x2000000 && 0 <= b2 < 0x8000000000
    requires w3 == top * 0x8000000000000000 + b3 * 0x1000 + a3 && 0 <= a3 < 0x1000 && 0 <= b3 < R1
    ensures Eval(a0, b0 + a1 * 0x2000, b1 + a2 * 0x4000000, b2 + a3 * 0x8000000000, b3)
            == (w0 + w1 * W64 + w2 * W128 + w3 * 0x1000000000000000000000000000000000000000000000000) % TWO255
  {
    var e := Eval(a0, b0 + a1 * 0x2000, b1 + a2 * 0x4000000, b2 + a3 * 0x8000000000, b3);
    EvalRange(a0, b0 + a1 * 0x2000, b1 + a2 * 0x4000000, b2 + a3 * 0x8000000000, b3);
    DivModUnique(w0 + w1 * W64 + w2 * W128 + w3 * 0x1000000000000000000000000000000000000000000000000, TWO255, top, e);
  }

  // ---- contraction -------------------------------------------------------------

  lemma EvalRange(r0: int, r1: int, r2: int, r3: int, r4: int)
    requires 0 <= r0 < R1 && 0 <= r1 < R1 && 0 <= r2 < R1 && 0 <= r3 < R1 && 0 <= r4 < R1
    ensures 0 <= Eval(r0, r1, r2, r3, r4) < TWO255
  {
  }

  /** Limbs 1 to 4 are carried and limb 0 holds at most one small carry too many. */
  predicate NearlyCarried(a: Fe) {
    a.l0 < R1 + 19 * 0x2000 && a.l1 < R1 && a.l2 < R1 && a.l3 < R1 && a.l4 < R1
  }

  /** curve25519_contract_carry: limbs 0 to 3 are cut, limb 4 collects. */
  method CarryUp(a: Fe) returns (t: Fe)
    requires Below(a, WIDE)
    ensures t.l0 < R1 && t.l1 < R1 && t.l2 < R1 && t.l3 < R1 && Val(t) == Val(a)
  {
    var t0: u64, t1: u64, t2: u64, t3: u64, t4: u64 := a.l0, a.l1, a.l2, a.l3, a.l4;
    t1 := t1 + t0 / R1; t0 := t0 % R1;
    t2 := t2 + t1 / R1; t1 := t1 % R1;
    t3 := t3 + t2 / R1; t2 := t2 % R1;
    t4 := t4 + t3 / R1; t3 := t3 % R1;
    t := Fe(t0, t1, t2, t3, t4);
  }

  /** curve25519_contract_carry_full: the overflow of limb 4 returns to limb 0 times 19. */
  method CarryAround(a: Fe) returns (t: Fe, ghost k: nat)
    requires Below(a, WIDE)
    ensures NearlyCarried(t) && Val(t) == Val(a) - k * P
    ensures 0 <= Val(a) - k * TWO255 < TWO255
    ensures Val(a) < TWO255 + R1 - 19 ==> Below(t, R1)
  {
    var s := CarryUp(a);
    k := s.l4 / R1;
    t := Fe(s.l0 + 19 * (s.l4 / R1), s.l1, s.l2, s.l3, s.l4 % R1);
    AroundValue(s, t, Val(a), k);
  }

  lemma AroundValue(s: Fe, t: Fe, v: int, k: nat)
    requires s.l0 < R1 && s.l1 < R1 && s.l2 < R1 && s.l3 < R1
    requires k == s.l4 / R1 && v == Val(s)
    requires t.l0 == s.l0 + 19 * k && t.l1 == s.l1 && t.l2 == s.l2 && t.l3 == s.l3 && t.l4 == s.l4 % R1
    ensures Val(t) == v - k * P && 0 <= v - k * TWO255 < TWO255
    ensures v < TWO255 + R1 - 19 ==> t.l0 < R1
  {
    EvalRange(s.l0, s.l1, s.l2, s.l3, t.l4);
    assert v == Eval(s.l0, s.l1, s.l2, s.l3, t.l4) + k * TWO255;
  }

  /** curve25519_contract_carry_final: the overflow of limb 4 is dropped. */
  method CarryDrop(a: Fe) returns (t: Fe)
    requires Below(a, 0x20000000000000) && TWO255 <= Val(a) < 2 * TWO255
    ensures Below(t, R1) && Val(t) == Val(a) - TWO255
  {
    t := CarryUp(a);
    ghost var k := t.l4 / R1;
    EvalRange(t.l0, t.l1, t.l2, t.l3, t.l4 % R1);
    assert Val(a) == Eval(t.l0, t.l1, t.l2, t.l3, t.l4 % R1) + k * TWO255;
    assert k == 1;
    t := Fe(t.l0, t.l1, t.l2, t.l3, t.l4 % R1);
  }

  /** The limbs of the canonical representative: lines 329-363. */
  method Canonical(a: Fe) returns (t: Fe)
    requires Below(a, WIDE)
    ensures Below(t, R1) && Val(t) == Val(a) % P
  {
    ghost var k0, k1, k2;
    t, k0 := CarryAround(a);
    t, k1 := CarryAround(t);
    // between 0 and 2^255 - 1, properly carried
    EvalRange(t.l0, t.l1, t.l2, t.l3, t.l4);
    ghost var v := Val(t);
    t := Fe(t.l0 + 19, t.l1, t.l2, t.l3, t.l4);
    t, k2 := CarryAround(t);
    // between 19 and 2^255 - 1, and offset by 19
    ghost var w := Val(t);
    OffsetIsResidue(Val(a), v, k0 + k1, k2, w);
    t := Fe(t.l0 + (R1 - 19), t.l1 + (R1 - 1), t.l2 + (R1 - 1), t.l3 + (R1 - 1), t.l4 + (R1 - 1));
    assert Val(t) == w + TWO255 - 19;
    t := CarryDrop(t);
  }

  lemma OffsetIsResidue(a: int, v: int, k: int, k2: int, w: int)
    requires 0 <= v < TWO255 && v == a - k * P && w == v + 19 - k2 * P
    requires 0 <= v + 19 - k2 * TWO255 < TWO255
    ensures w - 19 == a % P && 19 <= w < TWO255
  {
    assert k2 == 0 || k2 == 1;
    assert 0 <= w - 19 < P;
    assert a == (w - 19) + (k + k2) * P;
    DivModUnique(a, P, k + k2, w - 19);
  }

  /** The four 64-bit words of five carried limbs (write51full). */
  method Words64(t: Fe) returns (f0: u64, f1: u64, f2: u64, f3: u64)
    requires Below(t, R1)
    ensures Val(t) == f0 + f1 * W64 + f2 * W128 + f3 * 0x1000000000000000000000000000000000000000000000000
  {
    hide Shl;
    ShlKeepsLow(t.l1, 0x8000000000000, 0x2000); ShlKeepsLow(t.l2, 0x4000000000, 0x4000000);
    ShlKeepsLow(t.l3, 0x2000000, 0x8000000000); ShlKeepsLow(t.l4, 0x1000, 0x10000000000000);
    f0 := Straddle(t.l0, 1, t.l1, 0x8000000000000);
    f1 := Straddle(t.l1, 0x2000, t.l2, 0x4000000000);
    f2 := Straddle(t.l2, 0x4000000, t.l3, 0x2000000);
    f3 := Straddle(t.l3, 0x8000000000, t.l4, 0x1000);
  }

  /** curve25519_contract: the 32 bytes of the canonical representative, for every
      limb vector with room for a carry. */
  method Contract(a: Fe) returns (out: seq<u8>)
    requires Below(a, WIDE)
    ensures |out| == 32 && LeVal(out) == Val(a) % P
  {
    hide *;
    var t := Canonical(a);
    var f0, f1, f2, f3 := Words64(t);
    out := FourWords(f0, f1, f2, f3);
  }

  /** Two limb vectors for one field element contract to the same bytes. */
  lemma ContractCanonical(a: Fe, b: Fe, aBytes: seq<u8>, bBytes: seq<u8>)
    requires |aBytes| == 32 && LeVal(aBytes) == Val(a) % P
    requires |bBytes| == 32 && LeVal(bBytes) == Val(b) % P
    ensures Cong(Val(a), Val(b)) <==> aBytes == bBytes
  {
    hide LeVal, Eval;
    CongIffMod(Val(a), Val(b));
    if LeVal(aBytes) == LeVal(bBytes) {
      LeValInjective(aBytes, bBytes);
    }
  }

  /** Contracting an expansion clears bit 255 and reduces; a canonical encoding is kept. */
  method ExpandThenContract(b: seq<u8>) returns (out: seq<u8>)
    requires |b| == 32
    ensures |out| == 32 && LeVal(out) == LeVal(b) % TWO255 % P
    ensures LeVal(b) < P <==> out == b
  {
    hide LeVal, Eval;
    var t := Expand(b);
    out := Contract(t);
    if LeVal(b) < P {
      LeValInjective(out, b);
    }
  }
}
