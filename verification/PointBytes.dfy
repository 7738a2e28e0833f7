/** Points to and from 32 bytes (src/ed25519-donna/ed25519-donna-impl-base.h, 175-239). */
module PointBytes {
  import opened Words
  import opened Modular
  import opened Powers
  import opened Bytes
  import opened Field
  import opened FieldBytes
  import opened Inversion
  import opened Edwards
  import opened CurveOps
  import opened SquareRoot

  const SQRT_NEG1: Fe := Fe(0x61b274a0ea0b0, 0xd5a5fc8f189d, 0x7ef5e9cbd0c60, 0x78595a6804c9e, 0x2b8324804fc1d)

  // ---- packing ----------------------------------------------------------------

  /** The integer the encoding of a point stands for: y with the parity of x on top. */
  function Encoding(q: Affine): int {
    q.y + TWO255 * (q.x % 2)
  }

  function SignBit(b: seq<u8>): int
    requires |b| == 32
  {
    b[31] / 128
  }

  lemma TightIsWide(a: Fe)
    requires Loose(a)
    ensures Below(a, WIDE)
  {
  }

  /** ge25519_pack: divides by z and writes y with the parity of x in the top bit. */
  method Pack(p: Ge, ghost q: Affine) returns (r: seq<u8>)
    requires Fermat() && Partial(p, q) && 0 <= q.x < P && 0 <= q.y < P
    ensures |r| == 32 && LeVal(r) == Encoding(q)
  {
    hide Cong, Fermat, Eval, Tight, Medium, Loose, LeVal, IsProduct, Pow;
    var zi := Recip(p.z);
    var tx := Mul(p.x, zi);
    var ty := Mul(p.y, zi);
    Dehomogenize(tx, p.x, p.z, zi, q.x);
    Dehomogenize(ty, p.y, p.z, zi, q.y);
    TightIsWide(tx); TightIsWide(ty);
    r := Contract(ty);
    var parity := Contract(tx);
    LowBit(parity);
    TopBitClear(r);
    SetTopBit(r, parity[0] % 2);
    r := r[31 := r[31] + 128 * (parity[0] % 2)];
  }

  lemma Dehomogenize(t: Fe, x: Fe, z: Fe, zi: Fe, qx: int)
    requires Fermat() && Cong(Val(x), qx * Val(z)) && !Cong(Val(z), 0) && Cong(Val(zi), Pow(Val(z), P - 2))
    requires IsProduct(t, x, zi) && 0 <= qx < P
    ensures Val(t) % P == qx
  {
    hide Fermat, Pow, Eval, Cong;
    InverseOf(Val(z));
    var i := Pow(Val(z), P - 2);
    CongProduct(Val(t), Val(x), Val(zi), qx * Val(z), i);
    assert (qx * Val(z)) * i == qx * (Val(z) * i);
    CongRefl(qx);
    CongMul(qx, qx, Val(z) * i, 1);
    CongTrans(Val(t), qx * (Val(z) * i), qx);
    CongIffMod(Val(t), qx);
  }

  lemma LowBit(b: seq<u8>)
    requires |b| == 32
    ensures LeVal(b) % 2 == b[0] % 2
  {
  }

  lemma LastByte(b: seq<u8>)
    requires |b| == 32
    ensures LeVal(b) == LeVal(b[..31]) + 0x100000000000000000000000000000000000000000000000000000000000000 * (b[31] as int)
    ensures LeVal(b[..31]) < 0x100000000000000000000000000000000000000000000000000000000000000
  {
    Pow256Words();
    hide Pow256;
    LeValBound(b[..31]);
    assert b == b[..31] + [b[31]];
    LeValConcat(b[..31], [b[31]]);
    assert LeVal([b[31]]) == b[31];
  }

  lemma TopBitClear(b: seq<u8>)
    requires |b| == 32
    ensures LeVal(b) < TWO255 <==> b[31] < 128
    ensures SignBit(b) == LeVal(b) / TWO255
  {
    LastByte(b);
  }

  lemma SetTopBit(b: seq<u8>, bit: int)
    requires |b| == 32 && b[31] < 128 && 0 <= bit <= 1
    ensures LeVal(b[31 := b[31] + 128 * bit]) == LeVal(b) + TWO255 * bit
  {
    var c := b[31 := b[31] + 128 * bit];
    LastByte(b);
    LastByte(c);
    assert c[..31] == b[..31];
  }

  // ---- unpacking ----------------------------------------------------------------

  /** The bytes decode to the point `q`: its y, and the x whose parity is opposite to
      the sign bit (the decoder returns the negated point), x = 0 excepted. */
  ghost predicate Decodes(b: seq<u8>, q: Affine)
    requires |b| == 32
  {
    && IsPoint(q)
    && q.y == LeVal(b) % TWO255 % P
    && (q.x == 0 || q.x % 2 != SignBit(b))
  }

  /** With u = y^2 - 1 and v = d y^2 + 1, the curve equation says x^2 v = u. */
  lemma CurveEquation(x: int, y: int, u: int, v: int)
    requires Cong(u, y * y - 1) && Cong(v, D * (y * y) + 1)
    ensures Cong(u, (x * x) * v) <==> Cong(y * y - x * x, 1 + D * ((x * y) * (x * y)))
  {
    hide Cong;
    var xx, yy := x * x, y * y;
    CongRefl(xx);
    CongMul(xx, xx, v, D * yy + 1);
    assert xx * (D * yy + 1) == D * (xx * yy) + xx;
    assert (x * y) * (x * y) == xx * yy;
    Rearrange(u, xx * v, yy, xx, D * (xx * yy));
  }

  lemma Rearrange(u: int, w: int, yy: int, xx: int, k: int)
    requires Cong(u, yy - 1) && Cong(w, k + xx)
    ensures Cong(u, w) <==> Cong(yy - xx, 1 + k)
  {
    hide Cong;
    CongSym(u, yy - 1);
    CongSym(w, k + xx);
    if Cong(u, w) {
      CongTrans(yy - 1, u, w);
      CongTrans(yy - 1, w, k + xx);
      CongRefl(1 - xx);
      CongAdd(yy - 1, k + xx, 1 - xx, 1 - xx);
    }
    if Cong(yy - xx, 1 + k) {
      CongRefl(xx - 1);
      CongAdd(yy - xx, 1 + k, xx - 1, xx - 1);
      CongTrans(u, yy - 1, k + xx);
      CongTrans(u, k + xx, w);
    }
  }

  lemma ProductIsPow(out: Fe, a: Fe, b: Fe, z: int, e1: nat, e2: nat)
    requires IsProduct(out, a, b) && Cong(Val(a), Pow(z, e1)) && Cong(Val(b), Pow(z, e2))
    ensures Cong(Val(out), Pow(z, e1 + e2))
  {
    hide Cong, Pow, Eval;
    CongProduct(Val(out), Val(a), Val(b), Pow(z, e1), Pow(z, e2));
    PowAdd(z, e1, e2);
  }

  /** Lines 208-217: num den^3 (num den^7)^((p-5)/8). */
  method RootCandidate(num: Fe, den: Fe) returns (x: Fe)
    requires Tight(num) && Loose(den)
    ensures Tight(x) && Cong(Val(x), Candidate(Val(num), Val(den)))
  {
    ghost var u, v := Val(num), Val(den);
    assert Cong(v, Pow(v, 1)) by { PowOne(v); }
    hide Cong, Pow, Eval, Tight, Medium, Loose, IsProduct, Candidate;
    var t := Square(den);
    ProductIsPow(t, den, den, v, 1, 1);
    var d3 := Mul(t, den);
    ProductIsPow(d3, t, den, v, 2, 1);
    x := Square(d3);
    ProductIsPow(x, d3, d3, v, 3, 3);
    ghost var x0 := x;
    x := Mul(x, den);
    ProductIsPow(x, x0, den, v, 6, 1);
    ghost var x1 := x;
    x := Mul(x, num);
    ghost var x2 := x;
    x := PowTwo252Minus3(x);
    ghost var x3 := x;
    x := Mul(x, d3);
    ghost var x4 := x;
    x := Mul(x, num);
    AssembleCandidate(num, den, d3, x1, x2, x3, x4, x);
  }

  lemma AssembleCandidate(num: Fe, den: Fe, d3: Fe, x1: Fe, x2: Fe, x3: Fe, x4: Fe, x: Fe)
    requires Cong(Val(d3), Pow(Val(den), 3)) && Cong(Val(x1), Pow(Val(den), 7))
    requires IsProduct(x2, x1, num) && Cong(Val(x3), Pow(Val(x2), Q))
    requires IsProduct(x4, x3, d3) && IsProduct(x, x4, num)
    ensures Cong(Val(x), Candidate(Val(num), Val(den)))
  {
    hide Cong, Pow, Eval;
    var u, v := Val(num), Val(den);
    CongRefl(u);
    CongProduct(Val(x2), Val(x1), u, Pow(v, 7), u);
    var m := u * Pow(v, 7);
    CongPow(Val(x2), m, Q);
    CongTrans(Val(x3), Pow(Val(x2), Q), Pow(m, Q));
    CongProduct(Val(x4), Val(x3), Val(d3), Pow(m, Q), Pow(v, 3));
    CongProduct(Val(x), Val(x4), u, Pow(m, Q) * Pow(v, 3), u);
    assert (Pow(m, Q) * Pow(v, 3)) * u == (u * Pow(v, 3)) * Pow(m, Q);
  }

  const ZERO_BYTES: seq<u8> := [0, 0, 0, 0, 0, 0, 0, 0, 0, 0, 0, 0, 0, 0, 0, 0, 0, 0, 0, 0, 0, 0, 0, 0, 0, 0, 0, 0, 0, 0, 0, 0]

  /** Contracting and comparing with zero decides whether an element is zero. */
  method IsZero(a: Fe) returns (zero: bool)
    requires Tight(a)
    ensures zero <==> Cong(Val(a), 0)
  {
    TightIsWide(a);
    ZeroBytesValue();
    var check := Contract(a);
    zero := check == ZERO_BYTES;
    CongIffMod(Val(a), 0);
    hide LeVal, Eval, Cong;
    if LeVal(check) == 0 {
      LeValInjective(check, ZERO_BYTES);
    }
  }

  lemma ZeroBytesValue()
    ensures |ZERO_BYTES| == 32 && LeVal(ZERO_BYTES) == 0
  {
    ZerosValue(ZERO_BYTES);
  }

  /** The root of -1. */
  lemma SqrtNeg1()
    ensures Tight(SQRT_NEG1) && Cong(Val(SQRT_NEG1) * Val(SQRT_NEG1), -1)
  {
  }

  /** If u v has the wrong sign for the candidate, the candidate times sqrt(-1) fits. */
  lemma TwistedRoot(x: int, b: int, u: int, v: int, t: int)
    requires Cong(x, b * Val(SQRT_NEG1)) && Cong(t, (b * b) * v) && Cong(t + u, 0)
    ensures Cong(u, (x * x) * v)
  {
    SqrtNeg1();
    hide Cong, Eval;
    var i := Val(SQRT_NEG1);
    CongMul(x, b * i, x, b * i);
    assert (b * i) * (b * i) == (b * b) * (i * i);
    CongRefl(b * b); CongRefl(v);
    CongMul(b * b, b * b, i * i, -1);
    CongTrans(x * x, (b * b) * (i * i), (b * b) * -1);
    CongMul(x * x, (b * b) * -1, v, v);
    assert ((b * b) * -1) * v == -((b * b) * v);
    CloseSigns(u, (x * x) * v, (b * b) * v, t);
  }

  lemma CloseSigns(u: int, a: int, w: int, t: int)
    requires Cong(a, -w) && Cong(t, w) && Cong(t + u, 0)
    ensures Cong(u, a)
  {
    hide Cong;
    CongSub(t + u, 0, t, w);
    CongSym(a, -w);
    CongTrans(u, -w, a);
  }

  /** Lines 219-230: picks the root that works, if one does. */
  method ChooseRoot(candidate: Fe, num: Fe, den: Fe) returns (ok: bool, x: Fe)
    requires Fermat() && Tight(candidate) && Tight(num) && Loose(den)
    requires Cong(Val(candidate), Candidate(Val(num), Val(den)))
    ensures Tight(x) && (ok ==> Cong(Val(num), (Val(x) * Val(x)) * Val(den)))
    ensures !ok ==> forall y: int :: !Cong(Val(num), (y * y) * Val(den))
  {
    SqrtNeg1();
    hide Cong, Fermat, Eval, Tight, Medium, Loose, IsProduct, Candidate;
    ghost var u, v := Val(num), Val(den);
    x := candidate;
    var t := Square(x);
    ghost var t0 := t;
    t := Mul(t, den);
    SquareTimesDen(t, t0, candidate, den);
    var root := SubReduce(t, num);
    var works := IsZero(root);
    DifferenceZero(Val(root), Val(t), u);
    if works {
      CongSym(Val(t), u);
      CongTrans(u, Val(t), (Val(x) * Val(x)) * v);
      return true, x;
    }
    ghost var t1 := Val(t);
    t := AddReduce(t, num);
    works := IsZero(t);
    SumZero(Val(t), t1, u);
    if !works {
      forall y: int
        ensures !Cong(u, (y * y) * v)
      {
        if Cong(u, (y * y) * v) {
          NeitherSign(candidate, u, v, t1, y);
        }
      }
      return false, x;
    }
    x := Mul(x, SQRT_NEG1);
    TwistedRootFe(x, candidate, u, v, t1);
    return true, x;
  }

  lemma TwistedRootFe(x: Fe, c: Fe, u: int, v: int, t: int)
    requires IsProduct(x, c, SQRT_NEG1) && Cong(t, (Val(c) * Val(c)) * v) && Cong(t + u, 0)
    ensures Cong(u, (Val(x) * Val(x)) * v)
  {
    hide Cong, Eval;
    TwistedRoot(Val(x), Val(c), u, v, t);
  }

  lemma SquareTimesDen(t: Fe, t0: Fe, c: Fe, den: Fe)
    requires IsProduct(t0, c, c) && IsProduct(t, t0, den)
    ensures Cong(Val(t), (Val(c) * Val(c)) * Val(den))
  {
    hide Cong, Eval;
    CongRefl(Val(den));
    CongProduct(Val(t), Val(t0), Val(den), Val(c) * Val(c), Val(den));
  }

  lemma DifferenceZero(r: int, t: int, u: int)
    requires Cong(r, t - u)
    ensures Cong(r, 0) <==> Cong(t, u)
  {
    Show(r, t - u);
    if Cong(r, 0) {
      Show(r, 0);
    }
    if Cong(t, u) {
      Show(t, u);
    }
  }

  lemma SumZero(r: int, t: int, u: int)
    requires Cong(r, t + u)
    ensures Cong(r, 0) <==> Cong(t + u, 0)
  {
    UnitCong(r, t + u);
  }

  lemma NeitherSign(c: Fe, u: int, v: int, t: int, y: int)
    requires Fermat() && Cong(Val(c), Candidate(u, v)) && Cong(t, (Val(c) * Val(c)) * v)
    requires Cong(u, (y * y) * v)
    ensures Cong(t, u) || Cong(t + u, 0)
  {
    hide Fermat, Eval, Candidate, Cong;
    CandidateIsRoot(y, u, v);
    var k := Candidate(u, v);
    CongMul(Val(c), k, Val(c), k);
    CongRefl(v);
    CongProduct(t, Val(c) * Val(c), v, k * k, v);
    assert (k * k) * v == v * (k * k);
    if Cong(v * (k * k), u) {
      CongTrans(t, v * (k * k), u);
    } else {
      CongTrans(t, v * (k * k), -u);
      CongRefl(u);
      CongAdd(t, -u, u, u);
    }
  }

  /** Lines 232-236: flips x when its parity equals the sign bit. */
  method FixSign(x0: Fe, sign: int) returns (x: Fe)
    requires Tight(x0) && 0 <= sign <= 1
    ensures Tight(x) && (Cong(Val(x), Val(x0)) || Cong(Val(x), -Val(x0)))
    ensures Val(x) % P == 0 || (Val(x) % P) % 2 != sign
  {
    hide LeVal, Eval, Tight, Medium, Loose;
    TightIsWide(x0);
    x := x0;
    var check := Contract(x);
    LowBit(check);
    if check[0] % 2 == sign {
      x := Neg(x);
      NegatedParity(Val(x), Val(x0));
    }
  }

  /** p is odd, so a nonzero residue and its negative have opposite parities. */
  lemma NegatedParity(a: int, b: int)
    requires Cong(a, -b)
    ensures a % P == 0 || (a % P) % 2 != (b % P) % 2
  {
    CongIffMod(a, -b);
    var r := b % P;
    assert (-b) % P == if r == 0 then 0 else P - r;
  }

  /** ge25519_unpack_negative_vartime: decides whether the bytes are a point and, if
      they are, returns the one point they decode to, with z = 1. */
  method UnpackNegative(b: seq<u8>) returns (ok: bool, r: Ge, ghost q: Affine)
    requires Fermat() && |b| == 32
    ensures ok ==> Decodes(b, q) && Full(r, q) && r.z == ONE
    ensures !ok ==> forall p: Affine :: !Decodes(b, p)
  {
    ConstantsTight();
    var sign := SignBit(b);
    var y := Expand(b);
    assert Tight(y);
    ghost var yv := Val(y);
    hide Cong, Fermat, Eval, Tight, Medium, Loose, IsProduct, Candidate, IsPoint, LeVal, Add;
    var num := Square(y);
    ghost var yy := num;
    var den := Mul(num, EC_D);
    ghost var den0 := den;
    num := SubReduce(num, ONE);
    den := Add(den, ONE);
    CurveTerms(y, yy, den0, num, den);
    var x := RootCandidate(num, den);
    ok, x := ChooseRoot(x, num, den);
    q := NEUTRAL;
    r := Ge(x, y, ONE, ZERO);
    if !ok {
      NoDecoding(b, yv, Val(num), Val(den));
      return;
    }
    ghost var x0 := x;
    x := FixSign(x, sign);
    var t := Mul(x, y);
    q := Affine(Val(x) % P, yv % P);
    r := Ge(x, y, ONE, t);
    DecodedPoint(b, x0, x, y, t, num, den, q, r);
  }

  lemma CurveTerms(y: Fe, yy: Fe, den0: Fe, num: Fe, den: Fe)
    requires IsProduct(yy, y, y) && IsProduct(den0, yy, EC_D)
    requires Cong(Val(num), Val(yy) - Val(ONE)) && Val(den) == Val(den0) + Val(ONE)
    ensures Cong(Val(num), Val(y) * Val(y) - 1) && Cong(Val(den), D * (Val(y) * Val(y)) + 1)
  {
    assert Val(ONE) == 1 && Val(EC_D) == D;
    hide Cong, Eval;
    var s := Val(y) * Val(y);
    CongRefl(1); CongRefl(D);
    CongSub(Val(yy), s, 1, 1);
    CongTrans(Val(num), Val(yy) - 1, s - 1);
    CongProduct(Val(den0), Val(yy), D, s, D);
    CongAdd(Val(den0), D * s, 1, 1);
  }

  lemma NoDecoding(b: seq<u8>, y: int, u: int, v: int)
    requires |b| == 32 && y == LeVal(b) % TWO255
    requires Cong(u, y * y - 1) && Cong(v, D * (y * y) + 1)
    requires forall x: int :: !Cong(u, (x * x) * v)
    ensures forall p: Affine :: !Decodes(b, p)
  {
    hide LeVal;
    forall p: Affine
      ensures !Decodes(b, p)
    {
      if Decodes(b, p) {
        assert Cong(u, (p.x * p.x) * v) by { PointToEquation(p, y, u, v); }
      }
    }
  }

  lemma PointToEquation(p: Affine, y: int, u: int, v: int)
    requires IsPoint(p) && p.y == y % P
    requires Cong(u, y * y - 1) && Cong(v, D * (y * y) + 1)
    ensures Cong(u, (p.x * p.x) * v)
  {
    hide Cong, IsPoint;
    PointEquation(p);
    ResidueTerms(y, p.y, u, v);
    CurveEquation(p.x, p.y, u, v);
  }

  lemma ResidueTerms(y: int, y': int, u: int, v: int)
    requires y' == y % P && Cong(u, y * y - 1) && Cong(v, D * (y * y) + 1)
    ensures Cong(u, y' * y' - 1) && Cong(v, D * (y' * y') + 1)
  {
    CongMod(y);
    hide Cong;
    CongMul(y, y', y, y');
    CongRefl(1); CongRefl(D);
    CongSub(y * y, y' * y', 1, 1);
    CongTrans(u, y * y - 1, y' * y' - 1);
    CongMul(D, D, y * y, y' * y');
    CongAdd(D * (y * y), D * (y' * y'), 1, 1);
    CongTrans(v, D * (y * y) + 1, D * (y' * y') + 1);
  }

  lemma DecodedPoint(b: seq<u8>, x0: Fe, x: Fe, y: Fe, t: Fe, num: Fe, den: Fe, q: Affine, r: Ge)
    requires |b| == 32 && Val(y) == LeVal(b) % TWO255
    requires Cong(Val(num), Val(y) * Val(y) - 1) && Cong(Val(den), D * (Val(y) * Val(y)) + 1)
    requires Cong(Val(num), (Val(x0) * Val(x0)) * Val(den))
    requires Cong(Val(x), Val(x0)) || Cong(Val(x), -Val(x0))
    requires Val(x) % P == 0 || (Val(x) % P) % 2 != SignBit(b)
    requires IsProduct(t, x, y)
    requires Tight(x) && Tight(y) && Tight(t)
    requires q == Affine(Val(x) % P, Val(y) % P) && r == Ge(x, y, ONE, t)
    ensures Decodes(b, q) && Full(r, q)
  {
    var u, v := Val(num), Val(den);
    NotZero(1);
    assert Val(ONE) == 1 && Tight(ONE);
    CongMod(Val(x)); CongMod(Val(y));
    hide Cong, Eval, LeVal, Tight;
    SignlessSquare(q.x, Val(x), Val(x0));
    CongRefl(v);
    CongMul(q.x * q.x, Val(x0) * Val(x0), v, v);
    CongSym((q.x * q.x) * v, (Val(x0) * Val(x0)) * v);
    CongTrans(u, (Val(x0) * Val(x0)) * v, (q.x * q.x) * v);
    ResidueTerms(Val(y), q.y, u, v);
    CurveEquation(q.x, q.y, u, v);
    CongProduct(Val(t), Val(x), Val(y), q.x, q.y);
  }

  lemma SignlessSquare(a: int, x: int, x0: int)
    requires Cong(x, a) && (Cong(x, x0) || Cong(x, -x0))
    ensures Cong(a * a, x0 * x0)
  {
    hide Cong;
    CongSym(x, a);
    if Cong(x, x0) {
      CongTrans(a, x, x0);
      CongMul(a, x0, a, x0);
    } else {
      CongTrans(a, x, -x0);
      CongMul(a, -x0, a, -x0);
      assert -x0 * -x0 == x0 * x0;
    }
  }

  /** No byte string decodes to two points. */
  lemma DecodingUnique(b: seq<u8>, p: Affine, q: Affine)
    requires Fermat() && |b| == 32 && Decodes(b, p) && Decodes(b, q)
    ensures p == q
  {
    hide LeVal, Fermat, Cong, IsPoint;
    PointRange(p); PointRange(q);
    PointEquation(p); PointEquation(q);
    var y := p.y;
    var u, v := y * y - 1, D * (y * y) + 1;
    CongRefl(u); CongRefl(v);
    CurveEquation(p.x, y, u, v);
    CurveEquation(q.x, y, u, v);
    DenominatorUnit(y, u, v, p.x);
    CongSym(u, (p.x * p.x) * v);
    CongTrans((p.x * p.x) * v, u, (q.x * q.x) * v);
    CancelUnit(v, p.x * p.x, q.x * q.x);
    RootsOfSquare(p.x, q.x);
    SameParity(p.x, q.x);
  }

  lemma SameParity(a: int, b: int)
    requires 0 <= a < P && 0 <= b < P && (Cong(a, b) || Cong(a, -b))
    requires a == 0 || b == 0 || a % 2 == b % 2
    ensures a == b
  {
    if Cong(a, b) {
      CongCanonical(a, b);
    } else if b == 0 {
      CongCanonical(a, 0);
    } else {
      CongOfMultiple(P - b, -b, 1);
      CongSym(P - b, -b);
      CongTrans(a, -b, P - b);
      CongCanonical(a, P - b);
    }
  }

  /** d y^2 + 1 is a unit at every point: otherwise y^2 = 1 and d = -1. */
  lemma DenominatorUnit(y: int, u: int, v: int, x: int)
    requires u == y * y - 1 && v == D * (y * y) + 1 && Cong(u, (x * x) * v)
    ensures !Cong(v, 0)
  {
    hide Cong;
    NotZero(D + 1);
    if Cong(v, 0) {
      CongRefl(x * x); CongRefl(D); CongRefl(1);
      CongMul(x * x, x * x, v, 0);
      CongTrans(u, (x * x) * v, 0);
      CongAdd(u, 0, 1, 1);
      CongMul(D, D, y * y, 1);
      CongAdd(D * (y * y), D * 1, 1, 1);
      CongSym(v, D + 1);
      CongTrans(D + 1, v, 0);
    }
  }
}
