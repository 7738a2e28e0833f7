/** Key generation, signing and verification (src/ed25519-donna/ed25519.c, 22-116;
    sections 5.1.5 to 5.1.7 of RFC 8032). */
module Ed25519 {
  import opened Words
  import opened Modular
  import opened Bytes
  import opened FieldBytes
  import opened AbelianGroups
  import opened Edwards
  import opened CurveOps
  import opened PointBytes
  import opened ModmLimbs
  import opened Barrett
  import opened ScalarBytes
  import opened DoubleMult
  import opened BaseMult
  import Sha512Spec
  import Sha512

  const TWO240: int := 0x1000000000000000000000000000000000000000000000000000000000000
  const TWO245: int := 0x20000000000000000000000000000000000000000000000000000000000000
  const TWO251: int := 0x800000000000000000000000000000000000000000000000000000000000000
  const TWO254: int := 0x4000000000000000000000000000000000000000000000000000000000000000

  /** The two precomputed tables. */
  datatype Tables = Tables(sliding: seq<GeNiels>, multiples: seq<seq<u8>>)

  /** What the code relies on: the curve group, the primality of p, a base point of order
      dividing m, and tables that hold the multiples they should. */
  ghost predicate Setting(g: Group<Point>, base: Point, tables: Tables) {
    && EdwardsGroup(g) && Fermat()
    && Times(g, M, base) == g.zero
    && SlidingTable(tables.sliding, g, base)
    && BaseTable(tables.multiples, g, base)
  }

  // ---- keys ------------------------------------------------------------------------------

  /** The clamping of ed25519_extsk: bits 0 to 2 and 255 cleared, bit 254 set. */
  function Clamped(h: seq<u8>): (e: seq<u8>)
    requires |h| == 64
    ensures |e| == 64 && e[32..] == h[32..]
  {
    h[0 := h[0] - h[0] % 8][31 := h[31] % 64 + 64]
  }

  lemma EndBytes(b: seq<u8>)
    requires |b| == 32
    ensures LeVal(b) == b[0] + 256 * LeVal(b[1..31]) + TWO248 * b[31]
    ensures LeVal(b[1..31]) < TWO240
  {
    LastByte(b);
    assert b[..31][1..] == b[1..31];
    LeValBound(b[1..31]);
    Pow256Words();
    assert Pow256(31) == 256 * Pow256(30);
  }

  /** b0 + 256 mid + 2^248 b31 with its ends clamped. */
  lemma ClampedSum(b0: u8, mid: nat, b31: u8)
    requires mid < TWO240
    ensures b0 - b0 % 8 + 256 * mid + TWO248 * (b31 % 64 + 64)
         == TWO254 + 8 * ((b0 + 256 * mid + TWO248 * b31) / 8 % TWO251)
  {
    var low := b0 / 8 + 32 * mid + TWO245 * (b31 % 64);
    DivModUnique(b0 + 256 * mid + TWO248 * b31, 8, low + TWO251 * (b31 / 64), b0 % 8);
    DivModUnique(low + TWO251 * (b31 / 64), TWO251, b31 / 64, low);
  }

  lemma ClampedRange(q: int)
    requires 0 <= q < TWO251
    ensures (TWO254 + 8 * q) % 8 == 0 && TWO254 <= TWO254 + 8 * q < TWO255
  {
    DivModUnique(TWO254 + 8 * q, 8, TWO251 + q, 0);
  }

  lemma ClampedMiddle(h: seq<u8>)
    requires |h| == 64
    ensures var b, c := h[..32], Clamped(h)[..32];
            c[1..31] == b[1..31] && c[0] == b[0] - b[0] % 8 && c[31] == b[31] % 64 + 64
  {
  }

  /** The clamped scalar is 2^254 plus a multiple of 8 below 2^254: bits 3 to 253 of the hash. */
  lemma ClampedValue(h: seq<u8>)
    requires |h| == 64
    ensures LeVal(Clamped(h)[..32]) == TWO254 + 8 * (LeVal(h[..32]) / 8 % TWO251)
    ensures LeVal(Clamped(h)[..32]) % 8 == 0 && TWO254 <= LeVal(Clamped(h)[..32]) < TWO255
  {
    hide LeVal, Clamped;
    var b, c := h[..32], Clamped(h)[..32];
    EndBytes(b);
    EndBytes(c);
    ClampedMiddle(h);
    ClampedSum(b[0], LeVal(b[1..31]), b[31]);
    ClampedRange(LeVal(b) / 8 % TWO251);
  }

  function ExtendedKey(sk: seq<u8>): (e: seq<u8>)
    ensures |e| == 64
  {
    Clamped(Sha512Spec.Sha512(sk))
  }

  /** The clamped scalar of a secret key, reduced. */
  function SecretScalar(sk: seq<u8>): (a: nat)
    ensures a < M
  {
    LeVal(ExtendedKey(sk)[..32]) % M
  }

  /** H(R, A, m) as a scalar. */
  function Challenge(r: seq<u8>, pk: seq<u8>, m: seq<u8>): (h: nat)
    ensures h < M
  {
    LeVal(Sha512Spec.Sha512(r + pk + m)) % M
  }

  /** The hashed string determines the point, the key and the message, and the scalar is the
      hash of the whole string. */
  lemma ChallengeString(r: seq<u8>, pk: seq<u8>, m: seq<u8>, r': seq<u8>, pk': seq<u8>, m': seq<u8>)
    requires |r| == 32 && |pk| == 32 && |r'| == 32 && |pk'| == 32
    ensures r + pk + m == r' + pk' + m' ==> r == r' && pk == pk' && m == m'
    ensures Challenge(r, pk, m) == LeVal(Sha512Spec.Sha512(r + pk + m)) % M
  {
    hide Sha512Spec.Sha512, LeVal;
    if r + pk + m == r' + pk' + m' {
      assert r == (r + pk + m)[..32] == (r' + pk' + m')[..32] == r';
      assert pk == (r + pk + m)[32..64] == (r' + pk' + m')[32..64] == pk';
      assert m == (r + pk + m)[64..] == (r' + pk' + m')[64..] == m';
    }
  }

  /** The per-message secret H(prefix, m). */
  function Nonce(sk: seq<u8>, m: seq<u8>): (r: nat)
    ensures r < M
  {
    LeVal(Sha512Spec.Sha512(ExtendedKey(sk)[32..] + m)) % M
  }

  /** `b` is the encoding of `q`. */
  predicate Encodes(b: seq<u8>, q: Affine) {
    |b| == 32 && LeVal(b) == Encoding(q)
  }

  /** ed25519_extsk */
  method ExtSk(sk: seq<u8>) returns (extsk: seq<u8>)
    ensures |extsk| == 64 && extsk[32..] == Sha512Spec.Sha512(sk)[32..]
    ensures LeVal(extsk[..32]) == TWO254 + 8 * (LeVal(Sha512Spec.Sha512(sk)[..32]) / 8 % TWO251)
    ensures extsk == ExtendedKey(sk)
  {
    hide Sha512Spec.Sha512, LeVal;
    extsk := Sha512.HashOnce(sk);
    ClampedValue(extsk);
    extsk := extsk[0 := extsk[0] - extsk[0] % 8];
    extsk := extsk[31 := extsk[31] % 128];
    extsk := extsk[31 := extsk[31] % 64 + 64];
    assert extsk == Clamped(Sha512Spec.Sha512(sk));
  }

  /** ed25519_hram */
  method Hram(r: seq<u8>, pk: seq<u8>, m: seq<u8>) returns (hash: seq<u8>)
    ensures hash == Sha512Spec.Sha512(r + pk + m)
  {
    hide *;
    var s := new Sha512.State();
    s.Update(r);
    s.Update(pk);
    s.Update(m);
    assert [] + r + pk + m == r + pk + m;
    hash := s.Final();
  }

  lemma OrderBelow255()
    ensures M < TWO255
  {
  }

  /** [n]B, packed: the common end of key generation and of the first half of signing. */
  method PackMultiple(n: Limbs, tables: Tables, ghost g: Group<Point>, ghost base: Point) returns (b: seq<u8>)
    requires Setting(g, base, tables) && Carried(n) && Value(n) < M
    ensures Encodes(b, Times(g, Value(n), base))
  {
    hide EdwardsGroup, Fermat, SlidingTable, BaseTable, Carried, Value, Full, Partial, Times, LeVal, Encoding;
    OrderBelow255();
    var r := ScalarMultBase(tables.multiples, n, g, base);
    ghost var q := Times(g, Value(n), base);
    FullIsPartial(r, q);
    PointRange(q);
    b := Pack(r, q);
  }

  /** ed25519_publickey */
  method PublicKey(sk: seq<u8>, tables: Tables, ghost g: Group<Point>, ghost base: Point) returns (pk: seq<u8>)
    requires Setting(g, base, tables)
    ensures Encodes(pk, Times(g, (TWO254 + 8 * (LeVal(Sha512Spec.Sha512(sk)[..32]) / 8 % TWO251)) % M, base))
    ensures Encodes(pk, Times(g, SecretScalar(sk), base))
  {
    hide Setting, Encodes, ExtendedKey, LeVal, Times, Carried, Value, Sha512Spec.Sha512;
    var extsk := ExtSk(sk);
    var a := Expand256(extsk[..32]);
    pk := PackMultiple(a, tables, g, base);
  }

  // ---- signing -----------------------------------------------------------------------------

  /** The signature equation: R encodes [r]B and S is r + h a. */
  ghost predicate Signed(rs: seq<u8>, m: seq<u8>, pk: seq<u8>, a: int, r: int, g: Group<Point>, base: Point) {
    && |rs| == 64 && Encodes(rs[..32], Times(g, r, base))
    && LeVal(rs[32..]) == (Challenge(rs[..32], pk, m) * a + r) % M
  }

  /** ed25519_sign */
  method Sign(m: seq<u8>, sk: seq<u8>, pk: seq<u8>, tables: Tables, ghost g: Group<Point>, ghost base: Point)
    returns (rs: seq<u8>)
    requires Setting(g, base, tables)
    ensures |rs| == 64
    ensures Encodes(rs[..32], Times(g, LeVal(Sha512Spec.Sha512(Sha512Spec.Sha512(sk)[32..] + m)) % M, base))
    ensures var a := (TWO254 + 8 * (LeVal(Sha512Spec.Sha512(sk)[..32]) / 8 % TWO251)) % M;
            var r := LeVal(Sha512Spec.Sha512(Sha512Spec.Sha512(sk)[32..] + m)) % M;
            LeVal(rs[32..]) == (LeVal(Sha512Spec.Sha512(rs[..32] + pk + m)) % M * a + r) % M
    ensures Signed(rs, m, pk, SecretScalar(sk), Nonce(sk, m), g, base)
  {
    hide Setting, Encodes, ExtendedKey, LeVal, Times, Carried, Value, Sha512Spec.Sha512;
    var extsk := ExtSk(sk);
    var hashr := HashTwo(extsk[32..], m);
    var r := Expand256(hashr);
    var rBytes := PackMultiple(r, tables, g, base);
    EncodedLength(rBytes, Times(g, Value(r), base));
    var hram := Hram(rBytes, pk, m);
    var s := Expand256(hram);
    var a := Expand256(extsk[..32]);
    var sBytes := SignScalar(s, a, r);
    rs := rBytes + sBytes;
    assert rs[..32] == rBytes && rs[32..] == sBytes;
  }

  lemma EncodedLength(b: seq<u8>, q: Affine)
    requires Encodes(b, q)
    ensures |b| == 32
  {
  }

  /** Lines 68-71 */
  method HashTwo(a: seq<u8>, b: seq<u8>) returns (hash: seq<u8>)
    ensures hash == Sha512Spec.Sha512(a + b)
  {
    hide *;
    var s := new Sha512.State();
    s.Update(a);
    s.Update(b);
    assert [] + a + b == a + b;
    hash := s.Final();
  }

  /** Lines 84-90: h a + r modulo the order, as bytes. */
  method SignScalar(h: Limbs, a: Limbs, r: Limbs) returns (b: seq<u8>)
    requires Carried(h) && Carried(a) && Carried(r) && Value(h) < M && Value(a) < M && Value(r) < M
    ensures |b| == 32 && LeVal(b) == (Value(h) * Value(a) + Value(r)) % M
  {
    hide Carried, Value, LeVal;
    var s := Mul256(h, a);
    s := Add256(s, r);
    ModAdd(Value(h) * Value(a), Value(r));
    b := Contract256(s);
  }

  lemma ModAdd(x: int, y: int)
    ensures (x % M + y) % M == (x + y) % M
  {
    var q := (x % M + y) / M;
    DivModUnique(x + y, M, x / M + q, (x % M + y) % M);
  }

  // ---- verification ---------------------------------------------------------------------------

  /** What a signature has to satisfy: S has its top three bits clear, the key decodes (to
      the negated point), and R encodes [h](-A) + [S]B. */
  ghost predicate Verifies(m: seq<u8>, pk: seq<u8>, rs: seq<u8>, g: Group<Point>, base: Point)
    requires |pk| == 32 && |rs| == 64
  {
    && rs[63] < 32
    && exists neg: Point :: Decodes(pk, neg) && Accepts(m, pk, rs, neg, g, base)
  }

  ghost predicate Accepts(m: seq<u8>, pk: seq<u8>, rs: seq<u8>, neg: Point, g: Group<Point>, base: Point)
    requires |pk| == 32 && |rs| == 64
  {
    Encodes(rs[..32], Comb(g, Challenge(rs[..32], pk, m), neg, LeVal(rs[32..]) % M, base))
  }

  lemma DecodedIsPoint(b: seq<u8>, q: Affine)
    requires |b| == 32 && Decodes(b, q)
    ensures IsPoint(q)
  {
  }

  /** ed25519_sign_open: 0 if the signature verifies, -1 if not. */
  method SignOpen(m: seq<u8>, pk: seq<u8>, rs: seq<u8>, tables: Tables, ghost g: Group<Point>, ghost base: Point)
    returns (ret: int)
    requires Setting(g, base, tables) && |pk| == 32 && |rs| == 64
    ensures ret == 0 || ret == -1
    ensures ret == 0 <==>
            rs[63] < 32 && exists neg: Point ::
              Decodes(pk, neg) &&
              Encodes(rs[..32], Comb(g, LeVal(Sha512Spec.Sha512(rs[..32] + pk + m)) % M, neg, LeVal(rs[32..]) % M, base))
    ensures ret == 0 <==> Verifies(m, pk, rs, g, base)
  {
    hide EdwardsGroup, Fermat, SlidingTable, BaseTable, Decodes, Encodes, LeVal, Comb, Sha512Spec.Sha512, IsPoint, Full;
    // rs[63] & 224 is nonzero exactly when rs[63] >= 32
    if rs[63] >= 32 {
      return -1;
    }
    var ok, a, q := UnpackNegative(pk);
    if !ok {
      return -1;
    }
    DecodedIsPoint(pk, q);
    var same := CheckEquation(m, pk, rs, a, tables, g, base, q);
    OnlyDecoding(m, pk, rs, q, g, base);
    return if same then 0 else -1;
  }

  lemma OnlyDecoding(m: seq<u8>, pk: seq<u8>, rs: seq<u8>, q: Point, g: Group<Point>, base: Point)
    requires Fermat() && |pk| == 32 && |rs| == 64 && rs[63] < 32 && Decodes(pk, q)
    ensures Verifies(m, pk, rs, g, base) <==> Accepts(m, pk, rs, q, g, base)
  {
    hide Fermat, Decodes, Accepts, IsPoint;
    forall neg: Point | Decodes(pk, neg)
      ensures neg == q
    {
      DecodingUnique(pk, neg, q);
    }
  }

  /** Lines 103-115: recomputes R and compares the bytes. */
  method CheckEquation(m: seq<u8>, pk: seq<u8>, rs: seq<u8>, a: Ge, tables: Tables, ghost g: Group<Point>,
                       ghost base: Point, ghost q: Point) returns (same: bool)
    requires Setting(g, base, tables) && |pk| == 32 && |rs| == 64 && Full(a, q)
    ensures same <==> Accepts(m, pk, rs, q, g, base)
  {
    hide EdwardsGroup, Fermat, SlidingTable, BaseTable, IsPoint, Full, Partial, LeVal, Encoding, Carried, Value, Comb,
      Sha512Spec.Sha512, Times;
    OrderBelow255();
    var hash := Hram(rs[..32], pk, m);
    var hram := Expand256(hash);
    var s := Expand256(rs[32..]);
    var r := DoubleScalarMult(a, hram, s, tables.sliding, g, q, base);
    ghost var p := Comb(g, Value(hram), q, Value(s), base);
    PointRange(p);
    var check := Pack(r, p);
    same := rs[..32] == check;
    if LeVal(rs[..32]) == LeVal(check) {
      LeValInjective(rs[..32], check);
    }
  }

  // ---- what is signed verifies -------------------------------------------------------------------

  /** The decoder undoes the encoder, up to the sign it flips on purpose. */
  lemma EncodedDecodes(b: seq<u8>, g: Group<Point>, q: Point)
    requires EdwardsGroup(g) && Encodes(b, q)
    ensures Decodes(b, g.neg(q))
  {
    hide EdwardsGroup, LeVal, IsPoint;
    NegLaw(g, q);
    PointRange(q);
    TopBitClear(b);
    SplitEncoding(q.y, q.x % 2);
    NegatedX(q.x);
  }

  lemma SplitEncoding(y: int, bit: int)
    requires 0 <= y < P && 0 <= bit <= 1
    ensures (y + TWO255 * bit) % TWO255 % P == y && (y + TWO255 * bit) / TWO255 == bit
  {
    DivModUnique(y + TWO255 * bit, TWO255, bit, y);
  }

  lemma NegatedX(x: int)
    requires 0 <= x < P
    ensures (-x) % P == 0 || ((-x) % P) % 2 != x % 2
  {
    assert (-x) % P == if x == 0 then 0 else P - x;
  }

  /** [h](-[a]B) + [h a + r]B = [r]B when [m]B = 0. */
  lemma SignatureEquation<T(!new)>(g: Group<T>, base: T, a: int, r: int, h: int)
    requires Abelian(g) && Times(g, M, base) == g.zero
    ensures Comb(g, h, g.neg(Times(g, a, base)), (h * a + r) % M, base) == Times(g, r, base)
  {
    hide Abelian, Times, Comb;
    TimesNeg(g, a, base);
    TimesTimes(g, h, -a, base);
    OppositeProducts(h, a, r);
    CancelMultiples(g, base, h * -a, h * a + r, r);
    CombOf(g, h, Times(g, -a, base), (h * a + r) % M, base);
  }

  lemma OppositeProducts(h: int, a: int, r: int)
    ensures h * -a + (h * a + r) == r
  {
  }

  lemma CombOf<T(!new)>(g: Group<T>, a: int, p: T, b: int, q: T)
    ensures Comb(g, a, p, b, q) == g.add(Times(g, a, p), Times(g, b, q))
  {
  }

  lemma CancelMultiples<T(!new)>(g: Group<T>, base: T, x: int, n: int, r: int)
    requires Abelian(g) && Times(g, M, base) == g.zero && x + n == r
    ensures g.add(Times(g, x, base), Times(g, n % M, base)) == Times(g, r, base)
  {
    hide Abelian, Times;
    TimesMod(g, n, M, base);
    TimesAdd(g, x, n, base);
  }

  lemma TopByte(s: seq<u8>)
    requires |s| == 32 && LeVal(s) < M
    ensures s[31] < 32
  {
    hide LeVal;
    LastByte(s);
  }

  /** A signature made with the key's own scalar verifies under the key. */
  lemma SignedVerifies(rs: seq<u8>, m: seq<u8>, pk: seq<u8>, a: int, r: int, g: Group<Point>, base: Point, tables: Tables)
    requires Setting(g, base, tables) && Encodes(pk, Times(g, a, base)) && Signed(rs, m, pk, a, r, g, base)
    ensures |pk| == 32 && |rs| == 64 && Verifies(m, pk, rs, g, base)
  {
    hide EdwardsGroup, Fermat, SlidingTable, BaseTable, Times, LeVal, IsPoint, Decodes, Challenge, Abelian, Comb, Encoding;
    GroupAbelian(g);
    var key := Times(g, a, base);
    var neg: Point := g.neg(key);
    EncodedDecodes(pk, g, key);
    var h := Challenge(rs[..32], pk, m);
    SignatureEquation(g, base, a, r, h);
    var s := (h * a + r) % M;
    assert s % M == s by { DivModUnique(s, M, 0, s); }
    TopByte(rs[32..]);
    assert Accepts(m, pk, rs, neg, g, base);
  }

  /** For every secret key and message: derive the key, sign, open. */
  method SignThenOpen(sk: seq<u8>, m: seq<u8>, tables: Tables, ghost g: Group<Point>, ghost base: Point) returns (ret: int)
    requires Setting(g, base, tables)
    ensures ret == 0
  {
    hide Setting, Signed, Verifies, Encodes, SecretScalar, Nonce, Times;
    var pk := PublicKey(sk, tables, g, base);
    EncodedLength(pk, Times(g, SecretScalar(sk), base));
    var rs := Sign(m, sk, pk, tables, g, base);
    SignedVerifies(rs, m, pk, SecretScalar(sk), Nonce(sk, m), g, base, tables);
    ret := SignOpen(m, pk, rs, tables, g, base);
  }
}
