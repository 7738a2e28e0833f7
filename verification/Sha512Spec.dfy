/** A 64-bit word, and the select and majority functions of section 4.1.3 of FIPS 180-4
    next to the forms with fewer operations that the source computes. */
module BitForms {

  datatype Word = Word(bits: bv64)

  function ChBits(x: bv64, y: bv64, z: bv64): bv64 { (x & y) ^ (!x & z) }

  function MajBits(x: bv64, y: bv64, z: bv64): bv64 { (x & y) ^ (x & z) ^ (y & z) }

  function ChFastBits(x: bv64, y: bv64, z: bv64): bv64 { z ^ (x & (y ^ z)) }

  function MajFastBits(x: bv64, y: bv64, z: bv64): bv64 { ((x | y) & z) | (x & y) }

  function Xor(x: bv64, y: bv64): bv64 { x ^ y }

  // A rotation to the right by n is written (x >> n) | (x << 64 - n).

  function BigSigma0Bits(x: bv64): bv64 {
    Xor(Xor((x >> 28) | (x << 36), (x >> 34) | (x << 30)), (x >> 39) | (x << 25))
  }

  function BigSigma1Bits(x: bv64): bv64 {
    Xor(Xor((x >> 14) | (x << 50), (x >> 18) | (x << 46)), (x >> 41) | (x << 23))
  }

  function SmallSigma0Bits(x: bv64): bv64 {
    Xor(Xor((x >> 1) | (x << 63), (x >> 8) | (x << 56)), x >> 7)
  }

  function SmallSigma1Bits(x: bv64): bv64 {
    Xor(Xor((x >> 19) | (x << 45), (x >> 61) | (x << 3)), x >> 6)
  }

  lemma SelectIdentity(x: bv64, y: bv64, z: bv64)
    ensures z ^ (x & (y ^ z)) == (x & y) ^ (!x & z)
  {
  }

  lemma MajorityIdentity(x: bv64, y: bv64, z: bv64)
    ensures ((x | y) & z) | (x & y) == (x & y) ^ (x & z) ^ (y & z)
  {
  }

  lemma ChFormsBits(x: bv64, y: bv64, z: bv64)
    ensures ChFastBits(x, y, z) == ChBits(x, y, z)
  {
    SelectIdentity(x, y, z);
  }

  lemma MajFormsBits(x: bv64, y: bv64, z: bv64)
    ensures MajFastBits(x, y, z) == MajBits(x, y, z)
  {
    MajorityIdentity(x, y, z);
  }

  function Ch(x: Word, y: Word, z: Word): Word { Word(ChBits(x.bits, y.bits, z.bits)) }

  function Maj(x: Word, y: Word, z: Word): Word { Word(MajBits(x.bits, y.bits, z.bits)) }

  function ChFast(x: Word, y: Word, z: Word): Word { Word(ChFastBits(x.bits, y.bits, z.bits)) }

  function MajFast(x: Word, y: Word, z: Word): Word { Word(MajFastBits(x.bits, y.bits, z.bits)) }

  lemma ChForms(x: Word, y: Word, z: Word)
    ensures ChFast(x, y, z) == Ch(x, y, z)
  {
    hide ChBits, ChFastBits;
    ChFormsBits(x.bits, y.bits, z.bits);
  }

  lemma MajForms(x: Word, y: Word, z: Word)
    ensures MajFast(x, y, z) == Maj(x, y, z)
  {
    hide MajBits, MajFastBits;
    MajFormsBits(x.bits, y.bits, z.bits);
  }

  function BigSigma0(x: Word): Word { Word(BigSigma0Bits(x.bits)) }

  function BigSigma1(x: Word): Word { Word(BigSigma1Bits(x.bits)) }

  function SmallSigma0(x: Word): Word { Word(SmallSigma0Bits(x.bits)) }

  function SmallSigma1(x: Word): Word { Word(SmallSigma1Bits(x.bits)) }

  // ---- bits -----------------------------------------------------------------------------------------

  /** Bit j of a word, counted from the low end, is set. */
  predicate Bit(x: bv64, j: bv64)
    requires j < 64
  {
    (x >> j) & 1 == 1
  }

  lemma XorBit(x: bv64, y: bv64, j: bv64)
    requires j < 64
    ensures Bit(Xor(x, y), j) <==> (Bit(x, j) != Bit(y, j))
  {
    assert ((x ^ y) >> j) & 1 == ((x >> j) & 1) ^ ((y >> j) & 1);
  }

  lemma XorBits(x: bv64, y: bv64, z: bv64, j: bv64)
    requires j < 64
    ensures Bit(Xor(Xor(x, y), z), j) <==> ((Bit(x, j) != Bit(y, j)) != Bit(z, j))
  {
    hide Bit, Xor;
    XorBit(x, y, j);
    XorBit(Xor(x, y), z, j);
  }

  lemma Rotated28(x: bv64, j: bv64)
    requires j < 64
    ensures Bit((x >> 28) | (x << 36), j) == Bit(x, (j + 28) & 63)
  {
  }

  lemma Rotated34(x: bv64, j: bv64)
    requires j < 64
    ensures Bit((x >> 34) | (x << 30), j) == Bit(x, (j + 34) & 63)
  {
  }

  lemma Rotated39(x: bv64, j: bv64)
    requires j < 64
    ensures Bit((x >> 39) | (x << 25), j) == Bit(x, (j + 39) & 63)
  {
  }

  /** Bit j of Sigma0 is the exclusive or of bits j + 28, j + 34 and j + 39, around the word. */
  lemma BigSigma0Positions(x: bv64, j: bv64)
    requires j < 64
    ensures Bit(BigSigma0(Word(x)).bits, j) <==>
            ((Bit(x, (j + 28) & 63) != Bit(x, (j + 34) & 63)) != Bit(x, (j + 39) & 63))
  {
    hide Bit, Xor;
    Rotated28(x, j); Rotated34(x, j); Rotated39(x, j);
    XorBits((x >> 28) | (x << 36), (x >> 34) | (x << 30), (x >> 39) | (x << 25), j);
  }

  lemma Rotated14(x: bv64, j: bv64)
    requires j < 64
    ensures Bit((x >> 14) | (x << 50), j) == Bit(x, (j + 14) & 63)
  {
  }

  lemma Rotated18(x: bv64, j: bv64)
    requires j < 64
    ensures Bit((x >> 18) | (x << 46), j) == Bit(x, (j + 18) & 63)
  {
  }

  lemma Rotated41(x: bv64, j: bv64)
    requires j < 64
    ensures Bit((x >> 41) | (x << 23), j) == Bit(x, (j + 41) & 63)
  {
  }

  /** Bit j of Sigma1 is the exclusive or of bits j + 14, j + 18 and j + 41, around the word. */
  lemma BigSigma1Positions(x: bv64, j: bv64)
    requires j < 64
    ensures Bit(BigSigma1(Word(x)).bits, j) <==>
            ((Bit(x, (j + 14) & 63) != Bit(x, (j + 18) & 63)) != Bit(x, (j + 41) & 63))
  {
    hide Bit, Xor;
    Rotated14(x, j); Rotated18(x, j); Rotated41(x, j);
    XorBits((x >> 14) | (x << 50), (x >> 18) | (x << 46), (x >> 41) | (x << 23), j);
  }

  lemma Rotated1(x: bv64, j: bv64)
    requires j < 64
    ensures Bit((x >> 1) | (x << 63), j) == Bit(x, (j + 1) & 63)
  {
  }

  lemma Rotated8(x: bv64, j: bv64)
    requires j < 64
    ensures Bit((x >> 8) | (x << 56), j) == Bit(x, (j + 8) & 63)
  {
  }

  lemma Shifted7(x: bv64, j: bv64)
    requires j < 64
    ensures Bit(x >> 7, j) <==> j < 57 && Bit(x, j + 7)
  {
  }

  /** Bit j of sigma0 is the exclusive or of bits j + 1 and j + 8, around the word, and of bit j + 7 if there is one. */
  lemma SmallSigma0Positions(x: bv64, j: bv64)
    requires j < 64
    ensures Bit(SmallSigma0(Word(x)).bits, j) <==>
            ((Bit(x, (j + 1) & 63) != Bit(x, (j + 8) & 63)) != (j < 57 && Bit(x, j + 7)))
  {
    hide Bit, Xor;
    Rotated1(x, j); Rotated8(x, j); Shifted7(x, j);
    XorBits((x >> 1) | (x << 63), (x >> 8) | (x << 56), x >> 7, j);
  }

  lemma Rotated19(x: bv64, j: bv64)
    requires j < 64
    ensures Bit((x >> 19) | (x << 45), j) == Bit(x, (j + 19) & 63)
  {
  }

  lemma Rotated61(x: bv64, j: bv64)
    requires j < 64
    ensures Bit((x >> 61) | (x << 3), j) == Bit(x, (j + 61) & 63)
  {
  }

  lemma Shifted6(x: bv64, j: bv64)
    requires j < 64
    ensures Bit(x >> 6, j) <==> j < 58 && Bit(x, j + 6)
  {
  }

  /** Bit j of sigma1 is the exclusive or of bits j + 19 and j + 61, around the word, and of bit j + 6 if there is one. */
  lemma SmallSigma1Positions(x: bv64, j: bv64)
    requires j < 64
    ensures Bit(SmallSigma1(Word(x)).bits, j) <==>
            ((Bit(x, (j + 19) & 63) != Bit(x, (j + 61) & 63)) != (j < 58 && Bit(x, j + 6)))
  {
    hide Bit, Xor;
    Rotated19(x, j); Rotated61(x, j); Shifted6(x, j);
    XorBits((x >> 19) | (x << 45), (x >> 61) | (x << 3), x >> 6, j);
  }
}

/** SHA-512 as FIPS 180-4 defines it: padding (section 5.1.2), the message schedule and
    the compression of one block (section 6.4.2), and the digest of a whole message. */
module Sha512Spec {
  import opened Words
  import opened BitForms

  const BLOCK: nat := 128

  const K_A: seq<Word> :=
    [Word(0x428a2f98d728ae22), Word(0x7137449123ef65cd), Word(0xb5c0fbcfec4d3b2f), Word(0xe9b5dba58189dbbc),
     Word(0x3956c25bf348b538), Word(0x59f111f1b605d019), Word(0x923f82a4af194f9b), Word(0xab1c5ed5da6d8118),
     Word(0xd807aa98a3030242), Word(0x12835b0145706fbe), Word(0x243185be4ee4b28c), Word(0x550c7dc3d5ffb4e2),
     Word(0x72be5d74f27b896f), Word(0x80deb1fe3b1696b1), Word(0x9bdc06a725c71235), Word(0xc19bf174cf692694)]

  const K_B: seq<Word> :=
    [Word(0xe49b69c19ef14ad2), Word(0xefbe4786384f25e3), Word(0x0fc19dc68b8cd5b5), Word(0x240ca1cc77ac9c65),
     Word(0x2de92c6f592b0275), Word(0x4a7484aa6ea6e483), Word(0x5cb0a9dcbd41fbd4), Word(0x76f988da831153b5),
     Word(0x983e5152ee66dfab), Word(0xa831c66d2db43210), Word(0xb00327c898fb213f), Word(0xbf597fc7beef0ee4),
     Word(0xc6e00bf33da88fc2), Word(0xd5a79147930aa725), Word(0x06ca6351e003826f), Word(0x142929670a0e6e70)]

  const K_C: seq<Word> :=
    [Word(0x27b70a8546d22ffc), Word(0x2e1b21385c26c926), Word(0x4d2c6dfc5ac42aed), Word(0x53380d139d95b3df),
     Word(0x650a73548baf63de), Word(0x766a0abb3c77b2a8), Word(0x81c2c92e47edaee6), Word(0x92722c851482353b),
     Word(0xa2bfe8a14cf10364), Word(0xa81a664bbc423001), Word(0xc24b8b70d0f89791), Word(0xc76c51a30654be30),
     Word(0xd192e819d6ef5218), Word(0xd69906245565a910), Word(0xf40e35855771202a), Word(0x106aa07032bbd1b8)]

  const K_D: seq<Word> :=
    [Word(0x19a4c116b8d2d0c8), Word(0x1e376c085141ab53), Word(0x2748774cdf8eeb99), Word(0x34b0bcb5e19b48a8),
     Word(0x391c0cb3c5c95a63), Word(0x4ed8aa4ae3418acb), Word(0x5b9cca4f7763e373), Word(0x682e6ff3d6b2b8a3),
     Word(0x748f82ee5defb2fc), Word(0x78a5636f43172f60), Word(0x84c87814a1f0ab72), Word(0x8cc702081a6439ec),
     Word(0x90befffa23631e28), Word(0xa4506cebde82bde9), Word(0xbef9a3f7b2c67915), Word(0xc67178f2e372532b)]

  const K_E: seq<Word> :=
    [Word(0xca273eceea26619c), Word(0xd186b8c721c0c207), Word(0xeada7dd6cde0eb1e), Word(0xf57d4f7fee6ed178),
     Word(0x06f067aa72176fba), Word(0x0a637dc5a2c898a6), Word(0x113f9804bef90dae), Word(0x1b710b35131c471b),
     Word(0x28db77f523047d84), Word(0x32caab7b40c72493), Word(0x3c9ebe0a15c9bebc), Word(0x431d67c49c100d4c),
     Word(0x4cc5d4becb3e42b6), Word(0x597f299cfc657e2a), Word(0x5fcb6fab3ad6faec), Word(0x6c44198c4a475817)]

  /** The round constants. */
  const K: seq<Word> := K_A + K_B + K_C + K_D + K_E

  const INITIAL: Hash :=
    [Word(0x6a09e667f3bcc908), Word(0xbb67ae8584caa73b), Word(0x3c6ef372fe94f82b), Word(0xa54ff53a5f1d36f1),
     Word(0x510e527fade682d1), Word(0x9b05688c2b3e6c1f), Word(0x1f83d9abfb41bd6b), Word(0x5be0cd19137e2179)]

  lemma KLength()
    ensures |K| == 80
  {
  }

  /** The eight words of the hash value. */
  type Hash = h: seq<Word> | |h| == 8 witness seq(8, i => Word(0))

  /** A message block. */
  type Block = b: seq<u8> | |b| == 128 witness seq(128, i => 0)

  /** Addition modulo 2^64. */
  function Plus(x: Word, y: Word): Word { Word(x.bits + y.bits) }

  // ---- one block -----------------------------------------------------------------------

  function Join(b0: bv8, b1: bv8, b2: bv8, b3: bv8, b4: bv8, b5: bv8, b6: bv8, b7: bv8): bv64 {
    (b0 as bv64 << 56) | (b1 as bv64 << 48) | (b2 as bv64 << 40) | (b3 as bv64 << 32)
    | (b4 as bv64 << 24) | (b5 as bv64 << 16) | (b6 as bv64 << 8) | b7 as bv64
  }

  /** Big-endian word of eight bytes. */
  function Load64(b: seq<u8>, at: nat): Word
    requires at + 8 <= |b|
  {
    Word(Join(b[at] as bv8, b[at + 1] as bv8, b[at + 2] as bv8, b[at + 3] as bv8,
              b[at + 4] as bv8, b[at + 5] as bv8, b[at + 6] as bv8, b[at + 7] as bv8))
  }

  /** W_t from W_(t-2), W_(t-7), W_(t-15) and W_(t-16). */
  function NextWord(a: Word, b: Word, c: Word, d: Word): Word {
    Plus(Plus(Plus(SmallSigma1(a), b), SmallSigma0(c)), d)
  }

  /** The message schedule W_t. */
  function Schedule(block: Block, t: nat): Word {
    if t < 16 then Load64(block, 8 * t)
    else NextWord(Schedule(block, t - 2), Schedule(block, t - 7), Schedule(block, t - 15), Schedule(block, t - 16))
  }

  function Temp1(e: Word, f: Word, g: Word, h: Word, k: Word, w: Word): Word {
    Plus(Plus(Plus(Plus(h, BigSigma1(e)), Ch(e, f, g)), k), w)
  }

  function Temp2(a: Word, b: Word, c: Word): Word {
    Plus(BigSigma0(a), Maj(a, b, c))
  }

  /** One round on the working variables a..h. */
  function Round(v: Hash, k: Word, w: Word): Hash {
    var t1 := Temp1(v[4], v[5], v[6], v[7], k, w);
    var t2 := Temp2(v[0], v[1], v[2]);
    [Plus(t1, t2), v[0], v[1], v[2], Plus(v[3], t1), v[4], v[5], v[6]]
  }

  function Rounds(v: Hash, block: Block, n: nat): Hash
    requires n <= |K|
  {
    if n == 0 then v else Round(Rounds(v, block, n - 1), K[n - 1], Schedule(block, n - 1))
  }

  function AddWords(a: Hash, b: Hash): Hash {
    [Plus(a[0], b[0]), Plus(a[1], b[1]), Plus(a[2], b[2]), Plus(a[3], b[3]),
     Plus(a[4], b[4]), Plus(a[5], b[5]), Plus(a[6], b[6]), Plus(a[7], b[7])]
  }

  function Compress(h: Hash, block: Block): Hash {
    AddWords(Rounds(h, block, |K|), h)
  }

  // ---- the whole message ------------------------------------------------------------------

  /** Feeds a string of whole blocks to `step` from left to right. */
  function Fold<S>(step: (S, Block) -> S, s: S, data: seq<u8>): S
    requires |data| % BLOCK == 0
  {
    if data == [] then s else Fold(step, step(s, data[..BLOCK]), data[BLOCK..])
  }

  lemma {:induction false} FoldConcat<S>(step: (S, Block) -> S, s: S, a: seq<u8>, b: seq<u8>)
    requires |a| % BLOCK == 0 && |b| % BLOCK == 0
    ensures |a + b| % BLOCK == 0 && Fold(step, s, a + b) == Fold(step, Fold(step, s, a), b)
    decreases |a|
  {
    if a == [] {
      assert a + b == b;
    } else {
      FoldConcat(step, step(s, a[..BLOCK]), a[BLOCK..], b);
      assert (a + b)[..BLOCK] == a[..BLOCK] && (a + b)[BLOCK..] == a[BLOCK..] + b;
    }
  }

  lemma FoldOne<S>(step: (S, Block) -> S, s: S, block: Block)
    ensures Fold(step, s, block) == step(s, block)
  {
    assert block[..BLOCK] == block && block[BLOCK..] == [];
  }

  function Zeros(n: nat): (z: seq<u8>)
    ensures |z| == n
  {
    seq(n, i => 0)
  }

  /** Eight bytes of a word, high byte first. */
  function Be64(v: u64): (b: seq<u8>)
    ensures |b| == 8
  {
    [v / 0x100000000000000, v / 0x1000000000000 % 256, v / 0x10000000000 % 256, v / 0x100000000 % 256,
     v / 0x1000000 % 256, v / 0x10000 % 256, v / 0x100 % 256, v % 256]
  }

  /** The 128-bit length field. */
  function LengthField(bits: nat): (b: seq<u8>)
    ensures |b| == 16
  {
    Be64(bits % W128 / W64) + Be64(bits % W64)
  }

  /** How many zero bytes go between the one bit and the length. */
  function ZeroCount(len: nat): (n: nat)
    ensures (len + 1 + n + 16) % BLOCK == 0 && n < BLOCK
  {
    var r := len % BLOCK;
    if r <= 111 then 111 - r else 239 - r
  }

  function Pad(m: seq<u8>): (p: seq<u8>)
    ensures |p| % BLOCK == 0
  {
    m + [0x80] + Zeros(ZeroCount(|m|)) + LengthField(8 * |m|)
  }

  /** The low byte of a word. */
  function Octet(v: bv64): u8 {
    (v & 255) as bv8 as int
  }

  /** sha512_store64_be: eight bytes of a hash word, high byte first. */
  function Store64(w: Word): (b: seq<u8>)
    ensures |b| == 8
  {
    var v := w.bits;
    [Octet(v >> 56), Octet(v >> 48), Octet(v >> 40), Octet(v >> 32), Octet(v >> 24), Octet(v >> 16), Octet(v >> 8), Octet(v)]
  }

  /** Big-endian bytes of eight words. */
  function Digest(h: Hash): (d: seq<u8>)
    ensures |d| == 64
  {
    Store64(h[0]) + Store64(h[1]) + Store64(h[2]) + Store64(h[3])
    + Store64(h[4]) + Store64(h[5]) + Store64(h[6]) + Store64(h[7])
  }

  /** SHA-512 of a message. */
  function Sha512(m: seq<u8>): (d: seq<u8>)
    ensures |d| == 64
  {
    Digest(Fold(Compress, INITIAL, Pad(m)))
  }
}
