/** The byte order of SHA-512: how words and the length field are written out (section 3.1 of
    FIPS 180-4). */
module Sha512Bytes {
  import opened Words
  import Bytes
  import opened BitForms
  import opened Sha512Spec

  // ---- bytes ----------------------------------------------------------------------------------------

  /** The integer a big-endian byte string encodes. */
  function BeVal(b: seq<u8>): nat {
    if b == [] then 0 else 256 * BeVal(b[..|b| - 1]) + b[|b| - 1]
  }

  /** A byte survives the way to a bit vector and back. */
  lemma ByteBits(n: int)
    requires 0 <= n < 256
    ensures (n as bv8) as int == n
  {
    if n < 16 {
    } else if n < 32 {
    } else if n < 64 {
    } else if n < 128 {
    }
  }

  lemma JoinValue(b0: bv8, b1: bv8, b2: bv8, b3: bv8, b4: bv8, b5: bv8, b6: bv8, b7: bv8)
    ensures Join(b0, b1, b2, b3, b4, b5, b6, b7) as int
         == Eight(b0 as int, b1 as int, b2 as int, b3 as int, b4 as int, b5 as int, b6 as int, b7 as int)
  {
    assert ((b0 as bv64 << 56) | (b1 as bv64 << 48) | (b2 as bv64 << 40) | (b3 as bv64 << 32)
            | (b4 as bv64 << 24) | (b5 as bv64 << 16) | (b6 as bv64 << 8) | b7 as bv64) as int
        == Eight(b0 as int, b1 as int, b2 as int, b3 as int, b4 as int, b5 as int, b6 as int, b7 as int);
  }

  function Eight(b0: int, b1: int, b2: int, b3: int, b4: int, b5: int, b6: int, b7: int): int {
    256 * (256 * (256 * (256 * (256 * (256 * (256 * b0 + b1) + b2) + b3) + b4) + b5) + b6) + b7
  }

  lemma BeValStep(b: seq<u8>, k: nat)
    requires k < |b|
    ensures BeVal(b[..k + 1]) == 256 * BeVal(b[..k]) + b[k]
  {
    assert b[..k + 1][..k] == b[..k];
  }

  lemma BeValOfEight(b: seq<u8>)
    requires |b| == 8
    ensures BeVal(b) == Eight(b[0], b[1], b[2], b[3], b[4], b[5], b[6], b[7])
  {
    hide BeVal;
    FirstFour(b);
    BeValStep(b, 4); BeValStep(b, 5); BeValStep(b, 6); BeValStep(b, 7);
    assert b[..8] == b;
  }

  lemma FirstFour(b: seq<u8>)
    requires |b| == 8
    ensures BeVal(b[..4]) == 256 * (256 * (256 * (b[0] as int) + b[1]) + b[2]) + b[3]
  {
    assert BeVal(b[..0]) == 0;
    hide BeVal;
    BeValStep(b, 0); BeValStep(b, 1); BeValStep(b, 2); BeValStep(b, 3);
  }

  /** A loaded word has the big-endian value of its eight bytes. */
  lemma LoadValue(b: seq<u8>, at: nat)
    requires at + 8 <= |b|
    ensures Load64(b, at).bits as int == BeVal(b[at..at + 8])
  {
    hide Join, Eight, BeVal;
    var c := b[at..at + 8];
    ByteBits(c[0]); ByteBits(c[1]); ByteBits(c[2]); ByteBits(c[3]);
    ByteBits(c[4]); ByteBits(c[5]); ByteBits(c[6]); ByteBits(c[7]);
    JoinValue(c[0] as bv8, c[1] as bv8, c[2] as bv8, c[3] as bv8, c[4] as bv8, c[5] as bv8, c[6] as bv8, c[7] as bv8);
    BeValOfEight(c);
  }

  lemma StoredHigh(w: Word)
    ensures var b, v := Store64(w), w.bits;
            b[0] as bv8 == ((v >> 56) & 255) as bv8 && b[1] as bv8 == ((v >> 48) & 255) as bv8 &&
            b[2] as bv8 == ((v >> 40) & 255) as bv8 && b[3] as bv8 == ((v >> 32) & 255) as bv8
  {
  }

  lemma StoredLow(w: Word)
    ensures var b, v := Store64(w), w.bits;
            b[4] as bv8 == ((v >> 24) & 255) as bv8 && b[5] as bv8 == ((v >> 16) & 255) as bv8 &&
            b[6] as bv8 == ((v >> 8) & 255) as bv8 && b[7] as bv8 == (v & 255) as bv8
  {
  }

  lemma JoinOctets(v: bv64)
    ensures Join(((v >> 56) & 255) as bv8, ((v >> 48) & 255) as bv8, ((v >> 40) & 255) as bv8, ((v >> 32) & 255) as bv8,
                 ((v >> 24) & 255) as bv8, ((v >> 16) & 255) as bv8, ((v >> 8) & 255) as bv8, (v & 255) as bv8) == v
  {
  }

  /** Loading undoes storing. */
  lemma LoadStore(w: Word)
    ensures Load64(Store64(w), 0) == w
  {
    hide Join, Store64;
    StoredHigh(w);
    StoredLow(w);
    JoinOctets(w.bits);
  }

  /** A stored word is written out big-endian. */
  lemma StoreValue(w: Word)
    ensures BeVal(Store64(w)) == w.bits as int
  {
    hide Load64, Store64, BeVal;
    LoadStore(w);
    LoadValue(Store64(w), 0);
    assert Store64(w)[0..8] == Store64(w);
  }

  lemma {:induction false} BeValInjective(a: seq<u8>, b: seq<u8>)
    requires |a| == |b| && BeVal(a) == BeVal(b)
    ensures a == b
  {
    if a != [] {
      var k := |a| - 1;
      BeValInjective(a[..k], b[..k]);
      assert a == a[..k] + [a[k]] && b == b[..k] + [b[k]];
    }
  }

  /** Storing undoes loading. */
  lemma StoreLoad(b: seq<u8>)
    requires |b| == 8
    ensures Store64(Load64(b, 0)) == b
  {
    hide Load64, Store64, BeVal;
    StoreValue(Load64(b, 0));
    LoadValue(b, 0);
    assert b[0..8] == b;
    BeValInjective(Store64(Load64(b, 0)), b);
  }

  lemma {:induction false} BeValConcat(a: seq<u8>, b: seq<u8>)
    ensures BeVal(a + b) == BeVal(a) * Bytes.Pow256(|b|) + BeVal(b)
  {
    if b == [] {
      assert a + b == a;
    } else {
      var k := |b| - 1;
      assert (a + b)[..|a| + k] == a + b[..k];
      BeValConcat(a, b[..k]);
      Shifted(BeVal(a), Bytes.Pow256(k), BeVal(b[..k]), b[k]);
    }
  }

  lemma Shifted(x: int, p: int, y: int, z: int)
    ensures 256 * (x * p + y) + z == x * (256 * p) + (256 * y + z)
  {
  }

  /** One more byte of a quotient. */
  lemma Peel(v: int, d: int)
    requires v >= 0 && d > 0
    ensures v / d == 256 * (v / (256 * d)) + v / d % 256
  {
    PeelTo(v, d, v / d, v % d, v / d / 256, v / d % 256);
  }

  lemma PeelTo(v: int, d: int, q: int, r: int, high: int, low: int)
    requires d > 0 && v == q * d + r && 0 <= r < d && q == 256 * high + low && 0 <= low < 256
    ensures v / (256 * d) == high
  {
    ProductAtMost(low, d, 255, d);
    DivModUnique(v, 256 * d, high, low * d + r);
  }

  lemma FieldValue(v: u64)
    ensures BeVal(Be64(v)) == v
  {
    hide BeVal;
    BeValOfEight(Be64(v));
    Peel(v, 1);
    Peel(v, 0x100);
    Peel(v, 0x10000);
    Peel(v, 0x1000000);
    Peel(v, 0x100000000);
    Peel(v, 0x10000000000);
    Peel(v, 0x1000000000000);
  }

  /** The length field holds the bit count modulo 2^128, big-endian. */
  lemma LengthValue(bits: nat)
    ensures BeVal(LengthField(bits)) == bits % W128
  {
    hide BeVal, Be64;
    var high, low := bits % W128 / W64, bits % W64;
    FieldValue(high);
    FieldValue(low);
    BeValConcat(Be64(high), Be64(low));
    assert Bytes.Pow256(8) == W64;
    assert bits % W128 % W64 == bits % W64;
  }
}
