/** Little-endian byte strings. */
module Bytes {
  import opened Words

  function Pow256(n: nat): (r: nat)
    ensures r >= 1
  {
    if n == 0 then 1 else 256 * Pow256(n - 1)
  }

  /** The integer a little-endian byte string encodes. */
  function LeVal(b: seq<u8>): nat {
    if b == [] then 0 else b[0] + 256 * LeVal(b[1..])
  }

  lemma {:induction false} LeValBound(b: seq<u8>)
    ensures LeVal(b) < Pow256(|b|)
  {
    if b == [] {
    } else {
      LeValBound(b[1..]);
    }
  }

  lemma {:induction false} LeValConcat(a: seq<u8>, b: seq<u8>)
    ensures LeVal(a + b) == LeVal(a) + Pow256(|a|) * LeVal(b)
  {
    if a == [] {
      assert a + b == b;
    } else {
      LeValConcat(a[1..], b);
      assert (a + b)[1..] == a[1..] + b;
      assert 256 * (Pow256(|a| - 1) * LeVal(b)) == Pow256(|a|) * LeVal(b);
    }
  }

  /** A byte string of known length is determined by its value. */
  lemma {:induction false} LeValInjective(a: seq<u8>, b: seq<u8>)
    requires |a| == |b| && LeVal(a) == LeVal(b)
    ensures a == b
  {
    if a == [] {
    } else {
      assert LeVal(a) == a[0] + 256 * LeVal(a[1..]);
      assert LeVal(b) == b[0] + 256 * LeVal(b[1..]);
      assert a[0] == b[0];
      LeValInjective(a[1..], b[1..]);
      assert a == [a[0]] + a[1..] && b == [b[0]] + b[1..];
    }
  }

  lemma Pow256Words()
    ensures Pow256(0) == 1
    ensures Pow256(8) == W64
    ensures Pow256(16) == W128
    ensures Pow256(24) == 0x1000000000000000000000000000000000000000000000000
    ensures Pow256(31) == 0x100000000000000000000000000000000000000000000000000000000000000
    ensures Pow256(32) == TWO256
  {
    assert Pow256(8) == W64;
    assert Pow256(12) == 0x1000000000000000000000000;
    assert Pow256(16) == W128;
    assert Pow256(20) == 0x10000000000000000000000000000000000000000;
    assert Pow256(24) == 0x1000000000000000000000000000000000000000000000000;
    assert Pow256(28) == 0x100000000000000000000000000000000000000000000000000000000;
  }

  function Word4(b0: int, b1: int, b2: int, b3: int): int {
    b0 + b1 * 0x100 + b2 * 0x10000 + b3 * 0x1000000
  }

  /** u8to64_le: the word in eight bytes starting at `at`. */
  function Load64(b: seq<u8>, at: nat): (w: u64)
    requires at + 8 <= |b|
    ensures w == LeVal(b[at..at + 8])
  {
    LeValOfEight(b[at..at + 8]);
    Word4(b[at], b[at + 1], b[at + 2], b[at + 3])
    + Word4(b[at + 4], b[at + 5], b[at + 6], b[at + 7]) * W32
  }

  lemma LeValOfEight(b: seq<u8>)
    requires |b| == 8
    ensures LeVal(b) == Word4(b[0], b[1], b[2], b[3]) + Word4(b[4], b[5], b[6], b[7]) * W32
  {
    LeValOfFour(b[..4]);
    LeValOfFour(b[4..]);
    assert b == b[..4] + b[4..];
    LeValConcat(b[..4], b[4..]);
    assert Pow256(4) == W32;
  }

  lemma LeValOfFour(b: seq<u8>)
    requires |b| == 4
    ensures LeVal(b) == Word4(b[0], b[1], b[2], b[3])
  {
    assert LeVal(b[4..]) == 0;
    assert b[3..][1..] == b[4..];
    assert LeVal(b[3..]) == b[3];
    assert b[2..][1..] == b[3..];
    assert LeVal(b[2..]) == b[2] + 256 * LeVal(b[3..]);
    assert b[1..][1..] == b[2..];
  }

  lemma SplitWord(b: seq<u8>)
    requires |b| >= 8
    ensures LeVal(b) == LeVal(b[..8]) + W64 * LeVal(b[8..])
  {
    Pow256Words();
    assert b == b[..8] + b[8..];
    LeValConcat(b[..8], b[8..]);
  }

  /** Thirty-two bytes are four words. */
  lemma LeValOfWords(b: seq<u8>)
    requires |b| == 32
    ensures LeVal(b) == Load64(b, 0) + Load64(b, 8) * W64 + Load64(b, 16) * W128 + Load64(b, 24) * 0x1000000000000000000000000000000000000000000000000
  {
    hide LeVal;
    hide Load64;
    SplitWord(b);
    SplitWord(b[8..]);
    SplitWord(b[16..]);
    assert b[..8] == b[0..8] && b[8..][..8] == b[8..16] && b[8..][8..] == b[16..];
    assert b[16..][..8] == b[16..24] && b[16..][8..] == b[24..32];
  }

  /** Sixty-four bytes are eight words. */
  lemma LeValOfEightWords(b: seq<u8>)
    requires |b| == 64
    ensures LeVal(b) == Load64(b, 0) + Load64(b, 8) * W64 + Load64(b, 16) * W128 + Load64(b, 24) * 0x1000000000000000000000000000000000000000000000000
                        + TWO256 * (Load64(b, 32) + Load64(b, 40) * W64 + Load64(b, 48) * W128 + Load64(b, 56) * 0x1000000000000000000000000000000000000000000000000)
  {
    LeValOfWords(b[..32]);
    LeValOfWords(b[32..]);
    Pow256Words();
    assert b == b[..32] + b[32..];
    LeValConcat(b[..32], b[32..]);
    hide LeVal, Load64, Pow256;
    assert b[..32][0..8] == b[0..8] && b[..32][8..16] == b[8..16] && b[..32][16..24] == b[16..24] && b[..32][24..32] == b[24..32];
    assert b[32..][0..8] == b[32..40] && b[32..][8..16] == b[40..48] && b[32..][16..24] == b[48..56] && b[32..][24..32] == b[56..64];
  }

  lemma {:induction false} ZerosValue(b: seq<u8>)
    requires forall i :: 0 <= i < |b| ==> b[i] == 0
    ensures LeVal(b) == 0
  {
    if b == [] {
    } else {
      ZerosValue(b[1..]);
    }
  }

  /** Appends the eight bytes of a word, low byte first: the byte-writing loop of
      curve25519_contract and the stores of u64to8_le. */
  method AppendWord(prefix: seq<u8>, w: u64) returns (out: seq<u8>)
    ensures |out| == |prefix| + 8 && out[..|prefix|] == prefix
    ensures LeVal(out) == LeVal(prefix) + Pow256(|prefix|) * w
  {
    out := prefix;
    var f := w;
    var i := 0;
    while i < 8
      invariant 0 <= i <= 8 && |out| == |prefix| + i && out[..|prefix|] == prefix
      invariant 0 <= f < W64 && f * Pow256(i) <= w
      invariant LeVal(out) + Pow256(|out|) * f == LeVal(prefix) + Pow256(|prefix|) * w
    {
      LeValConcat(out, [f % 256]);
      assert LeVal([f % 256]) == f % 256;
      ShiftByte(Pow256(|out|), f);
      ShiftByte(Pow256(i), f);
      out := out + [f % 256];
      f := f / 256;
      i := i + 1;
    }
    assert f == 0 by { Pow256Words(); if f >= 1 { MulMonotone(W64, 1, f); } }
  }

  lemma ShiftByte(unit: nat, f: nat)
    ensures unit * f == unit * (f % 256) + (256 * unit) * (f / 256)
    ensures (f / 256) * (256 * unit) <= f * unit
  {
    var q, r := f / 256, f % 256;
    assert f == 256 * q + r;
    assert unit * (256 * q + r) == unit * r + (256 * unit) * q;
  }

  /** Four words in a row: what curve25519_contract and contract256_modm write. */
  method FourWords(f0: u64, f1: u64, f2: u64, f3: u64) returns (out: seq<u8>)
    ensures |out| == 32 && LeVal(out) == f0 + f1 * W64 + f2 * W128 + f3 * 0x1000000000000000000000000000000000000000000000000
  {
    assert LeVal([]) == 0;
    Pow256Words();
    hide *;
    out := AppendWord([], f0);
    out := AppendWord(out, f1);
    out := AppendWord(out, f2);
    out := AppendWord(out, f3);
  }
}
