/** The buffered SHA-512 of src/ed25519-donna/ed25519-hash.h (1-186). */
module Sha512 {
  import opened Words
  import opened BitForms
  import opened Sha512Spec

  // ---- one block ---------------------------------------------------------------------------

  /** The two temporaries of a round, with select and majority in their short forms. */
  method Temporaries(r: Hash, k: Word, w: Word) returns (t0: Word, t1: Word)
    ensures t1 == Temp2(r[0], r[1], r[2]) && t0 == Temp1(r[4], r[5], r[6], r[7], k, w)
  {
    hide Ch, Maj, ChFast, MajFast, BigSigma0, BigSigma1, Plus;
    MajForms(r[0], r[1], r[2]);
    ChForms(r[4], r[5], r[6]);
    t1 := Plus(BigSigma0(r[0]), MajFast(r[0], r[1], r[2]));
    t0 := Plus(Plus(Plus(Plus(r[7], BigSigma1(r[4])), ChFast(r[4], r[5], r[6])), k), w);
  }

  /** The schedule loops (lines 98-99). */
  method ExpandSchedule(block: Block) returns (w: array<Word>)
    ensures w.Length == 80 && fresh(w)
    ensures forall i :: 0 <= i < 80 ==> w[i] == Schedule(block, i)
  {
    hide Load64, NextWord;
    w := new Word[80];
    for i := 0 to 16
      invariant forall k :: 0 <= k < i ==> w[k] == Schedule(block, k)
    {
      w[i] := Load64(block, i * 8);
    }
    for i := 16 to 80
      invariant forall k :: 0 <= k < i ==> w[k] == Schedule(block, k)
    {
      w[i] := NextWord(w[i - 2], w[i - 7], w[i - 15], w[i - 16]);
    }
  }

  /** The step macro: one round on the eight working words, overwritten from the top. */
  method Step(v: Hash, k: Word, w: Word) returns (r: Hash)
    ensures r == Round(v, k, w)
  {
    hide Temp1, Temp2, Plus;
    var t0, t1 := Temporaries(v, k, w);
    r := v;
    r := r[7 := r[6]];
    r := r[6 := r[5]];
    r := r[5 := r[4]];
    r := r[4 := Plus(r[3], t0)];
    r := r[3 := r[2]];
    r := r[2 := r[1]];
    r := r[1 := r[0]];
    r := r[0 := Plus(t0, t1)];
    EightEqual(r, [Plus(t0, t1), v[0], v[1], v[2], Plus(v[3], t0), v[4], v[5], v[6]]);
  }

  lemma EightEqual(a: seq<Word>, b: seq<Word>)
    requires |a| == 8 && |b| == 8
    requires a[0] == b[0] && a[1] == b[1] && a[2] == b[2] && a[3] == b[3]
    requires a[4] == b[4] && a[5] == b[5] && a[6] == b[6] && a[7] == b[7]
    ensures a == b
  {
  }

  /** Lines 95-101 for one block. */
  method CompressBlock(h: Hash, block: Block) returns (out: Hash)
    ensures out == Compress(h, block)
  {
    KLength();
    hide Round, Schedule, K;
    var w := ExpandSchedule(block);
    var r := h;
    for i := 0 to 80
      invariant r == Rounds(h, block, i)
      invariant forall k :: 0 <= k < 80 ==> w[k] == Schedule(block, k)
    {
      r := Step(r, K[i], w[i]);
    }
    out := AddWords(r, h);
  }

  // ---- the streaming state ---------------------------------------------------------------------

  /** The hash value after the first `n` bytes of `data`, a number of whole blocks. */
  ghost function FoldTo(h: Hash, data: seq<u8>, n: nat): Hash
    requires n <= |data| && n % BLOCK == 0
  {
    Fold(Compress, h, data[..n])
  }

  lemma FoldToStep(h: Hash, data: seq<u8>, n: nat)
    requires n + BLOCK <= |data| && n % BLOCK == 0
    ensures FoldTo(h, data, n + BLOCK) == Compress(FoldTo(h, data, n), data[n..n + BLOCK])
  {
    hide Compress, Fold;
    var block: Block := data[n..n + BLOCK];
    assert data[..n + BLOCK] == data[..n] + block;
    FoldConcat(Compress, h, data[..n], block);
    FoldOne(Compress, Fold(Compress, h, data[..n]), block);
  }

  lemma FoldToEnds(h: Hash, data: seq<u8>)
    requires |data| % BLOCK == 0
    ensures FoldTo(h, data, 0) == h && FoldTo(h, data, |data|) == Fold(Compress, h, data)
  {
    hide Compress;
    assert data[..0] == [] && data[..|data|] == data;
  }

  /** How much of a message has gone through whole blocks. */
  function Whole(m: seq<u8>): nat {
    |m| - |m| % BLOCK
  }

  /** The hash value after the whole blocks of a message. */
  ghost function AfterBlocks(m: seq<u8>): Hash {
    FoldTo(INITIAL, m, Whole(m))
  }

  lemma NoMessage()
    ensures AfterBlocks([]) == INITIAL && Whole([]) == 0
  {
    hide FoldTo, INITIAL;
    FoldToEnds(INITIAL, []);
  }

  /** Appending whole blocks to a message of whole blocks. */
  lemma MoreBlocks(m: seq<u8>, data: seq<u8>)
    requires |m| % BLOCK == 0 && |data| % BLOCK == 0
    ensures |m + data| % BLOCK == 0 && AfterBlocks(m + data) == Fold(Compress, AfterBlocks(m), data)
  {
    hide Compress, Fold, INITIAL, FoldTo;
    FoldToEnds(INITIAL, m);
    FoldToEnds(INITIAL, m + data);
    FoldConcat(Compress, INITIAL, m, data);
  }

  /** A partial block added to a message of whole blocks waits. */
  lemma WaitingTail(m: seq<u8>, tail: seq<u8>)
    requires |m| % BLOCK == 0 && |tail| < BLOCK
    ensures |m + tail| % BLOCK == |tail| && Whole(m + tail) == |m| && (m + tail)[|m|..] == tail
    ensures AfterBlocks(m + tail) == AfterBlocks(m)
  {
    hide Compress, Fold, INITIAL;
    assert (m + tail)[..|m|] == m && m[..|m|] == m;
  }

  lemma SplitMessage(m: seq<u8>)
    ensures Whole(m) <= |m| && Whole(m) % BLOCK == 0 && |m| - Whole(m) == |m| % BLOCK
    ensures m == m[..Whole(m)] + m[Whole(m)..] && AfterBlocks(m) == AfterBlocks(m[..Whole(m)])
  {
    hide AfterBlocks;
    WaitingTail(m[..Whole(m)], m[Whole(m)..]);
  }

  /** The two-word counter holds the bits of `bytes` bytes, modulo 2^128. */
  ghost predicate Counted(t0: u64, t1: u64, bytes: nat) {
    t0 + t1 * W64 == (8 * bytes) % W128
  }

  /** t0 is a multiple of 1024, so it reaches zero exactly when it wraps. */
  lemma CountBlock(t0: u64, t1: u64, bytes: nat)
    requires bytes % BLOCK == 0 && Counted(t0, t1, bytes)
    ensures var s0 := (t0 + 1024) % W64;
            var s1 := (t1 + (if s0 == 0 then 1 else 0)) % W64;
            Counted(s0, s1, bytes + BLOCK)
  {
    var n := 8 * bytes;
    var q := n / W128;
    assert n == q * W128 + t0 + t1 * W64;
    assert t0 % 1024 == 0;
    var s0 := (t0 + 1024) % W64;
    var s1 := (t1 + (if s0 == 0 then 1 else 0)) % W64;
    var carry := if t0 + 1024 == W64 && t1 + 1 == W64 then 1 else 0;
    DivModUnique(n + 1024, W128, q + carry, s0 + s1 * W64);
  }

  /** sha512_state; `msg` is everything absorbed so far. */
  class State {
    var h: Hash
    var t0: u64
    var t1: u64
    var leftover: nat
    const buffer: array<u8>
    ghost var msg: seq<u8>

    /** The buffer holds the unprocessed tail, h the fold of the rest, t its length in bits. */
    ghost predicate Valid()
      reads this, buffer
    {
      && buffer.Length == 128
      && leftover == |msg| % BLOCK
      && buffer[..leftover] == msg[Whole(msg)..]
      && Counted(t0, t1, Whole(msg))
      && h == AfterBlocks(msg)
    }

    /** ed25519_hash_init */
    constructor ()
      ensures Valid() && fresh(buffer) && msg == []
    {
      hide AfterBlocks, INITIAL, Whole;
      h := INITIAL;
      t0 := 0;
      t1 := 0;
      leftover := 0;
      buffer := new u8[128];
      msg := [];
      new;
      NoMessage();
    }

    /** sha512_blocks: compresses every block of `data` and counts its bits. */
    method Blocks(data: seq<u8>, ghost before: nat)
      requires |data| % BLOCK == 0 && before % BLOCK == 0 && Counted(t0, t1, before)
      modifies this`h, this`t0, this`t1
      ensures h == Fold(Compress, old(h), data) && Counted(t0, t1, before + |data|)
    {
      hide Compress, Fold, FoldTo, Counted;
      ghost var h0 := h;
      FoldToEnds(h0, data);
      var at := 0;
      while at < |data|
        invariant 0 <= at <= |data| && at % BLOCK == 0
        invariant h == FoldTo(h0, data, at) && Counted(t0, t1, before + at)
      {
        FoldToStep(h0, data, at);
        h := CompressBlock(h, data[at..at + BLOCK]);
        CountBlock(t0, t1, before + at);
        t0 := (t0 + 1024) % W64;
        t1 := (t1 + (if t0 == 0 then 1 else 0)) % W64;
        at := at + BLOCK;
      }
    }
  
    /** Everything absorbed so far went through whole blocks. */
    ghost predicate AtBoundary()
      reads this
    {
      && buffer.Length == 128
      && |msg| % BLOCK == 0
      && Counted(t0, t1, |msg|)
      && h == AfterBlocks(msg)
    }

    /** Lines 128-138: tops the buffer up; `done` if that used the input without filling it. */
    method TopUp(data: seq<u8>) returns (rest: seq<u8>, done: bool)
      requires Valid() && leftover > 0
      modifies this, buffer
      ensures done ==> Valid() && msg == old(msg) + data
      ensures !done ==> AtBoundary() && msg + rest == old(msg) + data
    {
      hide Counted, AfterBlocks, Compress, Fold, Whole;
      var want := BLOCK - leftover;
      want := if want < |data| then want else |data|;
      ghost var m := msg;
      SplitMessage(m);
      ghost var base, tail := m[..Whole(m)], m[Whole(m)..];
      ghost var full := tail + data[..want];
      Copy(buffer, leftover, data[..want]);
      leftover := leftover + want;
      rest := data[want..];
      assert buffer[..leftover] == full;
      msg := base + full;
      assert msg + rest == m + data;
      done := leftover < BLOCK;
      if done {
        WaitingTail(base, full);
        assert rest == [];
        return;
      }
      MoreBlocks(base, full);
      assert buffer[..] == full;
      Blocks(buffer[..], |base|);
    }

    /** Lines 141-150: whole blocks straight from the input, the rest into the buffer. */
    method Absorb(data: seq<u8>)
      requires AtBoundary()
      modifies this, buffer
      ensures Valid() && msg == old(msg) + data
    {
      hide Counted, AfterBlocks, Compress, Fold;
      var blocks := |data| - |data| % BLOCK;
      leftover := |data| - blocks;
      ghost var m := msg;
      MoreBlocks(m, data[..blocks]);
      Blocks(data[..blocks], |m|);
      Copy(buffer, 0, data[blocks..]);
      msg := m + data;
      assert msg == (m + data[..blocks]) + data[blocks..];
      WaitingTail(m + data[..blocks], data[blocks..]);
    }

    /** ed25519_hash_update */
    method Update(data: seq<u8>)
      requires Valid()
      modifies this, buffer
      ensures Valid() && msg == old(msg) + data
    {
      hide Counted, AfterBlocks;
      var rest := data;
      if leftover != 0 {
        var done;
        rest, done := TopUp(data);
        if done {
          return;
        }
      }
      Absorb(rest);
    }

    /** Lines 161-163: no room for the length, so a block goes out first. */
    method FlushExtra()
      requires buffer.Length == 128 && 111 < leftover < 128 && leftover == |msg| % BLOCK
      requires buffer[..leftover + 1] == msg[Whole(msg)..] + [0x80]
      requires Counted(t0, t1, Whole(msg))
      modifies this`h, this`t0, this`t1, buffer
      ensures h == Compress(old(h), ExtraBlock(msg)) && buffer[..112] == Zeros(112)
      ensures Counted(t0, t1, Whole(msg) + BLOCK)
    {
      hide Counted, Compress, Fold, Whole;
      SplitMessage(msg);
      Copy(buffer, leftover + 1, Zeros(127 - leftover));
      assert buffer[..] == ExtraBlock(msg);
      FoldOne(Compress, h, ExtraBlock(msg));
      Blocks(buffer[..], Whole(msg));
      Copy(buffer, 0, Zeros(112));
    }

    /** Lines 157-164: the one bit and zeros up to the length field, over one block or two. */
    method PadBuffer() returns (ghost n: nat)
      requires Valid()
      modifies this`h, this`t0, this`t1, buffer
      ensures buffer[..112] == LastPrefix(msg) && n % BLOCK == 0 && Counted(t0, t1, n)
      ensures h == if leftover <= 111 then AfterBlocks(msg) else Compress(AfterBlocks(msg), ExtraBlock(msg))
    {
      hide Counted, AfterBlocks, Compress, Fold, Whole, ExtraBlock;
      SplitMessage(msg);
      ghost var tail := msg[Whole(msg)..];
      buffer[leftover] := 0x80;
      assert buffer[..leftover + 1] == tail + [0x80];
      n := Whole(msg);
      if leftover <= 111 {
        Copy(buffer, leftover + 1, Zeros(111 - leftover));
        assert buffer[..112] == tail + [0x80] + Zeros(111 - leftover);
      } else {
        FlushExtra();
        n := n + BLOCK;
      }
    }

    /** ed25519_hash_final */
    method Final() returns (hash: seq<u8>)
      requires Valid()
      modifies this, buffer
      ensures msg == old(msg) && hash == Sha512Spec.Sha512(msg)
    {
      hide Counted, AfterBlocks, Compress, LengthField, Be64, LastPrefix, ExtraBlock, Fold, Whole, Digest, Pad, INITIAL;
      SplitMessage(msg);
      LengthWords(t0, t1, |msg|, leftover);
      var u0: u64, u1: u64 := t0 + leftover * 8, t1;
      ghost var n := PadBuffer();
      Copy(buffer, 112, Be64(u1));
      Copy(buffer, 120, Be64(u0));
      LengthBytes(8 * |msg|, u0, u1);
      assert buffer[..112] == buffer[..120][..112] && buffer[112..120] == buffer[..120][112..];
      assert buffer[..] == buffer[..112] + (buffer[112..120] + buffer[120..128]);
      assert buffer[..] == LastBlock(msg);
      ghost var h1 := h;
      FoldOne(Compress, h1, LastBlock(msg));
      Blocks(buffer[..], n);
      PaddedFold(msg);
      assert h == Compress(h1, LastBlock(msg)) == Fold(Compress, INITIAL, Pad(msg));
      hash := Digest(h);
    }
  }

  /** What follows the whole blocks of a message once it is padded. */
  ghost function PaddedTail(m: seq<u8>): seq<u8> {
    m[Whole(m)..] + [0x80] + Zeros(ZeroCount(|m|)) + LengthField(8 * |m|)
  }

  /** The first of two blocks, when the tail leaves no room for the length. */
  ghost function ExtraBlock(m: seq<u8>): Block {
    if |m| % BLOCK <= 111 then Zeros(128) else m[Whole(m)..] + [0x80] + Zeros(127 - |m| % BLOCK)
  }

  /** What precedes the length in the last block. */
  ghost function LastPrefix(m: seq<u8>): (p: seq<u8>)
    ensures |p| == 112
  {
    if |m| % BLOCK <= 111 then m[Whole(m)..] + [0x80] + Zeros(111 - |m| % BLOCK) else Zeros(112)
  }

  /** The block with the length. */
  ghost function LastBlock(m: seq<u8>): Block {
    LastPrefix(m) + LengthField(8 * |m|)
  }

  lemma PaddedFold(m: seq<u8>)
    ensures Fold(Compress, INITIAL, Pad(m))
            == Compress(if |m| % BLOCK <= 111 then AfterBlocks(m) else Compress(AfterBlocks(m), ExtraBlock(m)), LastBlock(m))
  {
    hide Compress, Fold, LengthField, FoldTo, INITIAL;
    var base := m[..Whole(m)];
    var t := PaddedTail(m);
    assert Pad(m) == base + t;
    assert |base| % BLOCK == 0;
    TailBlocks(m);
    FoldConcat(Compress, INITIAL, base, t);
    FoldToEnds(INITIAL, base);
    SplitMessage(m);
    hide Whole;
  }

  lemma TailBlocks(m: seq<u8>)
    ensures |PaddedTail(m)| % BLOCK == 0
    ensures forall h: Hash :: Fold(Compress, h, PaddedTail(m))
              == Compress(if |m| % BLOCK <= 111 then h else Compress(h, ExtraBlock(m)), LastBlock(m))
  {
    hide Compress, Fold, LengthField, Whole;
    SplitMessage(m);
    forall h: Hash
      ensures Fold(Compress, h, PaddedTail(m))
              == Compress(if |m| % BLOCK <= 111 then h else Compress(h, ExtraBlock(m)), LastBlock(m))
    {
      if |m| % BLOCK <= 111 {
        assert PaddedTail(m) == LastBlock(m);
        FoldOne(Compress, h, LastBlock(m));
      } else {
        assert Zeros(ZeroCount(|m|)) == Zeros(127 - |m| % BLOCK) + Zeros(112);
        assert PaddedTail(m) == ExtraBlock(m) + LastBlock(m);
        FoldConcat(Compress, h, ExtraBlock(m), LastBlock(m));
        FoldOne(Compress, h, ExtraBlock(m));
        FoldOne(Compress, Compress(h, ExtraBlock(m)), LastBlock(m));
      }
    }
  }

  lemma LengthWords(t0: u64, t1: u64, len: nat, leftover: nat)
    requires leftover == len % BLOCK && Counted(t0, t1, len - leftover)
    ensures t0 + leftover * 8 < W64
    ensures t1 == (8 * len) % W128 / W64 && t0 + leftover * 8 == (8 * len) % W64
  {
    var n := 8 * (len - leftover);
    var q := n / W128;
    assert n == q * W128 + t0 + t1 * W64;
    assert t0 % 1024 == 0;
    DivModUnique(8 * len, W128, q, t0 + leftover * 8 + t1 * W64);
    DivModUnique(t0 + leftover * 8 + t1 * W64, W64, t1, t0 + leftover * 8);
    DivModUnique(8 * len, W64, q * W64 + t1, t0 + leftover * 8);
  }

  lemma LengthBytes(bits: nat, u0: u64, u1: u64)
    requires u1 == bits % W128 / W64 && u0 == bits % W64
    ensures LengthField(bits) == Be64(u1) + Be64(u0)
  {
    hide Be64;
  }

  /** memcpy into a buffer */
  method Copy(dst: array<u8>, at: nat, src: seq<u8>)
    requires at + |src| <= dst.Length
    modifies dst
    ensures dst[..at] == old(dst[..at]) && dst[at..at + |src|] == src
    ensures dst[at + |src|..] == old(dst[at + |src|..])
  {
    for i := 0 to |src|
      invariant dst[..at] == old(dst[..at])
      invariant forall k :: 0 <= k < i ==> dst[at + k] == src[k]
      invariant dst[at + |src|..] == old(dst[at + |src|..])
    {
      dst[at + i] := src[i];
    }
  }

  /** ed25519_hash */
  method HashOnce(data: seq<u8>) returns (hash: seq<u8>)
    ensures hash == Sha512Spec.Sha512(data)
  {
    hide *;
    var s := new State();
    s.Update(data);
    assert [] + data == data;
    hash := s.Final();
  }

  /** Splitting a message into any number of updates does not change its digest. */
  method HashParts(parts: seq<seq<u8>>) returns (hash: seq<u8>)
    ensures hash == Sha512Spec.Sha512(Joined(parts))
  {
    hide *;
    var s := new State();
    JoinedNone(parts);
    for i := 0 to |parts|
      invariant s.Valid() && fresh(s) && fresh(s.buffer) && s.msg == Joined(parts[..i])
    {
      s.Update(parts[i]);
      JoinedStep(parts, i);
    }
    assert parts[..|parts|] == parts;
    hash := s.Final();
  }

  function Joined(parts: seq<seq<u8>>): seq<u8> {
    if parts == [] then [] else Joined(parts[..|parts| - 1]) + parts[|parts| - 1]
  }

  lemma JoinedNone(parts: seq<seq<u8>>)
    ensures Joined(parts[..0]) == []
  {
  }

  lemma JoinedStep(parts: seq<seq<u8>>, i: nat)
    requires i < |parts|
    ensures Joined(parts[..i + 1]) == Joined(parts[..i]) + parts[i]
  {
    assert parts[..i + 1][..i] == parts[..i];
  }
}
