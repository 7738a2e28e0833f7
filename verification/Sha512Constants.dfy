/** Where the constants of SHA-512 come from (sections 4.2.3 and 5.3.5 of FIPS 180-4): the first
    sixty-four bits after the point of the cube roots of the primes from 2 to 409, and of the square
    roots of the first eight of them. */
module Sha512Constants {
  import opened Words
  import opened BitForms
  import opened Euclid
  import opened Sha512Spec

  const TWO192: int := 0x1000000000000000000000000000000000000000000000000

  const PRIMES_A: seq<nat> := [2, 3, 5, 7, 11, 13, 17, 19, 23, 29, 31, 37, 41, 43, 47, 53]
  const PRIMES_B: seq<nat> := [59, 61, 67, 71, 73, 79, 83, 89, 97, 101, 103, 107, 109, 113, 127, 131]
  const PRIMES_C: seq<nat> := [137, 139, 149, 151, 157, 163, 167, 173, 179, 181, 191, 193, 197, 199, 211, 223]
  const PRIMES_D: seq<nat> := [227, 229, 233, 239, 241, 251, 257, 263, 269, 271, 277, 281, 283, 293, 307, 311]
  const PRIMES_E: seq<nat> := [313, 317, 331, 337, 347, 349, 353, 359, 367, 373, 379, 383, 389, 397, 401, 409]

  const PRIMES: seq<nat> := PRIMES_A + PRIMES_B + PRIMES_C + PRIMES_D + PRIMES_E

  lemma JoinedRows<T>(all: seq<T>, a: seq<T>, b: seq<T>, c: seq<T>, d: seq<T>, e: seq<T>)
    requires |a| == |b| == |c| == |d| == |e| == 16 && all == a + b + c + d + e
    ensures |all| == 80
    ensures forall t :: 0 <= t < 16 ==> all[t] == a[t]
    ensures forall t :: 16 <= t < 32 ==> all[t] == b[t - 16]
    ensures forall t :: 32 <= t < 48 ==> all[t] == c[t - 32]
    ensures forall t :: 48 <= t < 64 ==> all[t] == d[t - 48]
    ensures forall t :: 64 <= t < 80 ==> all[t] == e[t - 64]
  {
  }

  lemma PrimeRows()
    ensures |PRIMES| == 80
    ensures forall t :: 0 <= t < 16 ==> PRIMES[t] == PRIMES_A[t]
    ensures forall t :: 16 <= t < 32 ==> PRIMES[t] == PRIMES_B[t - 16]
    ensures forall t :: 32 <= t < 48 ==> PRIMES[t] == PRIMES_C[t - 32]
    ensures forall t :: 48 <= t < 64 ==> PRIMES[t] == PRIMES_D[t - 48]
    ensures forall t :: 64 <= t < 80 ==> PRIMES[t] == PRIMES_E[t - 64]
  {
    JoinedRows(PRIMES, PRIMES_A, PRIMES_B, PRIMES_C, PRIMES_D, PRIMES_E);
  }

  lemma ConstantRows()
    ensures |K| == 80
    ensures forall t :: 0 <= t < 16 ==> K[t] == K_A[t]
    ensures forall t :: 16 <= t < 32 ==> K[t] == K_B[t - 16]
    ensures forall t :: 32 <= t < 48 ==> K[t] == K_C[t - 32]
    ensures forall t :: 48 <= t < 64 ==> K[t] == K_D[t - 48]
    ensures forall t :: 64 <= t < 80 ==> K[t] == K_E[t - 64]
  {
    JoinedRows(K, K_A, K_B, K_C, K_D, K_E);
  }

  // ---- the primes -----------------------------------------------------------------------------------

  /** No prime up to 19, other than n itself, divides n. */
  predicate Sieved(n: nat) {
    (n > 2 ==> n % 2 != 0) && (n > 3 ==> n % 3 != 0) && (n > 5 ==> n % 5 != 0) && (n > 7 ==> n % 7 != 0) &&
    (n > 11 ==> n % 11 != 0) && (n > 13 ==> n % 13 != 0) && (n > 17 ==> n % 17 != 0) && (n > 19 ==> n % 19 != 0)
  }

  /** A divisor below 23 has a prime factor that the sieve tries. */
  lemma SmallDivisor(n: nat, d: nat)
    requires 1 < d < 23 && d < n && n % d == 0
    ensures !Sieved(n)
  {
    var q := n / d;
    assert n == d * q;
    if d % 2 == 0 {
      DividesBy(2, n, d / 2 * q);
    } else if d % 3 == 0 {
      DividesBy(3, n, d / 3 * q);
    }
  }

  lemma Factors(n: nat, d: nat, q: nat)
    requires 1 < d < n < 529 && n == d * q
    ensures 1 < q < n && (d < 23 || q < 23)
  {
    if q > 1 {
      MulMonotone(q, 2, d);
      if d >= 23 && q >= 23 {
        MulMonotone(d, 23, q);
      }
    }
  }

  lemma SievedIffPrime(n: nat)
    requires 1 < n < 529
    ensures Sieved(n) <==> Prime(n)
  {
    if Sieved(n) {
      forall d: nat | 1 < d < n
        ensures !Divides(d, n)
      {
        if Divides(d, n) {
          var q := n / d;
          Factors(n, d, q);
          DividesBy(q, n, d);
          SmallDivisor(n, if d < 23 then d else q);
        }
      }
    }
    if Prime(n) {
      assert n > 2 ==> !Divides(2, n);
      assert n > 3 ==> !Divides(3, n);
      assert n > 5 ==> !Divides(5, n);
      assert n > 7 ==> !Divides(7, n);
      assert n > 11 ==> !Divides(11, n);
      assert n > 13 ==> !Divides(13, n);
      assert n > 17 ==> !Divides(17, n);
      assert n > 19 ==> !Divides(19, n);
    }
  }

  lemma RowA()
    ensures PRIMES_A[0] == 2 && PRIMES_A[15] == 53
    ensures forall i :: 0 <= i < 16 ==> 1 < PRIMES_A[i] < 529 && Sieved(PRIMES_A[i])
    ensures forall i :: 0 <= i < 15 ==> PRIMES_A[i] < PRIMES_A[i + 1]
  {
  }

  lemma RowB()
    ensures PRIMES_B[0] == 59 && PRIMES_B[15] == 131
    ensures forall i :: 0 <= i < 16 ==> 1 < PRIMES_B[i] < 529 && Sieved(PRIMES_B[i])
    ensures forall i :: 0 <= i < 15 ==> PRIMES_B[i] < PRIMES_B[i + 1]
  {
  }

  lemma RowC()
    ensures PRIMES_C[0] == 137 && PRIMES_C[15] == 223
    ensures forall i :: 0 <= i < 16 ==> 1 < PRIMES_C[i] < 529 && Sieved(PRIMES_C[i])
    ensures forall i :: 0 <= i < 15 ==> PRIMES_C[i] < PRIMES_C[i + 1]
  {
  }

  lemma RowD()
    ensures PRIMES_D[0] == 227 && PRIMES_D[15] == 311
    ensures forall i :: 0 <= i < 16 ==> 1 < PRIMES_D[i] < 529 && Sieved(PRIMES_D[i])
    ensures forall i :: 0 <= i < 15 ==> PRIMES_D[i] < PRIMES_D[i + 1]
  {
  }

  lemma RowE()
    ensures PRIMES_E[0] == 313 && PRIMES_E[15] == 409
    ensures forall i :: 0 <= i < 16 ==> 1 < PRIMES_E[i] < 529 && Sieved(PRIMES_E[i])
    ensures forall i :: 0 <= i < 15 ==> PRIMES_E[i] < PRIMES_E[i + 1]
  {
  }

  /** The list holds primes in increasing order, from 2 to 409. */
  lemma ListedPrimes(i: nat)
    requires i < 80
    ensures |PRIMES| == 80 && Prime(PRIMES[i]) && (i > 0 ==> PRIMES[i - 1] < PRIMES[i])
    ensures PRIMES[0] == 2 && PRIMES[79] == 409
  {
    hide Sieved, Prime;
    PrimeRows();
    RowA(); RowB(); RowC(); RowD(); RowE();
    assert 1 < PRIMES[i] < 529 && Sieved(PRIMES[i]);
    SievedIffPrime(PRIMES[i]);
  }

  // ---- the roots ------------------------------------------------------------------------------------

  /** n is the whole part of 2^64 times the cube root of p, and w its last 64 bits. */
  predicate CubeRootBits(w: Word, p: nat, n: nat) {
    n % W64 == w.bits as int && n * n * n <= p * TWO192 < (n + 1) * (n + 1) * (n + 1)
  }

  /** n is the whole part of 2^64 times the square root of p, and w its last 64 bits. */
  predicate SquareRootBits(w: Word, p: nat, n: nat) {
    n % W64 == w.bits as int && n * n <= p * W128 < (n + 1) * (n + 1)
  }

  ghost predicate CubeRoot(w: Word, p: nat) {
    exists n :: CubeRootBits(w, p, n)
  }

  ghost predicate SquareRoot(w: Word, p: nat) {
    exists n :: SquareRootBits(w, p, n)
  }

  lemma RootsA()
    ensures forall i :: 0 <= i < 16 ==> CubeRoot(K_A[i], PRIMES_A[i])
  {
    assert CubeRootBits(K_A[0], 2, 0x1428a2f98d728ae22);
    assert CubeRootBits(K_A[1], 3, 0x17137449123ef65cd);
    assert CubeRootBits(K_A[2], 5, 0x1b5c0fbcfec4d3b2f);
    assert CubeRootBits(K_A[3], 7, 0x1e9b5dba58189dbbc);
    assert CubeRootBits(K_A[4], 11, 0x23956c25bf348b538);
    assert CubeRootBits(K_A[5], 13, 0x259f111f1b605d019);
    assert CubeRootBits(K_A[6], 17, 0x2923f82a4af194f9b);
    assert CubeRootBits(K_A[7], 19, 0x2ab1c5ed5da6d8118);
    assert CubeRootBits(K_A[8], 23, 0x2d807aa98a3030242);
    assert CubeRootBits(K_A[9], 29, 0x312835b0145706fbe);
    assert CubeRootBits(K_A[10], 31, 0x3243185be4ee4b28c);
    assert CubeRootBits(K_A[11], 37, 0x3550c7dc3d5ffb4e2);
    assert CubeRootBits(K_A[12], 41, 0x372be5d74f27b896f);
    assert CubeRootBits(K_A[13], 43, 0x380deb1fe3b1696b1);
    assert CubeRootBits(K_A[14], 47, 0x39bdc06a725c71235);
    assert CubeRootBits(K_A[15], 53, 0x3c19bf174cf692694);
  }

  lemma RootsB()
    ensures forall i :: 0 <= i < 16 ==> CubeRoot(K_B[i], PRIMES_B[i])
  {
    assert CubeRootBits(K_B[0], 59, 0x3e49b69c19ef14ad2);
    assert CubeRootBits(K_B[1], 61, 0x3efbe4786384f25e3);
    assert CubeRootBits(K_B[2], 67, 0x40fc19dc68b8cd5b5);
    assert CubeRootBits(K_B[3], 71, 0x4240ca1cc77ac9c65);
    assert CubeRootBits(K_B[4], 73, 0x42de92c6f592b0275);
    assert CubeRootBits(K_B[5], 79, 0x44a7484aa6ea6e483);
    assert CubeRootBits(K_B[6], 83, 0x45cb0a9dcbd41fbd4);
    assert CubeRootBits(K_B[7], 89, 0x476f988da831153b5);
    assert CubeRootBits(K_B[8], 97, 0x4983e5152ee66dfab);
    assert CubeRootBits(K_B[9], 101, 0x4a831c66d2db43210);
    assert CubeRootBits(K_B[10], 103, 0x4b00327c898fb213f);
    assert CubeRootBits(K_B[11], 107, 0x4bf597fc7beef0ee4);
    assert CubeRootBits(K_B[12], 109, 0x4c6e00bf33da88fc2);
    assert CubeRootBits(K_B[13], 113, 0x4d5a79147930aa725);
    assert CubeRootBits(K_B[14], 127, 0x506ca6351e003826f);
    assert CubeRootBits(K_B[15], 131, 0x5142929670a0e6e70);
  }

  lemma RootsC()
    ensures forall i :: 0 <= i < 16 ==> CubeRoot(K_C[i], PRIMES_C[i])
  {
    assert CubeRootBits(K_C[0], 137, 0x527b70a8546d22ffc);
    assert CubeRootBits(K_C[1], 139, 0x52e1b21385c26c926);
    assert CubeRootBits(K_C[2], 149, 0x54d2c6dfc5ac42aed);
    assert CubeRootBits(K_C[3], 151, 0x553380d139d95b3df);
    assert CubeRootBits(K_C[4], 157, 0x5650a73548baf63de);
    assert CubeRootBits(K_C[5], 163, 0x5766a0abb3c77b2a8);
    assert CubeRootBits(K_C[6], 167, 0x581c2c92e47edaee6);
    assert CubeRootBits(K_C[7], 173, 0x592722c851482353b);
    assert CubeRootBits(K_C[8], 179, 0x5a2bfe8a14cf10364);
    assert CubeRootBits(K_C[9], 181, 0x5a81a664bbc423001);
    assert CubeRootBits(K_C[10], 191, 0x5c24b8b70d0f89791);
    assert CubeRootBits(K_C[11], 193, 0x5c76c51a30654be30);
    assert CubeRootBits(K_C[12], 197, 0x5d192e819d6ef5218);
    assert CubeRootBits(K_C[13], 199, 0x5d69906245565a910);
    assert CubeRootBits(K_C[14], 211, 0x5f40e35855771202a);
    assert CubeRootBits(K_C[15], 223, 0x6106aa07032bbd1b8);
  }

  lemma RootsD()
    ensures forall i :: 0 <= i < 16 ==> CubeRoot(K_D[i], PRIMES_D[i])
  {
    assert CubeRootBits(K_D[0], 227, 0x619a4c116b8d2d0c8);
    assert CubeRootBits(K_D[1], 229, 0x61e376c085141ab53);
    assert CubeRootBits(K_D[2], 233, 0x62748774cdf8eeb99);
    assert CubeRootBits(K_D[3], 239, 0x634b0bcb5e19b48a8);
    assert CubeRootBits(K_D[4], 241, 0x6391c0cb3c5c95a63);
    assert CubeRootBits(K_D[5], 251, 0x64ed8aa4ae3418acb);
    assert CubeRootBits(K_D[6], 257, 0x65b9cca4f7763e373);
    assert CubeRootBits(K_D[7], 263, 0x6682e6ff3d6b2b8a3);
    assert CubeRootBits(K_D[8], 269, 0x6748f82ee5defb2fc);
    assert CubeRootBits(K_D[9], 271, 0x678a5636f43172f60);
    assert CubeRootBits(K_D[10], 277, 0x684c87814a1f0ab72);
    assert CubeRootBits(K_D[11], 281, 0x68cc702081a6439ec);
    assert CubeRootBits(K_D[12], 283, 0x690befffa23631e28);
    assert CubeRootBits(K_D[13], 293, 0x6a4506cebde82bde9);
    assert CubeRootBits(K_D[14], 307, 0x6bef9a3f7b2c67915);
    assert CubeRootBits(K_D[15], 311, 0x6c67178f2e372532b);
  }

  lemma RootsE()
    ensures forall i :: 0 <= i < 16 ==> CubeRoot(K_E[i], PRIMES_E[i])
  {
    assert CubeRootBits(K_E[0], 313, 0x6ca273eceea26619c);
    assert CubeRootBits(K_E[1], 317, 0x6d186b8c721c0c207);
    assert CubeRootBits(K_E[2], 331, 0x6eada7dd6cde0eb1e);
    assert CubeRootBits(K_E[3], 337, 0x6f57d4f7fee6ed178);
    assert CubeRootBits(K_E[4], 347, 0x706f067aa72176fba);
    assert CubeRootBits(K_E[5], 349, 0x70a637dc5a2c898a6);
    assert CubeRootBits(K_E[6], 353, 0x7113f9804bef90dae);
    assert CubeRootBits(K_E[7], 359, 0x71b710b35131c471b);
    assert CubeRootBits(K_E[8], 367, 0x728db77f523047d84);
    assert CubeRootBits(K_E[9], 373, 0x732caab7b40c72493);
    assert CubeRootBits(K_E[10], 379, 0x73c9ebe0a15c9bebc);
    assert CubeRootBits(K_E[11], 383, 0x7431d67c49c100d4c);
    assert CubeRootBits(K_E[12], 389, 0x74cc5d4becb3e42b6);
    assert CubeRootBits(K_E[13], 397, 0x7597f299cfc657e2a);
    assert CubeRootBits(K_E[14], 401, 0x75fcb6fab3ad6faec);
    assert CubeRootBits(K_E[15], 409, 0x76c44198c4a475817);
  }

  /** Round constant t comes from the cube root of prime t. */
  lemma RoundConstants(t: nat)
    requires t < 80
    ensures |K| == 80 && |PRIMES| == 80 && exists n :: CubeRootBits(K[t], PRIMES[t], n)
  {
    hide CubeRootBits;
    PrimeRows();
    ConstantRows();
    RootsA(); RootsB(); RootsC(); RootsD(); RootsE();
    assert CubeRoot(K[t], PRIMES[t]);
  }

  lemma InitialRoots()
    ensures forall i :: 0 <= i < 8 ==> SquareRoot(INITIAL[i], PRIMES_A[i])
  {
    assert SquareRootBits(INITIAL[0], 2, 0x16a09e667f3bcc908);
    assert SquareRootBits(INITIAL[1], 3, 0x1bb67ae8584caa73b);
    assert SquareRootBits(INITIAL[2], 5, 0x23c6ef372fe94f82b);
    assert SquareRootBits(INITIAL[3], 7, 0x2a54ff53a5f1d36f1);
    assert SquareRootBits(INITIAL[4], 11, 0x3510e527fade682d1);
    assert SquareRootBits(INITIAL[5], 13, 0x39b05688c2b3e6c1f);
    assert SquareRootBits(INITIAL[6], 17, 0x41f83d9abfb41bd6b);
    assert SquareRootBits(INITIAL[7], 19, 0x45be0cd19137e2179);
  }

  /** Initial word i comes from the square root of prime i. */
  lemma InitialWords(i: nat)
    requires i < 8
    ensures |PRIMES| == 80 && exists n :: SquareRootBits(INITIAL[i], PRIMES[i], n)
  {
    hide SquareRootBits;
    PrimeRows();
    InitialRoots();
    assert SquareRoot(INITIAL[i], PRIMES[i]);
  }
}
