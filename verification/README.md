# Ed25519 and LALR tables, verified

A Dafny model of two parts of the repository, with proofs of what they compute.

**Ed25519** (`src/ed25519-donna`, portable 64-bit build). Every layer is proved against the simpler
object above it: radix-2^51 limbs against integers modulo 2^255 - 19; the point formulas against an
abelian group with the complete Edwards addition law; radix-2^56 limbs and Barrett reduction against
integers modulo the group order; the in-place signed-digit recodings against digit sums; the two
scalar multiplications against multiples in the group; the buffered SHA-512 state against the padded
fold of FIPS 180-4, its constants against roots of primes, and the whole against a published digest;
signing and verification against the equations of sections 5.1.5 to 5.1.7 of RFC 8032; and batch
verification (index heap, Bos-Carter loop, final ladder, driver) against sums of multiples and single
verification, in both directions over points of order dividing m when all scalars come in: valid
signatures pass, and a bad one passes for at most one choice of its random bytes. `Ed25519.SignThenOpen` closes the stack from bytes to bytes.

**Parser tables** (`bin/ply/yacc.py`). The digraph algorithm against unions over reachable nodes; FIRST,
nullable and unproductive symbols against derivations; the shift-reduce engine against rightmost
derivations and parse trees, in both directions: it returns only parse trees, and every one that its
tables guide it through.

What is taken as given, always as an explicit hypothesis: the curve points form an abelian group under
the complete addition law (`Edwards.EdwardsGroup`), Fermat's little theorem for p (`Edwards.Fermat`), the
primality of m where a batch's verdict is tied to its sum (`Euclid.Prime`), [m]B = 0, and that the
precomputed tables hold the multiples they should (`DoubleMult.SlidingTable`,
`BaseMult.BaseTable`, the first eight base entries without the factor d).

Results about the code that a reader may not expect:

- The final ladder of the multi-scalar multiplication starts from the point and still handles the
  leading digit, so it multiplies a residual s > 1 by 2^k + s. `Ladder.LadderExact` and
  `Ladder.LadderExactOnPoints` give the exact condition under which it is right;
  `MultiScalar.LadderOfTwo` is a concrete instance where it is not. A batch's verdict does not suffer:
  over points of order dividing m the multiple is zero exactly when the sum is
  (`MultiScalar.VanishTogether`).
- The multi-scalar loop may end before the second half of the scalars has come in.
  `MultiScalar.MultiScalarMult` proves when: exactly if fewer than two of the first half are nonzero or
  their greatest common divisor has more than 128 bits. The number of limbs compared never gets too
  small for the scalars that join; this follows from the run and needs no hypothesis.
  `MultiScalar.EarlyStop` is an instance where the result is not the sum.
- The ladder looks at four limbs only. A residual that is a nonzero multiple of 2^224 would send its
  search below the array (`Ladder.SearchFails` names one below m); `Ladder.LadderDefined` excludes it,
  and the batch methods require it of the batch's scalars.
- Single and batch verification do not accept the same signatures: the batch equation does not ask for
  clear top bits of S, nor that R be the one encoding of its point. `BatchEquation.VerifiesIffNoDefect`
  gives the exact difference.
- The comment over curve25519_square_times says in^(2 * count); the loop computes in^(2^count), which is
  what `Field.SquareTimes` states.
- The multi-scalar multiplication is commented as needing count >= 5; it also needs an odd count, which
  its caller passes.

Layout: one module per source component, helper modules (`Words`, `Modular`, `Powers`, `Bytes`,
`Sets`, `AbelianGroups`, `Euclid`, `HeapOrder`, `Relations`, `Derivations`, `ParseTrees`) beside them.
Congruence modulo p and membership of the curve (`Modular.Cong`, `Edwards.IsPoint`) are stated behind a
mark that a proof sets to look inside; the marks keep products of coordinates and their remainders out of
contexts that do not need them.
`dafny verify dfyconfig.toml` checks everything.

## Model

| member | source | states |
|---|---|---|
| `Field.Add` | src/ed25519-donna/curve25519-donna-64bit.h:27-43 | limbwise sum: the exact integer sum, with the limb bounds that let it feed further operations |
| `Field.Sub` | src/ed25519-donna/curve25519-donna-64bit.h:64-70 | a - b plus a multiple of p, every limb difference non-negative, with output bounds |
| `Field.SubAfterBasic` | src/ed25519-donna/curve25519-donna-64bit.h:74-80 | the same for a subtrahend that is itself an unreduced sum |
| `Field.AddReduce` | src/ed25519-donna/curve25519-donna-64bit.h:46-54 | sum modulo 2^255 - 19 in carried limbs |
| `Field.SubReduce` | src/ed25519-donna/curve25519-donna-64bit.h:83-91 | difference modulo 2^255 - 19 in carried limbs |
| `Field.Neg` | src/ed25519-donna/curve25519-donna-64bit.h:95-103 | negation modulo 2^255 - 19 in carried limbs |
| `Field.ColumnsAreProduct` | src/ed25519-donna/curve25519-donna-64bit.h:126-155 | the five folded columns of limb products are the integer product modulo 2^255 - 19 |
| `Field.Mul` | src/ed25519-donna/curve25519-donna-64bit.h:107-171 | for limbs below 2^54 every partial sum fits 128 bits and the carried result is the product modulo 2^255 - 19 |
| `Field.Square` | src/ed25519-donna/curve25519-donna-64bit.h:237-284 | the squaring shortcut with doubled and 19-fold limbs gives the same product as Mul |
| `Field.SquarePass` | src/ed25519-donna/curve25519-donna-64bit.h:195-226 | one turn of the repeated squaring, with its shifted high words, is a squaring that keeps the limb bounds |
| `Field.SquareTimes` | src/ed25519-donna/curve25519-donna-64bit.h:180-234 | after count turns the result is in^(2^count) |
| `FieldBytes.Expand` | src/ed25519-donna/curve25519-donna-64bit.h:288-319 | the limbs stand for the little-endian value with bit 255 dropped |
| `FieldBytes.Canonical` | src/ed25519-donna/curve25519-donna-64bit.h:329-363 | two carries, the offset by 19 and the final masking leave the residue in [0, p) |
| `FieldBytes.Contract` | src/ed25519-donna/curve25519-donna-64bit.h:325-373 | the 32 bytes are the residue modulo p |
| `FieldBytes.ContractCanonical` | src/ed25519-donna/curve25519-donna-64bit.h:321-373 | two representations give equal bytes exactly when they are congruent |
| `FieldBytes.ExpandThenContract` | src/ed25519-donna/curve25519-donna-64bit.h:286-373 | contract after expand clears bit 255 and reduces; the bytes come back exactly when they encode a number below p |
| `Inversion.PowTwo250` | src/ed25519-donna/curve25519-donna-helpers.h:13-31 | from z^(2^5 - 1) the chain reaches z^(2^250 - 1) |
| `Inversion.Recip` | src/ed25519-donna/curve25519-donna-helpers.h:37-49 | the chain yields z^(p - 2) for every z |
| `Inversion.PowTwo252Minus3` | src/ed25519-donna/curve25519-donna-helpers.h:55-67 | the chain yields z^((p - 5) / 8) = z^(2^252 - 3) for every z |
| `CurveOps.AdditionLaw` | src/ed25519-donna/ed25519-donna-impl-base.h:36-49 | the cross products of the extended addition formula are the coordinates of the sum under the complete Edwards law |
| `CurveOps.DoublingLaw` | src/ed25519-donna/ed25519-donna-impl-base.h:57-66 | likewise for the dedicated doubling formula, which uses the curve equation |
| `CurveOps.ToPartial` | src/ed25519-donna/ed25519-donna-impl-base.h:6-10 | a completed point becomes a projective one; t keeps its stale value |
| `CurveOps.ToFull` | src/ed25519-donna/ed25519-donna-impl-base.h:13-18 | a completed point becomes an extended one for the same affine point |
| `CurveOps.FullToPniels` | src/ed25519-donna/ed25519-donna-impl-base.h:21-26 | the cached form stands for the same point |
| `CurveOps.AddP1P1` | src/ed25519-donna/ed25519-donna-impl-base.h:33-50 | the result stands for the group sum, and every field operation is called within its limb bounds |
| `CurveOps.DoubleP1P1` | src/ed25519-donna/ed25519-donna-impl-base.h:54-67 | the result stands for twice the point, from x, y and z only |
| `CurveOps.NielsAdd2P1P1` | src/ed25519-donna/ed25519-donna-impl-base.h:70-86 | adds or subtracts a precomputed affine point according to the sign bit |
| `CurveOps.PnielsAddP1P1` | src/ed25519-donna/ed25519-donna-impl-base.h:89-106 | adds or subtracts a cached projective point according to the sign bit |
| `CurveOps.DoublePartial` | src/ed25519-donna/ed25519-donna-impl-base.h:109-113 | twice the point, t left stale |
| `CurveOps.Double` | src/ed25519-donna/ed25519-donna-impl-base.h:116-120 | twice the point, all four coordinates |
| `CurveOps.AddPoints` | src/ed25519-donna/ed25519-donna-impl-base.h:123-127 | the group sum, all four coordinates |
| `CurveOps.NielsAdd2` | src/ed25519-donna/ed25519-donna-impl-base.h:130-147 | adds a precomputed point in place |
| `CurveOps.PnielsAdd` | src/ed25519-donna/ed25519-donna-impl-base.h:150-172 | sum in cached form |
| `PointBytes.Pack` | src/ed25519-donna/ed25519-donna-impl-base.h:180-189 | the bytes are y with the parity of x on top, of the affine point x/z, y/z |
| `SquareRoot.CandidateIsRoot` | src/ed25519-donna/ed25519-donna-impl-base.h:206-222 | if u/v is a square, the candidate squared times v is u or -u |
| `PointBytes.RootCandidate` | src/ed25519-donna/ed25519-donna-impl-base.h:206-217 | computes u v^3 (u v^7)^((p - 5) / 8) |
| `PointBytes.ChooseRoot` | src/ed25519-donna/ed25519-donna-impl-base.h:219-230 | both branches: accepts exactly when u/v has a root, and then x is one |
| `PointBytes.FixSign` | src/ed25519-donna/ed25519-donna-impl-base.h:232-236 | x ends with parity opposite to the sign bit, or is 0 |
| `PointBytes.UnpackNegative` | src/ed25519-donna/ed25519-donna-impl-base.h:192-239 | accepts exactly the encodings of points, and returns the negated point with z = 1 and t = x y |
| `PointBytes.DecodingUnique` | src/ed25519-donna/ed25519-donna-impl-base.h:192-239 | no byte string decodes to two points |
| `ModmLimbs.LtModm` | src/ed25519-donna/modm-donna-64bit.h:38-40 | the top bit of the wrapped difference is the comparison |
| `ModmLimbs.Reduce256` | src/ed25519-donna/modm-donna-64bit.h:43-63 | subtracts the order exactly when the value is at least the order |
| `ModmLimbs.Add256` | src/ed25519-donna/modm-donna-64bit.h:111-121 | sum modulo the order |
| `Barrett.QuotientEstimate` | src/ed25519-donna/modm-donna-64bit.h:66-107 | the estimate with the low columns dropped is at most 2 too small, for every x below 2^512 |
| `Barrett.EstimateQuotient` | src/ed25519-donna/modm-donna-64bit.h:71-85 | q3 from the upper columns only; what is dropped is below 8 * 2^224 |
| `Barrett.ProductLow264` | src/ed25519-donna/modm-donna-64bit.h:87-96 | the low 264 bits of q3 m |
| `Barrett.Subtract264` | src/ed25519-donna/modm-donna-64bit.h:98-103 | difference modulo 2^264 through the borrow chain |
| `Barrett.BarrettReduce` | src/ed25519-donna/modm-donna-64bit.h:66-107 | x mod m, fully reduced, for every x below 2^512 |
| `Barrett.Mul256` | src/ed25519-donna/modm-donna-64bit.h:124-150 | product modulo the order for all 256-bit factors |
| `ScalarBytes.Expand256` | src/ed25519-donna/modm-donna-64bit.h:153-187 | the little-endian value of up to 64 bytes modulo the order |
| `ScalarBytes.Contract256` | src/ed25519-donna/modm-donna-64bit.h:206-211 | 32 bytes with the same value |
| `ScalarBytes.ContractThenExpand` | src/ed25519-donna/modm-donna-64bit.h:153-211 | a reduced scalar survives the round trip |
| `Recode.Window4` | src/ed25519-donna/modm-donna-64bit.h:214-238 | 64 digits in -8..8 whose base-16 value is the scalar, for every scalar below 2^255 |
| `Recode.CarryInto` | src/ed25519-donna/modm-donna-64bit.h:268-274 | the carry loop adds 2^at to the digit sum and stays inside the array |
| `Recode.AbsorbBit` | src/ed25519-donna/modm-donna-64bit.h:263-277 | each turn of the window loop keeps the digit sum and the part already done |
| `Recode.RecodeDigit` | src/ed25519-donna/modm-donna-64bit.h:259-278 | one finished digit: odd, within the window bound, followed by zeros |
| `Recode.SlidingWindow` | src/ed25519-donna/modm-donna-64bit.h:241-280 | the digits sum to the scalar; each nonzero one is odd, at most 2^(w-1) - 1 in size and w places from the next, for every scalar below 2^255 |
| `ModmBatch.LtBatch` | src/ed25519-donna/modm-donna-64bit.h:304-315 | the borrow out of limbs 0 to limbsize is the comparison of those limbs |
| `ModmBatch.LteBatch` | src/ed25519-donna/modm-donna-64bit.h:319-330 | likewise for at most |
| `ModmBatch.SubBatch` | src/ed25519-donna/modm-donna-64bit.h:288-299 | the difference on limbs 0 to limbsize, the others untouched |
| `ModmBatch.IsZeroBatch` | src/ed25519-donna/modm-donna-64bit.h:334-340 | decides value = 0 |
| `ModmBatch.IsOneBatch` | src/ed25519-donna/modm-donna-64bit.h:344-350 | decides value = 1 |
| `ModmBatch.IsAtMost128Bits` | src/ed25519-donna/modm-donna-64bit.h:354-361 | decides value < 2^128 |
| `DoubleMult.OddMultiples` | src/ed25519-donna/ed25519-donna-impl-base.h:263-266 | the table built in the loop holds P, 3P, ..., 15P |
| `DoubleMult.Step` | src/ed25519-donna/ed25519-donna-impl-base.h:278-290 | one place: doubles and adds both digits, reading t only where it is valid |
| `DoubleMult.Interleave` | src/ed25519-donna/ed25519-donna-impl-base.h:268-291 | the loop from the first nonzero place down computes both digit sums at once |
| `DoubleMult.DoubleScalarMult` | src/ed25519-donna/ed25519-donna-impl-base.h:253-292 | [s1]P1 + [s2]B for all scalars below 2^255 |
| `BaseMult.SelectEntry` | src/ed25519-donna/ed25519-donna-impl-base.h:304-317 | the constant-time selection picks the entry for |b|, or the packed neutral element |
| `BaseMult.ChooseNiels` | src/ed25519-donna/ed25519-donna-impl-base.h:304-328 | the entry for the signed digit b, negated by swapping and negating |
| `BaseMult.StartPoint` | src/ed25519-donna/ed25519-donna-impl-base.h:342-347 | the first odd digit gives the starting point, with t from the table entry that lacks the factor d |
| `BaseMult.AddEveryOther` | src/ed25519-donna/ed25519-donna-impl-base.h:348-362 | adding every other digit accumulates its base-256 value |
| `BaseMult.ScalarMultBase` | src/ed25519-donna/ed25519-donna-impl-base.h:335-363 | [s]B for every s below 2^255 |
| `BitForms.ChForms` | src/ed25519-donna/ed25519-hash.h:70 | the short select form is FIPS 180-4 Ch |
| `BitForms.MajForms` | src/ed25519-donna/ed25519-hash.h:71 | the short majority form is FIPS 180-4 Maj |
| `BitForms.BigSigma0Positions` | src/ed25519-donna/ed25519-hash.h:72 | bit j is the exclusive or of bits j + 28, j + 34 and j + 39 modulo 64, for every word |
| `BitForms.BigSigma1Positions` | src/ed25519-donna/ed25519-hash.h:73 | bit j is the exclusive or of bits j + 14, j + 18 and j + 41 modulo 64 |
| `BitForms.SmallSigma0Positions` | src/ed25519-donna/ed25519-hash.h:74 | bit j is the exclusive or of bits j + 1 and j + 8 modulo 64 and of bit j + 7 where there is one |
| `BitForms.SmallSigma1Positions` | src/ed25519-donna/ed25519-hash.h:75 | bit j is the exclusive or of bits j + 19 and j + 61 modulo 64 and of bit j + 6 where there is one |
| `Sha512Bytes.LoadValue` | src/ed25519-donna/ed25519-hash.h:46-56 | a loaded word has the big-endian value of its bytes |
| `Sha512Bytes.StoreValue` | src/ed25519-donna/ed25519-hash.h:58-68 | a stored word is its big-endian value written out |
| `Sha512Bytes.LoadStore` | src/ed25519-donna/ed25519-hash.h:46-68 | loading a stored word gives the word back |
| `Sha512Bytes.StoreLoad` | src/ed25519-donna/ed25519-hash.h:46-68 | storing a loaded word gives the bytes back |
| `Sha512Bytes.LengthValue` | src/ed25519-donna/ed25519-hash.h:165-167 | the length field is the bit count modulo 2^128, big-endian |
| `Sha512Constants.ListedPrimes` | src/ed25519-donna/ed25519-hash.h:17-38 | the list behind the constants holds 80 primes in increasing order, from 2 to 409 |
| `Sha512Constants.RoundConstants` | src/ed25519-donna/ed25519-hash.h:17-38 | constant t is the first 64 bits after the point of the cube root of prime t |
| `Sha512Constants.InitialWords` | src/ed25519-donna/ed25519-hash.h:110-117 | initial word i is the first 64 bits after the point of the square root of prime i |
| `Sha512Example.DigestOfAbc` | src/ed25519-donna/ed25519-hash.h:70-106 | the definitions give the published digest of "abc": padding, schedule, 80 rounds, final addition and byte order |
| `Sha512.ExpandSchedule` | src/ed25519-donna/ed25519-hash.h:98-99 | the 80 words of the message schedule |
| `Sha512.CompressBlock` | src/ed25519-donna/ed25519-hash.h:95-101 | one block is the FIPS 180-4 compression of the chaining value |
| `Sha512.State.constructor` | src/ed25519-donna/ed25519-hash.h:109-121 | the fresh state stands for the empty message |
| `Sha512.State.Blocks` | src/ed25519-donna/ed25519-hash.h:91-106 | the chaining value folds the blocks, the 128-bit counter counts their bits |
| `Sha512.State.TopUp` | src/ed25519-donna/ed25519-hash.h:127-138 | filling the buffer keeps buffer plus rest equal to the message |
| `Sha512.State.Absorb` | src/ed25519-donna/ed25519-hash.h:140-150 | whole blocks are hashed, the tail is buffered |
| `Sha512.State.Update` | src/ed25519-donna/ed25519-hash.h:124-151 | for every reachable state and chunk the state stands for the message extended by the chunk |
| `Sha512.State.PadBuffer` | src/ed25519-donna/ed25519-hash.h:157-164 | the 0x80 byte and zeros, with an extra block when the tail is longer than 111 bytes |
| `Sha512.State.Final` | src/ed25519-donna/ed25519-hash.h:154-178 | the digest is SHA-512 of the message, as FIPS 180-4 defines it by padding and folding |
| `Sha512.HashOnce` | src/ed25519-donna/ed25519-hash.h:181-186 | the one-call hash |
| `Sha512.HashParts` | src/ed25519-donna/ed25519-hash.h:109-178 | for every way of splitting a message into update calls the digest is that of the whole |
| `Ed25519.ExtSk` | src/ed25519-donna/ed25519.c:27-32 | the lower half has value 2^254 + 8 (h / 8 mod 2^251), h the value of the lower half of the seed hash; the upper half is that of the hash |
| `Ed25519.ClampedValue` | src/ed25519-donna/ed25519.c:29-31 | for every 64 bytes the clamped scalar is 2^254 + 8 (h / 8 mod 2^251): a multiple of 8 in [2^254, 2^255) |
| `Ed25519.ChallengeString` | src/ed25519-donna/ed25519.c:35-42 | the hashed string determines R, the key and the message; the challenge is its SHA-512 as a scalar |
| `Ed25519.Hram` | src/ed25519-donna/ed25519.c:35-42 | H(R, A, m) |
| `Ed25519.PublicKey` | src/ed25519-donna/ed25519.c:45-55 | the key encodes [(2^254 + 8 (h / 8 mod 2^251)) mod m]B, h the value of the lower half of SHA-512(sk) |
| `Ed25519.SignScalar` | src/ed25519-donna/ed25519.c:83-90 | h a + r modulo the order, as bytes |
| `Ed25519.Sign` | src/ed25519-donna/ed25519.c:59-91 | R encodes [r]B with r = SHA-512(upper half of SHA-512(sk), m) mod m, and S = h a + r modulo the order with h = SHA-512(R, key, m) mod m and a the clamped scalar |
| `Ed25519.SignOpen` | src/ed25519-donna/ed25519.c:94-116 | returns 0 exactly when the top bits of S are clear, the key decodes and R encodes [h](-A) + [S]B with h = SHA-512(R, key, m) mod m |
| `Ed25519.EncodedDecodes` | src/ed25519-donna/ed25519-donna-impl-base.h:180-239 | the decoder undoes the encoder up to the sign it flips |
| `Ed25519.SignatureEquation` | src/ed25519-donna/ed25519.c:82-115 | [h](-[a]B) + [h a + r]B = [r]B when [m]B = 0 |
| `Ed25519.SignedVerifies` | src/ed25519-donna/ed25519.c:59-116 | a signature made with the scalar of the key verifies under the key |
| `Ed25519.SignThenOpen` | src/ed25519-donna/ed25519.c:45-116 | for every secret key and message: derive the key, sign, open; open returns 0 |
| `HeapOrder.RiseStep` | src/ed25519-donna/ed25519-donna-batchverify.h:72-76 | swapping a key up past a smaller parent leaves only the new place open |
| `HeapOrder.SinkStep` | src/ed25519-donna/ed25519-donna-batchverify.h:62-68 | moving the larger child up past the root element leaves only its new place open |
| `HeapOrder.RootIsMax` | src/ed25519-donna/ed25519-donna-batchverify.h:98-102 | nothing in an ordered heap exceeds the root |
| `BatchHeap.Heap.Swap` | src/ed25519-donna/ed25519-donna-batchverify.h:22-28 | exchanges two heap places |
| `BatchHeap.Heap.InsertNext` | src/ed25519-donna/ed25519-donna-batchverify.h:31-48 | the next index joins; permutation and order are kept |
| `BatchHeap.Heap.SinkRoot` | src/ed25519-donna/ed25519-donna-batchverify.h:57-68 | the root element reaches a leaf; an odd size leaves no node with one child |
| `BatchHeap.Heap.RiseBack` | src/ed25519-donna/ed25519-donna-batchverify.h:70-76 | and comes back up to its place |
| `BatchHeap.Heap.UpdatedRoot` | src/ed25519-donna/ed25519-donna-batchverify.h:51-77 | after the root scalar changed, permutation and order are restored |
| `BatchHeap.Heap.Build` | src/ed25519-donna/ed25519-donna-batchverify.h:80-86 | a heap of the first count scalars |
| `BatchHeap.Heap.Extend` | src/ed25519-donna/ed25519-donna-batchverify.h:89-93 | a heap of the first newCount scalars |
| `BatchHeap.Heap.GetTop2` | src/ed25519-donna/ed25519-donna-batchverify.h:96-103 | the indices of the largest and the second largest of all resident scalars |
| `Euclid.GcdKept` | src/ed25519-donna/ed25519-donna-batchverify.h:182 | subtracting one scalar from another keeps the gcd |
| `BosCarter.SumKept` | src/ed25519-donna/ed25519-donna-batchverify.h:182-183 | subtracting scalar y from scalar x and adding point x to point y keeps the sum of multiples |
| `BosCarter.StepConserves` | src/ed25519-donna/ed25519-donna-batchverify.h:182-183 | so every turn keeps the sum, the gcd, and the sum with the gcd taken out of the scalars |
| `BosCarter.TotalDrops` | src/ed25519-donna/ed25519-donna-batchverify.h:168-182 | and strictly lowers the total of the scalars |
| `BosCarter.SumSingle` | src/ed25519-donna/ed25519-donna-batchverify.h:167-169 | with one nonzero scalar left the sum is that one multiple |
| `MultiScalar.Reduce` | src/ed25519-donna/ed25519-donna-batchverify.h:182-184 | the values and the points change at two places only, and the heap is restored |
| `MultiScalar.Shrink` | src/ed25519-donna/ed25519-donna-batchverify.h:171-173 | a limb dropped for the largest scalar is zero in all residents; 128-bit scalars stay covered |
| `MultiScalar.Prepare` | src/ed25519-donna/ed25519-donna-batchverify.h:171-180 | the heap takes in all scalars exactly when the largest has at most 128 bits, and comparisons stay exact |
| `MultiScalar.Advance` | src/ed25519-donna/ed25519-donna-batchverify.h:164-185 | one turn keeps the invariant of the run and lowers the total |
| `MultiScalar.NotJoined` | src/ed25519-donna/ed25519-donna-batchverify.h:167-180 | stopping early means fewer than two nonzero scalars, or a common divisor over 128 bits |
| `MultiScalar.MultiScalarMult` | src/ed25519-donna/ed25519-donna-batchverify.h:152-188 | always ends; all scalars come in if and only if two of the first half are nonzero and their gcd d is below 2^128; the point returned is the ladder multiple by d of the sum of [v/d]P over the scalars v that came in |
| `MultiScalar.ShareTimesResidue` | src/ed25519-donna/ed25519-donna-batchverify.h:164-188 | the gcd times the point left in the heap is the sum of multiples |
| `MultiScalar.LadderResult` | src/ed25519-donna/ed25519-donna-batchverify.h:152-188 | whichever scalars came in: the result is their sum when the gcd is 0 or 1, and the sum plus [2^k]q for a gcd of k bits up to 224, [gcd]q being the sum |
| `MultiScalar.VanishTogether` | src/ed25519-donna/ed25519-donna-batchverify.h:152-188 | over points of order dividing the prime m the result is zero exactly when the sum is, for every gcd |
| `MultiScalar.EarlyStop` | src/ed25519-donna/ed25519-donna-batchverify.h:167-180 | scalars 1, 0, 0, 1, 0: the loop ends with the first point, which is not the sum |
| `MultiScalar.LadderOfTwo` | src/ed25519-donna/ed25519-donna-batchverify.h:124-147 | a concrete residual the ladder gets wrong: 2 is multiplied as 6 |
| `Ladder.TopLimb` | src/ed25519-donna/ed25519-donna-batchverify.h:126-128 | the highest nonzero limb of the four looked at |
| `Ladder.TopBit` | src/ed25519-donna/ed25519-donna-batchverify.h:130-133 | the highest binary digit of a limb |
| `Ladder.Climb` | src/ed25519-donna/ed25519-donna-batchverify.h:135-147 | from the leading digit down: the leading digit counts twice |
| `Ladder.FinalMult` | src/ed25519-donna/ed25519-donna-batchverify.h:107-148 | [s]P for s = 0 and 1, otherwise [2^k + t]P for t the low 224 bits of s and k their length |
| `Ladder.LadderExact` | src/ed25519-donna/ed25519-donna-batchverify.h:107-148 | the multiplier is s if and only if s is 0, 1 or in [2^224 + 2^223, 2^225) |
| `Ladder.LadderExactOnPoints` | src/ed25519-donna/ed25519-donna-batchverify.h:107-148 | on a point of order m and s below m the point returned is [s]p under the same condition and no other |
| `Ladder.SearchFails` | src/ed25519-donna/ed25519-donna-batchverify.h:126-128 | limbs 0, 0, 0, 0, 1: a scalar below m on which the search for a nonzero limb leaves the array |
| `BatchVerify.BasePoint` | src/ed25519-donna/ed25519-donna-64bit-tables.h:1-6 | the stored base point is on the curve and its coordinates agree |
| `BatchVerify.Parameters` | src/ed25519-donna/ed25519-donna-64bit-tables.h:1-10 | p, m, d = -121665/121666, and the base point with y = 4/5 and even x, which encodes to 0x66...58 |
| `BatchVerify.IsNeutral` | src/ed25519-donna/ed25519-donna-batchverify.h:194-202 | true exactly for the neutral element |
| `BatchVerify.LoadScalars` | src/ed25519-donna/ed25519-donna-batchverify.h:219-238 | the scalars in place: place n + 1 + i holds the value of the random bytes, place 1 + i that value times SHA-512(R, key, m) modulo the order, place 0 the weighted responses summed |
| `BatchVerify.LoadPoints` | src/ed25519-donna/ed25519-donna-batchverify.h:240-247 | base point, negated keys and negated signature points, or a key or signature point that is no point |
| `BatchVerify.CheckBatch` | src/ed25519-donna/ed25519-donna-batchverify.h:217-250 | passes exactly when everything decodes and the point computed from the batch, a function of its scalars and points, is neutral |
| `BatchEquation.OneSignature` | src/ed25519-donna/ed25519-donna-batchverify.h:219-247 | the three terms of a signature are its weight times its defect [h](-A) + [S]B - R |
| `BatchEquation.SumIsWeightedDefects` | src/ed25519-donna/ed25519-donna-batchverify.h:219-249 | the weighted sum of a batch is the sum of its signatures' defects, each times the value of its own random bytes |
| `BatchEquation.VerifiesIffNoDefect` | src/ed25519-donna/ed25519-donna-batchverify.h:219-249 | a signature verifies exactly when the top bits of S are clear, R is the one encoding of its point, and it has no defect |
| `BatchEquation.AtMostOneWeight` | src/ed25519-donna/ed25519-donna-batchverify.h:219-249 | however the rest is weighed, at most one choice of the random bytes of a signature with a defect makes the sum zero |
| `BatchEquation.ValidBatchSumsToZero` | src/ed25519-donna/ed25519-donna-batchverify.h:219-247 | valid signatures under keys of order dividing m sum to zero, whatever the weights |
| `BatchVerify.PassesIffSumVanishes` | src/ed25519-donna/ed25519-donna-batchverify.h:249-250 | over points of order dividing the prime m a batch passes exactly when the weighted sum of the points that came in is zero, for every gcd of its scalars |
| `BatchVerify.ValidBatchPasses` | src/ed25519-donna/ed25519-donna-batchverify.h:219-250 | valid signatures under keys of order dividing m pass whenever all scalars come in |
| `BatchVerify.OneWeightPasses` | src/ed25519-donna/ed25519-donna-batchverify.h:219-250 | a batch with a defective signature passes for at most one choice of its random bytes, among those with which all scalars come in |
| `BatchVerify.OneWeightVerdict` | src/ed25519-donna/ed25519-donna-batchverify.h:205-274 | the same for the driver: two runs that differ in those bytes only do not both let the batch pass |
| `BatchVerify.ValidBatchVerdict` | src/ed25519-donna/ed25519-donna-batchverify.h:216-258 | no entry of such a batch falls back to the single check |
| `BatchVerify.AllValidReturnsZero` | src/ed25519-donna/ed25519-donna-batchverify.h:205-274 | if every batch is such a batch and every entry verifies, the driver returns 0 and marks every entry |
| `BatchVerify.OpenEach` | src/ed25519-donna/ed25519-donna-batchverify.h:254-257 | each verdict is that of the single check; bit 0 records a failure |
| `BatchVerify.OneBatch` | src/ed25519-donna/ed25519-donna-batchverify.h:216-266 | one batch with its fallback keeps the verdicts and the result bits right |
| `BatchVerify.SignOpenBatch` | src/ed25519-donna/ed25519-donna-batchverify.h:205-274 | for every number of entries: an entry is valid exactly when its batch passed or it verifies by itself; bit 0 is set exactly when some entry is invalid, bit 1 exactly when some batch sum failed; only a rest of at most three after the last full batch goes without a batch check |
| `Relations.PushInv` | bin/ply/yacc.py:1909-1912 | pushing an unmarked node keeps the invariant of the traversal |
| `Relations.FollowInv` | bin/ply/yacc.py:1918-1920 | taking over a mark and a list along an edge keeps it |
| `Relations.ComponentExact` | bin/ply/yacc.py:1915-1923 | at the root of a component its list is the union for every member |
| `Relations.PopInv` | bin/ply/yacc.py:1921-1928 | popping the component keeps it |
| `Digraph.Merge` | bin/ply/yacc.py:1919-1920 | appending what is missing gives the union |
| `Digraph.Traversal.Traverse` | bin/ply/yacc.py:1908-1928 | for every reachable state: new stack entries are settled, finished nodes hold their union, the rest is untouched |
| `Digraph.Traversal.PopThrough` | bin/ply/yacc.py:1922-1928 | the component leaves the stack with one list |
| `Digraph.Digraph` | bin/ply/yacc.py:1898-1906 | for every finite relation, cycles included: the list of each node is exactly the union over the nodes it reaches, and nodes that reach each other share it |
| `FirstSets.FirstSets.First` | bin/ply/yacc.py:1647-1674 | FIRST of a sequence from the lists of its symbols |
| `FirstSets.SoundSequence` | bin/ply/yacc.py:1647-1674 | every symbol found starts a form that the sequence derives |
| `FirstSets.FixedIsComplete` | bin/ply/yacc.py:1698-1707 | a table that no pass changes misses nothing |
| `FirstSets.FirstSets.Pass` | bin/ply/yacc.py:1699-1705 | each pass adds an entry or leaves a fixed table |
| `FirstSets.FirstSets.ComputeFirst` | bin/ply/yacc.py:1681-1709 | ends with: a terminal is in FIRST(X) if and only if X derives a form starting with it, the empty marker if and only if X derives the empty form |
| `Fixpoints.ComputeNullable` | bin/ply/yacc.py:2093-2107 | exactly the names that derive the empty form |
| `Fixpoints.NullableAgreesWithFirst` | bin/ply/yacc.py:2093-2107 | the nullable set and the empty markers of FIRST agree |
| `Fixpoints.Terminating` | bin/ply/yacc.py:1519-1561 | a symbol is marked exactly when it derives a terminal string |
| `Fixpoints.InfiniteCycles` | bin/ply/yacc.py:1518-1573 | lists exactly the defined nonterminals that derive no terminal string |
| `LRParser.Parser.constructor` | bin/ply/yacc.py:897-913 | the start configuration |
| `LRParser.Parser.Fetch` | bin/ply/yacc.py:919-926 | the next token, or the end marker, becomes the lookahead |
| `LRParser.Parser.Shift` | bin/ply/yacc.py:933-943 | a shift keeps the stacks in step and the yield equal to the input |
| `LRParser.Parser.Reduce` | bin/ply/yacc.py:945-1004 | a reduction does too; with consistent tables it finds its symbols and its goto entry and undoes a rightmost step |
| `LRParser.Parser.Turn` | bin/ply/yacc.py:914-1020 | one turn does what the entry for the fetched lookahead says: positive shifts, negative reduces by that rule to its goto state, zero accepts, none stops; for any tables stacks stay in step and yield, lookahead and unread tokens are the input; with consistent tables nothing is raised and acceptance gives a parse tree |
| `LRParser.Parser.Parse` | bin/ply/yacc.py:914-1020 | the same over every number of turns: the result is that of so many prescribed turns, and to go on means all were made |
| `LRParser.ReduceStep` | bin/ply/yacc.py:945-1004 | a reduction is a rightmost derivation step read backwards |
| `LRParser.AcceptParses` | bin/ply/yacc.py:1018-1020 | acceptance leaves one valid tree for the start symbol whose yield is the input, with a rightmost derivation, hence a derivation, of the input |
| `GuidedParses.TreeRun` | bin/ply/yacc.py:914-1004 | from any stack, a valid tree for which every entry on the way is right is built in as many turns as it has leaves and nodes |
| `GuidedParses.GuidedAccepted` | bin/ply/yacc.py:914-1020 | completeness: the engine returns every valid tree that the tables guide it through |
| `GuidedParses.OneGuidedTree` | bin/ply/yacc.py:914-1020 | a sentence has at most one such tree |
| `GuidedParses.AcceptedGuided` | bin/ply/yacc.py:914-1020 | with consistent tables whatever a run returns is a parse tree of the input that the tables guided it through |
| `GuidedParses.AcceptedIffGuided` | bin/ply/yacc.py:914-1020 | with consistent tables some number of turns returns a tree exactly when it is a valid tree of the input that the tables guide the engine through |
| `GuidedParses.ParseSentence` | bin/ply/yacc.py:897-1020 | a new parser returns the guided tree of its input |
| `ParseTrees.SpelledTop` | bin/ply/yacc.py:945-960 | a finished item spells its right side on top of the stack |

## Left out

- The SSE2, inline-assembly and 32-bit variants: the same algorithms in another radix or in intrinsics.
- The contents of the point tables, the group laws and the primality of p and m: hypotheses, as listed above.
- Constant-time behaviour, memory layout and alignment; random bytes are a parameter of each batch entry.
- Limb vectors, field elements and points are values that methods return: writing a result over an operand in place is not captured. Heap, digit arrays, hash buffer, verdict array, traversal and parser stacks are updated in place.
- Masks and shifts are written as remainders, quotients and multiplications; OR of disjoint words as a sum.
- ed25519_verify, a byte comparison without branches, is modelled as equality of byte strings.
- The OpenSSL hash branch, curved25519_scalarmult_basepoint, expand_raw256_modm and swap_conditional: easy additions.
- Recode.SlidingWindow: window sizes 2 to 7; the loop never looks more than six places ahead, and the callers use 5 and 7.
- MultiScalar.MultiScalarMult: requires that the ladder's search ends within the scalar, see Ladder.LadderDefined; what the code does otherwise is undefined.
- BatchVerify.SignOpenBatch: requires the same of each batch; a passed batch is tied to its sum and a bad entry to at most one choice of its random bytes; the probability of drawing it is not stated.
- Digraph.Digraph: the lists that fp returns are taken as fresh; with shared lists an append to one node's list would show in another's, and that is not captured. The order within lists is not specified.
- Fixpoints.ComputeNullable: the dictionary is a set of names. Fixpoints.InfiniteCycles: so is the list.
- LRParser.Parser.Parse: runs for a given number of turns, since arbitrary tables may reduce forever; rule functions are taken to build the parse tree, and error recovery is not modelled.
- Generation of the LR tables (closures, gotos, lookaheads, conflict resolution) and FOLLOW sets: table consistency is a hypothesis on an item assignment.
- bin/ply/lex.py, bin/ply/cpp.py, jsonpath_rw, the ledger scripts, the JavaScript tools and the vendored libraries.
