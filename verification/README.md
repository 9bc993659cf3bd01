# Private set intersection protocols, verified

A Dafny model of the experiment code for four threshold private set intersection protocols, with proofs
that they compute what they are for. Every random draw is a parameter, so every theorem holds for all
draws; exceptions are result values.

* **Threshold Paillier** (`NumberTheory`, `Paillier`, `ThresholdPaillier`, `FusionCorrectness`): dealing
  Shamir shares modulo N*m, partial decryption, and fusing with integer Lagrange coefficients scaled by n!.
  The order of the units modulo N^2, exact division at every step of the coefficient loop and the vanishing
  n-th difference are proved, not assumed. Main result: any chain of enc, add, sub, mul and rerand decrypts
  to the value of the chain (`FusionCorrectness.ChainDecrypts`). `SingleKey` is the one-holder variant.
* **KS05** (`Polynomials`, `PolynomialStruct`, `PaillierPolynomials`, `Ks05`): set polynomials multiplied round
  a pipelined ring, differentiated, blinded and evaluated at the leader's elements. Main result: `Ks05.Run`.
* **BEH21** (`Bits`, `BloomFilters`, `SecureComparison`, `Selection`, `Beh21`): encrypted Bloom filters and two
  rounds of ring comparison. Main results: `SecureComparison.DecidesIffSafe` and `Beh21.Run`.
* **XZH26** (`HashParameters`, `CuckooHashing`, `SimpleHashing`, `BinSets`, `BitPositions`, `BitSeparation`,
  `PositionSearch`, `Opprf`, `OpprfTransfer`, `Groups`, `ElGamal`, `Xzh26`): cuckoo and simple hashing, the
  byte-packed table OPPRF, threshold ElGamal over a Bloom filter. Main results: `CuckooHashing.CuckooHasher.InsertBatch`, `OpprfTransfer.Transfer`,
  `Xzh26.Run`.
* **YYH26** (`Combinations`, `Moduli`, `Lanes`, `Shamir`, `OleRefresh`, `OleLayout`, `OleBatches`, `RefreshDelivery`,
  `BlockRows`, `ShareTables`, `ShareDelivery`, `Reconstruction`, `Yyh26`, `Yyh26Run`, `Yyh26Outcome`): sharing over
  four primes, tables down and up, refresh with masks that cancel, and reconstruction over all selections of
  clients.
  Main result: `Yyh26Run.Run`.

Code that works in place keeps that form: the hashers, position search, polynomials, Bloom filter and
cursor are classes over mutable fields, compaction and table rows work on arrays, and each such method is
proved against a specification function, and the specification functions against laws that do not mention
them. What a ciphertext encrypts is a predicate (`Paillier.Encrypts`, and `Paillier.EncryptsWith` for the
randomness it holds); the protocols use it only through the lemmas on the operations. The curve is an arbitrary commutative group
of prime order with a base point, following section 3 of RFC 9496 for the encoding of the identity as 32
zero bytes.

## Where the code does less than intended

* The comparison of BEH21 draws r = RandomBnd(127) + 1 and r' = RandomBnd(r - 1) + 1. For r = 1 this gives
  r' = 1, not r' < r, and a difference of 0 or 1 can be answered wrongly (`SecureComparison.UnitDrawFails`).
  `SecureComparison.DecidesIffSafe` gives the exact condition on the draws; r of at least 2 everywhere is
  enough. `Beh21.Run` says what the output is for all draws, and what it should be under the condition.
* `getPos1` ignores the result of `getMasks` for up to three points. For three points the masks can coincide,
  and the sender then indexes an empty mask list. `BitSeparation.ThreeCollide` is such a triple, and
  `BitSeparation.ThreeSeparateIff` gives the exact condition; `OpprfTransfer.Transfer` ends in `MasksMissing`
  where the source reads past the list.
* Below six items the stash region has no bins and hashing reduces modulo zero
  (`HashParameters.TableFits`). The hashing theorems are about parameters with bins in both regions.
* `distributedKeyGen` does not relate the number of parties to the primes; fusing fails for all ciphertexts as
  soon as n reaches a prime factor of N (`FusionCorrectness.TooManyParties`; `FusionCorrectness.FivePartiesFail`
  is such a key) and is correct below.
* The derivative of KS05 multiplies by 1, 2, ..., degree and the source refuses scalars from N on, so a run with
  more than N coefficients fails (`Ks05.Run`).
* `keyGen` with two-bit primes makes a key that decrypts nothing (`SingleKey.RoundTrip`).
* The YYH26 sender builds its slot number as `(temp << 6) | i` from an uninitialised `temp`; only the low six
  bits are read, so the model takes any upper bits (`RefreshDelivery.WithIndex`).

## Model

| member | source | states |
|---|---|---|
| `NumberTheory.UnitOrder` | experiments/shared/crypto/paillier.cpp:84-119 | for p = 2p'+1, q = 2q'+1 both prime every unit u satisfies u^(2 N p'q') = 1 modulo N^2 (Fermat modulo p and q, lifted to the squares, combined) |
| `NumberTheory.InvMod` | experiments/shared/crypto/paillier.cpp:267-270 | the library inverse: defined exactly for the units modulo n, and then an inverse below n |
| `Paillier.EncCorrect` | experiments/shared/crypto/paillier.cpp:155-170 | encryption succeeds exactly for messages in [-N, N), and is then (1 + m N) r^N modulo N^2 for the draw r, reduced: an encryption of m with exactly this randomness |
| `Paillier.SameCiphertext` | experiments/shared/crypto/paillier.cpp:155-170 | two draws give the same ciphertext of a message if and only if their N-th powers agree modulo N^2 |
| `Paillier.AddCorrect` | experiments/shared/crypto/paillier.cpp:285-293 | adding ciphertexts never fails on ciphertexts and encrypts the sum |
| `Paillier.SubCorrect` | experiments/shared/crypto/paillier.cpp:295-304 | subtraction finds its inverse for every ciphertext and encrypts the difference |
| `Paillier.MulCorrect` | experiments/shared/crypto/paillier.cpp:306-321 | scalar multiplication succeeds exactly for scalars in [-N, N) and encrypts the product |
| `Paillier.RerandCorrect` | experiments/shared/crypto/paillier.cpp:327-338 | re-randomising keeps the message, for every draw coprime to N |
| `Paillier.AddWith` | experiments/shared/crypto/paillier.cpp:285-293 | addition multiplies the randomness of its operands |
| `Paillier.SubWith` | experiments/shared/crypto/paillier.cpp:295-304 | subtraction divides the randomness of the first operand by that of the second |
| `Paillier.MulWith` | experiments/shared/crypto/paillier.cpp:306-321 | scalar multiplication by k takes the randomness to the power k, counted from N for a negative k |
| `Paillier.RerandWith` | experiments/shared/crypto/paillier.cpp:327-338 | re-randomising keeps the message and multiplies the randomness with exactly the draw |
| `Paillier.PartialDecWith` | experiments/shared/crypto/paillier.cpp:206-215 | a partial decryption with share s encrypts 2 delta s times the message, with the randomness to that power |
| `Paillier.RangesChecked` | experiments/shared/crypto/paillier.cpp:206-338 | the operations refuse exactly numbers outside (0, N^2), divisors without an inverse and scalars outside [-N, N) |
| `Paillier.OneEncryptsZero` | experiments/shared/crypto/paillier.cpp:285-293 | the number 1 is a ciphertext of 0, which the encrypted polynomials use as padding |
| `ThresholdPaillier.FactorialLoop` | experiments/shared/crypto/paillier.cpp:26-34 | the loop returns n!, and 1 for a negative n |
| `ThresholdPaillier.DistributedKeyGen` | experiments/shared/crypto/paillier.cpp:84-149 | fails exactly for n <= 0; otherwise the running-power loop deals share i as the value at i+1 of the polynomial with constant term m*beta and the drawn coefficients, modulo N*m, with public key (N, N^2, N+1, m*beta mod N, n!) |
| `ThresholdPaillier.FiniteDifferenceVanishes` | experiments/shared/crypto/paillier.cpp:231-252 | the n-th alternating difference of a polynomial with fewer than n+1 coefficients is 0: the reason the Lagrange weights at integer points work without inverses |
| `ThresholdPaillier.LambdaClosed` | experiments/shared/crypto/paillier.cpp:231-252 | after t steps the coefficient loop holds an explicit signed binomial quotient of delta |
| `ThresholdPaillier.LambdaExact` | experiments/shared/crypto/paillier.cpp:241-248 | every integer division of the coefficient loop is exact, whenever the factorial divides delta |
| `ThresholdPaillier.LambdaValue` | experiments/shared/crypto/paillier.cpp:231-252 | the final coefficient is delta * (-1)^i * C(n, i+1) |
| `ThresholdPaillier.LagrangeAtZero` | experiments/shared/crypto/paillier.cpp:231-252 | sum of lambda_i * f(i+1) is delta * f(0) for every integer polynomial f with at most n coefficients |
| `ThresholdPaillier.FuseDec` | experiments/shared/crypto/paillier.cpp:222-279 | computes the fused value of the specification; it succeeds exactly for some parts whose powers all exist modulo N^2, and when 4 delta^2 theta is invertible modulo N |
| `ThresholdPaillier.ProductGrows` | experiments/shared/crypto/paillier.cpp:254-262 | every part enters the product with the power twice its Lagrange coefficient, divided out when the coefficient is negative |
| `FusionCorrectness.FusedExponent` | experiments/shared/crypto/paillier.cpp:254-262 | the product over all partial decryptions is c to 4 delta^2 beta m, modulo N^2 |
| `FusionCorrectness.ScaleUnit` | experiments/shared/crypto/paillier.cpp:267-270 | the constant fuseDec divides by, 4 delta^2 theta, is invertible modulo N when n is below both prime factors |
| `FusionCorrectness.TooManyParties` | experiments/shared/crypto/paillier.cpp:267-270 | the converse: with at least as many parties as a prime factor of N the inverse never exists and fusing always fails |
| `FusionCorrectness.FivePartiesFail` | experiments/shared/crypto/paillier.cpp:267-270 | a concrete failure: five parties with keys over the primes 5 and 7, which key generation accepts, can never fuse |
| `FusionCorrectness.FuseCorrect` | experiments/shared/crypto/paillier.cpp:222-279 | for every dealt key and every ciphertext of m, fusing all n partial decryptions returns the representative of m in the range around 0 |
| `FusionCorrectness.JointDecrypt` | experiments/shared/crypto/paillier.cpp:206-279 | partial decryption by every party followed by fusing returns the representative of the message |
| `FusionCorrectness.GenerateKeys` | experiments/shared/crypto/paillier.cpp:84-149 | what key generation returns for a good draw is key material the other theorems accept |
| `FusionCorrectness.ThresholdRoundTrip` | experiments/shared/crypto/paillier.cpp:84-279 | key generation, encryption, partial decryption and fusing return every message of magnitude below N/2 unchanged |
| `FusionCorrectness.ChainEncrypts` | experiments/shared/crypto/paillier.cpp:155-338 | every chain of enc, add, sub, mul and rerand runs without a failure and encrypts the value of the same chain on integers |
| `FusionCorrectness.ChainDecrypts` | experiments/shared/crypto/paillier.cpp:155-338 | jointly decrypting the result of any such chain gives the value of the chain modulo N, in [-(N-1)/2, (N-1)/2] |
| `SingleKey.KeyOrder` | experiments/shared/crypto/paillier.cpp:60-76 | every unit has order n * lcm(p-1, q-1) modulo n^2 |
| `SingleKey.DecCorrect` | experiments/shared/crypto/paillier.cpp:176-200 | single-key decryption succeeds exactly when the key is invertible modulo n, and then returns the representative of the message |
| `SingleKey.KeyInvertible` | experiments/shared/crypto/paillier.cpp:60-76 | for two different primes of l bits the key is invertible modulo n if and only if l is not 2 |
| `SingleKey.RoundTrip` | experiments/shared/crypto/paillier.cpp:155-200 | decryption returns what was encrypted for all messages and randomness, and fails for all of them when l is 2 (primes 2 and 3) |
| `Polynomials.EvalOfSum` | experiments/ks05/protocol/polynomial.cpp:39-52 | evaluating a coefficientwise sum adds the values, whatever the lengths |
| `Polynomials.EvalOfProduct` | experiments/ks05/protocol/polynomial.cpp:54-73 | evaluating the convolution multiplies the values |
| `Polynomials.Leibniz` | experiments/ks05/protocol/polynomial.cpp:54-91 | (ab)' and a'b + ab' have the same coefficients |
| `Polynomials.DerivativeCoefficients` | experiments/ks05/protocol/polynomial.cpp:75-91 | i! times coefficient i of the k-th derivative is (i + k)! times coefficient i + k of the polynomial, for all i and k |
| `Polynomials.VanishesProduct` | experiments/ks05/protocol/polynomial.cpp:54-91 | multiplicities of a root add up under multiplication |
| `Polynomials.EvalFromRoots` | experiments/ks05/protocol/polynomial.cpp:187-232 | the polynomial built root by root evaluates to the product of the differences y - root |
| `Polynomials.RootProductZero` | experiments/ks05/protocol/polynomial.cpp:187-232 | the product of the differences is 0 exactly at the roots |
| `Polynomials.FromRootsMonic` | experiments/ks05/protocol/polynomial.cpp:187-232 | the polynomial built from the roots has leading coefficient 1 |
| `Polynomials.MultiplicityLaw` | experiments/ks05/protocol/polynomial.cpp:187-232 | a root occurring k times makes the polynomial and its first k-1 derivatives vanish there, modulo any n |
| `Polynomials.RunningPowers` | experiments/ks05/protocol/polynomial.cpp:97-113 | one step of a running-power evaluation loop, reduced at every step, adds the next term |
| `PolynomialStruct.Polynomial.EvaluateAt` | experiments/ks05/protocol/polynomial.cpp:7-37 | Horner's rule with a reduction at every step returns the value modulo p in [0, p), and 0 for no coefficients |
| `PolynomialStruct.Polynomial.AddPoly` | experiments/ks05/protocol/polynomial.cpp:39-52 | the new coefficients are the padded sums of the old ones |
| `PolynomialStruct.Polynomial.MulPoly` | experiments/ks05/protocol/polynomial.cpp:54-73 | the new coefficients are the convolution, empty when either factor is |
| `PolynomialStruct.Polynomial.Derive` | experiments/ks05/protocol/polynomial.cpp:75-91 | the new coefficients are those of the derivative, empty for a constant |
| `PolynomialStruct.EncodeAsPolynomial` | experiments/ks05/protocol/polynomial.cpp:187-232 | the in-place folding yields one coefficient more than there are roots, all in [0, n), congruent to the monic polynomial with these roots |
| `PolynomialStruct.EncodingEvaluates` | experiments/ks05/protocol/polynomial.cpp:187-232 | evaluating the encoding gives the product of the differences modulo n |
| `PolynomialStruct.EncodingMultiplicity` | experiments/ks05/protocol/polynomial.cpp:187-232 | the encoding inherits every root with its multiplicity |
| `PaillierPolynomials.EncryptCoefficients` | experiments/ks05/protocol/polynomial.cpp:255-266 | coefficientwise encryption succeeds exactly when all coefficients are in [-N, N); coefficient i is then encrypted with draw i |
| `PaillierPolynomials.PaillierPolynomial.EvaluateAt` | experiments/ks05/protocol/polynomial.cpp:97-113 | evaluating under encryption at a public point encrypts the value of the decrypted polynomial |
| `PaillierPolynomials.PaillierPolynomial.AddPoly` | experiments/ks05/protocol/polynomial.cpp:115-128 | addition under encryption, padding with 1 as an encryption of 0, decrypts to the padded sum |
| `PaillierPolynomials.PaillierPolynomial.MulPoly` | experiments/ks05/protocol/polynomial.cpp:130-159 | multiplication by a plaintext polynomial decrypts to the convolution; it fails exactly when a coefficient is out of range and there is something to multiply |
| `PaillierPolynomials.PaillierPolynomial.Derive` | experiments/ks05/protocol/polynomial.cpp:161-179 | the derivative under encryption decrypts to the derivative; it fails exactly with more than N coefficients |
| `Ks05.PrepareMember` | experiments/ks05/protocol/t_mpsi.cpp:60-111 | a member keeps coefficients that evaluate everywhere to the product of the differences to its set, and as many encryptions of 0, one per draw, as both later steps will use |
| `Ks05.AddTerm` | experiments/ks05/protocol/t_mpsi.cpp:145-159 | the first term of a coefficient replaces the 0 marker, later ones are added; either way it encrypts the sum |
| `Ks05.Aggregate` | experiments/ks05/protocol/t_mpsi.cpp:128-177 | the pipelined product: the sent stream equals the final coefficient vector, so every coefficient is sent once, in order and not changed afterwards; it encrypts the convolution of the received and the own polynomial, with the received randomness to the power of the own coefficients times that of the zero used for the coefficient |
| `Ks05.Setup.DegreeBound` | experiments/ks05/protocol/t_mpsi.cpp:97-101 | the threshold never exceeds the degree, so the unsigned subtraction of the source does not wrap |
| `Ks05.BlindPolynomial` | experiments/ks05/protocol/t_mpsi.cpp:274-283 | the plaintext factor is congruent to F f s, all coefficients in [0, N) |
| `Ks05.Differentiate` | experiments/ks05/protocol/t_mpsi.cpp:213-220 | t-1 derivatives under encryption decrypt to coefficients c'_i with i! c'_i = (i + t - 1)! c_(i+t-1); it fails exactly when there are more coefficients than N and something to differentiate |
| `Ks05.Blind` | experiments/ks05/protocol/t_mpsi.cpp:213-298 | differentiating and blinding yields an encryption of p r + p^(t-1) F f s with exactly max(2 degOriginal, 3 degDerivative) + 1 coefficients, each multiplied by the next precomputed zero, so every zero index is in range and all are used; it fails exactly when the derivative does |
| `Ks05.RingAggregate` | experiments/ks05/protocol/t_mpsi.cpp:112-177 | after the ring the ciphertexts encrypt the product of all parties' polynomials, with recvSize + (n-1) sendSize + 1 coefficients |
| `Ks05.RingEvaluates` | experiments/ks05/protocol/t_mpsi.cpp:112-177 | the ring product starts as the leader's polynomial and is multiplied with one member's polynomial after the other |
| `Ks05.SumBlinded` | experiments/ks05/protocol/t_mpsi.cpp:518-571 | the leader's sum encrypts a polynomial whose value at every y is p(y) times the summed r plus p^(t-1)(y) times the summed blinding factors; it fails exactly when the derivative does |
| `Ks05.FactorsAdd` | experiments/ks05/protocol/t_mpsi.cpp:518-571 | the two summed factors start at 0 and grow by one member's r, and by its F f s, at every point |
| `Ks05.DecryptAll` | experiments/ks05/protocol/t_mpsi.cpp:579-687 | jointly decrypted coefficients are congruent to the encrypted ones |
| `Ks05.RingVanishes` | experiments/ks05/protocol/t_mpsi.cpp:128-177 | an element of the leader held by h members is a root of multiplicity h+1 of the ring product |
| `Ks05.HoldersCount` | experiments/ks05/protocol/t_mpsi.cpp:128-177 | the number of holders is the number of members whose sets have the element |
| `Ks05.RootTest` | experiments/ks05/protocol/t_mpsi.cpp:696-716 | at an element of the leader the test accepts exactly when p^(t-1) times the summed blinding factor is 0 modulo N |
| `Ks05.Run` | experiments/ks05/protocol/t_mpsi.cpp:50-716 | the whole protocol for all random polynomials: it completes exactly when the ring product has at most N coefficients; the output is then, in order, exactly the leader's inputs y at which p^(t-1)(y) times the summed blinding factors is 0 modulo N, p being the product of all sets' polynomials, and contains every leader input held by at least t parties |
| `Selection.SelectAt` | experiments/ks05/protocol/t_mpsi.cpp:696-716 | a selection has as many elements as there are flags, and a flagged index's input stands where the number of flags before it says |
| `Selection.SelectIff` | experiments/ks05/protocol/t_mpsi.cpp:696-716 | an element is selected if and only if some flagged index holds it |
| `BloomFilters.BloomFilter.constructor` | experiments/beh21/protocol/bloom_filter.h:29-37 | a new filter has no bit set |
| `BloomFilters.BloomFilter.Set` | experiments/beh21/protocol/bloom_filter.h:89-96 | fails exactly for an index out of range; otherwise sets that bit in its word and changes no other bit |
| `BloomFilters.BloomFilter.Add` | experiments/beh21/protocol/bloom_filter.h:52-60 | afterwards exactly the old bits and the element's positions are set |
| `BloomFilters.BloomFilter.Contains` | experiments/beh21/protocol/bloom_filter.h:67-77 | answers whether all positions of the element are set |
| `BloomFilters.BuildFilter` | experiments/beh21/protocol/ot_mpsi.cpp:59-82 | the filter built from a set covers every element of the set |
| `Bits.OrBitSets` | experiments/beh21/protocol/bloom_filter.h:89-96 | or-ing in a shifted 1 sets that bit and no other |
| `SecureComparison.UnflippedStep` | experiments/beh21/protocol/ot_mpsi.cpp:149-162 | one hop, seen with all sign changes undone, multiplies by r and adds r' with the sign of the swaps so far |
| `SecureComparison.ComparedStep` | experiments/beh21/protocol/ot_mpsi.cpp:149-162 | the compared value is r d - r' at the leader, and a hop multiplies by r, adds r' and negates if its coin says so |
| `SecureComparison.SwappedIsOdd` | experiments/beh21/protocol/ot_mpsi.cpp:150-156 | the candidates are swapped exactly when an odd number of coins said so |
| `SecureComparison.SafeDecides` | experiments/beh21/protocol/ot_mpsi.cpp:475-498 | with safe draws the value is nonzero and its sign selects 1 exactly for a difference of at most 0, for every number of hops and all coins |
| `SecureComparison.LargeDrawsAreSafe` | experiments/beh21/protocol/ot_mpsi.cpp:158-159 | r of at least 2 at every hop makes the draws safe |
| `SecureComparison.DecidesIffSafe` | experiments/beh21/protocol/ot_mpsi.cpp:158-159 | a list of draws compares every difference correctly under all coins if and only if no margin computed from r and r' alone is used up |
| `SecureComparison.UnitDrawFails` | experiments/beh21/protocol/ot_mpsi.cpp:158-159 | a concrete wrong comparison: one hop drawing r = 1, hence r' = 1, answers 0 for a difference of 0 |
| `SecureComparison.Magnitude` | experiments/beh21/protocol/ot_mpsi.cpp:137-171 | after k hops the magnitude plus one is at most 127^(k+1) (D+1) |
| `Beh21.StartComparison` | experiments/beh21/protocol/ot_mpsi.cpp:475-498 | the leader's ciphertext encrypts r (top - m) - r', with candidates 1 and 0 |
| `Beh21.Hop` | experiments/beh21/protocol/ot_mpsi.cpp:148-171 | a hop keeps the ring invariant: c encrypts r times the value plus r', negated if the coin says so, and the candidates encrypt 1 and 0, swapped as often as the coins say |
| `Beh21.MemberRound` | experiments/beh21/protocol/ot_mpsi.cpp:137-171 | a member handles every pair in order and uses exactly two precomputed zeros per pair |
| `Beh21.Choose` | experiments/beh21/protocol/ot_mpsi.cpp:631-645 | joint decryption of c selects an encryption of the verdict, for every value and all draws |
| `Beh21.VerdictIffSafe` | experiments/beh21/protocol/ot_mpsi.cpp:475-645 | where nothing wraps modulo N, the verdicts on all differences are right under all coins if and only if the draws are safe |
| `Beh21.CompareAll` | experiments/beh21/protocol/ot_mpsi.cpp:137-213 | a full round answers every pair with an encryption of its verdict, for all valid draws |
| `Beh21.EncryptFilter` | experiments/beh21/protocol/ot_mpsi.cpp:105-125 | the ciphertexts encrypt the bits of the filter in order |
| `Beh21.TestMembership` | experiments/beh21/protocol/ot_mpsi.cpp:428-453 | the sum over the positions the leader computes itself encrypts the sum of the bits at the element's positions in the member's filter, re-randomised with the zero used |
| `Beh21.BitSumCounts` | experiments/beh21/protocol/ot_mpsi.cpp:428-453 | the sum of bits is the number of the element's positions that are set in the filter |
| `Beh21.Aggregate` | experiments/beh21/protocol/ot_mpsi.cpp:656-668 | the sum of an element's answers encrypts how many of them are 1 |
| `Beh21.TallyCounts` | experiments/beh21/protocol/ot_mpsi.cpp:656-668 | the sum of answers is the number of them that are 1 |
| `Beh21.SafeCount` | experiments/beh21/protocol/ot_mpsi.cpp:428-668 | with safe draws and no wrap-around exactly the filters that cover an element are counted |
| `Beh21.CoversCounted` | experiments/beh21/protocol/ot_mpsi.cpp:428-668 | the covering filters are counted one by one |
| `Beh21.ZeroBudget` | experiments/beh21/protocol/ot_mpsi.cpp:90-99 | every running zero index stays inside the precomputed list |
| `Beh21.CountAll` | experiments/beh21/protocol/ot_mpsi.cpp:428-668 | for all elements the counts encrypt the sums of their verdicts, and both zero indices advance by exactly one and two per pair |
| `Beh21.FinalDecryption` | experiments/beh21/protocol/ot_mpsi.cpp:826-929 | the kept elements are, in order, exactly those whose answer decrypts to 1 |
| `Beh21.ThresholdRound` | experiments/beh21/protocol/ot_mpsi.cpp:670-929 | the second comparison and decryption keep, in order, exactly the elements whose verdict on count and threshold - 1 is 1, for all valid draws |
| `Beh21.SafeOutput` | experiments/beh21/protocol/ot_mpsi.cpp:670-929 | with safe draws and no wrap-around these are exactly the elements that at least threshold - 1 filters cover |
| `Beh21.Run` | experiments/beh21/protocol/ot_mpsi.cpp:52-929 | end to end, for all valid draws: an element's count is the number of its first-round verdicts that are 1, the output is, in order, exactly the leader's elements with verdict 1 on threshold - 1 less the count, and members and leader use exactly the zeros they precompute; with safe draws and no wrap-around it is exactly the elements at least threshold - 1 filters cover |
| `Beh21.CountedVerdicts` | experiments/beh21/protocol/ot_mpsi.cpp:428-668 | an element's count is the number of its verdicts that are 1 |
| `Beh21.RoomEnough` | experiments/beh21/protocol/ot_mpsi.cpp:475-498 | nothing wraps exactly when 2 * 127^(members + 1) times one more than the number of hashes, the threshold less one and the number of members stays below N |
| `Beh21.NeverMissed` | experiments/beh21/protocol/ot_mpsi.cpp:826-929 | an element of the leader held by threshold - 1 members is always reported |
| `HashParameters.TableFits` | experiments/xzh26/frontend/Hashing/SimpleHasher1.cpp:172-211 | for every accepted set size the number of slots of a bin is 2 to its number of mask bits; both regions have a bin exactly from six items on |
| `HashParameters.RegionSizes` | experiments/xzh26/frontend/Hashing/SimpleHasher1.cpp:172-211 | for every set size the table's two regions in whole bins: bins per hundred items, three hashes and 32 slots, two hashes and 64 slots; none above 2^24 items |
| `CuckooHashing.DecodeEncode` | experiments/xzh26/frontend/Hashing/CuckooHasher1.cpp:758-771 | index and hash number come back from a word, and no word made from them is the empty marker |
| `CuckooHashing.WordLayout` | experiments/xzh26/frontend/Hashing/CuckooHasher1.cpp:758-775 | the same with 64-bit shifts and masks |
| `CuckooHashing.Compact` | experiments/xzh26/frontend/Hashing/CuckooHasher1.cpp:254-302 | the two-pointer compaction moves exactly the occupied evicted words to the front, in order; a word with hash number h comes back as its index with h + 1, or with 0 when h + 1 is the number of hashes |
| `CuckooHashing.ExchangeConserves` | experiments/xzh26/frontend/Hashing/CuckooHasher1.cpp:238-249 | one exchange neither loses nor duplicates an index: bins plus evicted words hold the old bins plus the inputs, and every occupied bin stays at an address of its item |
| `CuckooHashing.Displaced` | experiments/xzh26/frontend/Hashing/CuckooHasher1.cpp:238-249 | an input displaces the word of the last input before it that went to the same bin, or else what was in the bin at the start |
| `CuckooHashing.NextInputIs` | experiments/xzh26/frontend/Hashing/CuckooHasher1.cpp:254-302 | the inputs of the next round: every evicted item with the hash number after its own, the first one after the last |
| `CuckooHashing.EvictedSettles` | experiments/xzh26/frontend/Hashing/CuckooHasher1.cpp:228-303 | progress: an evicted item whose next hash points to an empty bin, with no other evicted item going there, is in that bin after the next round and displaces nothing |
| `CuckooHashing.BatchSettles` | experiments/xzh26/frontend/Hashing/CuckooHasher1.cpp:202-317 | a batch whose items' first hashes point to different empty bins is placed there with these hashes, other bins stay as they were and nothing is set aside |
| `CuckooHashing.RoundConserves` | experiments/xzh26/frontend/Hashing/CuckooHasher1.cpp:228-303 | a whole round keeps the same balance and leaves valid inputs for the next |
| `CuckooHashing.ExchangesAgree` | experiments/xzh26/frontend/Hashing/CuckooHasher1.cpp:228-303 | the outcome of inserting depends only on the hash rows of the items, so one specification serves every party |
| `CuckooHashing.CuckooHasher.Exchange` | experiments/xzh26/frontend/Hashing/CuckooHasher1.cpp:238-249 | the loop over bins and work arrays computes the specified exchange |
| `CuckooHashing.CuckooHasher.Round` | experiments/xzh26/frontend/Hashing/CuckooHasher1.cpp:228-303 | fetch, exchange and compact compute one specified round in place |
| `CuckooHashing.CuckooHasher.InsertRounds` | experiments/xzh26/frontend/Hashing/CuckooHasher1.cpp:228-303 | at most a hundred rounds compute the specified outcome, conserve every index and keep every bin valid |
| `CuckooHashing.CuckooHasher.InsertBatch` | experiments/xzh26/frontend/Hashing/CuckooHasher1.cpp:202-317 | bins plus stash list hold the old ones plus the batch as multisets; what was set aside is exactly what the specified rounds left, in order; every occupied bin satisfies its address equation |
| `CuckooHashing.CuckooHasher.InsertStashBatch` | experiments/xzh26/frontend/Hashing/CuckooHasher1.cpp:319-418 | the stash items go into the stash region with the same conservation; the number left over is returned where the source throws |
| `SimpleHashing.InBinIff` | experiments/xzh26/frontend/Hashing/SimpleHasher1.cpp:267-303 | an item is in a bin if and only if it was inserted and one of the region's hashes, modulo the region's number of bins, is that bin |
| `SimpleHashing.EntryIsFirst` | experiments/xzh26/frontend/Hashing/SimpleHasher1.cpp:277-285 | the hash number recorded with an item is the first of the region's hashes that leads to the bin; stash hashes are numbered after the main ones |
| `SimpleHashing.HashesKeep` | experiments/xzh26/frontend/Hashing/SimpleHasher1.cpp:277-285 | inserting an item under its hashes one by one keeps: every bin lists items once, each under the first of its hashes that leads there, and the item is in all bins of the hashes so far |
| `SimpleHashing.SimpleHasher.InsertBatch` | experiments/xzh26/frontend/Hashing/SimpleHasher1.cpp:267-303 | all items of the batch end up in all their bins, nothing else is added, earlier entries stay in front, and the table is the specified one |
| `BinSets.BinSet.HashNext` | experiments/xzh26/frontend/OPPRF/binSet.cpp:109-139 | a batch of at most 128 consecutive items goes into both tables and is accounted for exactly once |
| `BinSets.BinSet.HashStash` | experiments/xzh26/frontend/OPPRF/binSet.cpp:146-158 | the stash rows are the first hashes of the items set aside; insertion conserves everything held |
| `BinSets.BinSet.Hashing2Bins` | experiments/xzh26/frontend/OPPRF/binSet.cpp:46-187 | goes through exactly when every item sits in one cuckoo bin, which is exactly when the specified insertion of all items leaves nothing over; both tables are then the specified ones and the simple one has every item in all its bins |
| `BinSets.OneBinEach` | experiments/xzh26/frontend/OPPRF/binSet.cpp:46-187 | after success every item has one cuckoo bin and only one |
| `BinSets.DistinctFit` | experiments/xzh26/frontend/OPPRF/binSet.cpp:46-187 | hashing goes through whenever the items' first hashes point to different main bins, and every item is then in that bin with hash number 0 |
| `BinSets.BinsAlign` | experiments/xzh26/frontend/OPPRF/binSet.cpp:126-158 | wherever a cuckoo bin holds an element, another party with that element and the same set size has it in its simple bin of the same number, in both regions |
| `BitPositions.MaskBits` | experiments/xzh26/frontend/Hashing/BitPosition.cpp:177-191 | bit k of the mask is the element's bit at position k, and the mask is below 2 to the number of positions |
| `PositionSearch.TestBitIs` | experiments/xzh26/frontend/Hashing/BitPosition.cpp:100-124 | bit n of a point is the binary digit of weight 2^n of its bytes read lowest first |
| `BitPositions.MaskSeparates` | experiments/xzh26/frontend/Hashing/BitPosition.cpp:177-191 | two elements have different masks exactly when they differ at one of the positions |
| `BitPositions.ChooseIndex` | experiments/xzh26/frontend/Hashing/BitPosition.cpp:30-41 | rejection sampling: takes the first random word below the cutoff, reduced; without one it ends with the words |
| `BitPositions.ChooseIndexFair` | experiments/xzh26/frontend/Hashing/BitPosition.cpp:30-41 | the accepted words are a whole number of rounds over the range and at least 2^64 - 1 - limit of them |
| `BitPositions.BitPosition.GetMask` | experiments/xzh26/frontend/Hashing/BitPosition.cpp:177-191 | the loop computes the mask |
| `BitPositions.BitPosition.GetMasks` | experiments/xzh26/frontend/Hashing/BitPosition.cpp:149-175 | succeeds exactly when all masks differ, and otherwise leaves the mask list empty |
| `BitPositions.BitPosition.GetRandPos` | experiments/xzh26/frontend/Hashing/BitPosition.cpp:454-466 | keeps the positions there are and adds different ones up to the number of bits, as the specified search does |
| `BitPositions.BitPosition.SeedThree` | experiments/xzh26/frontend/Hashing/BitPosition.cpp:330-364 | the two deliberate positions: where the first two points first differ, and where the third first stands alone |
| `BitPositions.BitPosition.SearchMany` | experiments/xzh26/frontend/Hashing/BitPosition.cpp:402-444 | from four points on: computes the specified search, which only ends with positions that separate all points |
| `BitPositions.BitPosition.GetPos1` | experiments/xzh26/frontend/Hashing/BitPosition.cpp:303-447 | ends exactly when the specified search does, with its positions; up to three points these are the deliberate positions and random others whether or not the masks then differ, from four on they separate |
| `BitPositions.SpelledEnds` | experiments/xzh26/frontend/Hashing/BitPosition.cpp:402-444 | from four points on the search ends, with any separating positions a stream of words spells |
| `BitPositions.OutcomeEnds` | experiments/xzh26/frontend/Hashing/BitPosition.cpp:303-367 | up to three points every list that starts with the deliberate positions is what the search ends with for some words |
| `PositionSearch.FewEndsIff` | experiments/xzh26/frontend/Hashing/BitPosition.cpp:303-367 | up to three points: some words make the search end with given positions if and only if they are as many as asked for, different, and start with the deliberate ones |
| `PositionSearch.ManyEndsIff` | experiments/xzh26/frontend/Hashing/BitPosition.cpp:402-444 | from four points on: some words make it end with given positions if and only if they are as many as asked for, different, each tells two of the points apart, and no two points have the same mask |
| `PositionSearch.UselessDraw` | experiments/xzh26/frontend/Hashing/BitPosition.cpp:402-444 | a drawn position at which the two drawn points agree is passed over |
| `PositionSearch.SearchRestarts` | experiments/xzh26/frontend/Hashing/BitPosition.cpp:402-444 | positions that leave two masks equal are given up and the search starts again with the words that follow |
| `BitSeparation.PointsDiffer` | experiments/xzh26/frontend/Hashing/BitPosition.cpp:100-124 | different 32-byte elements differ at one of the 256 positions |
| `BitSeparation.FewSeparate` | experiments/xzh26/frontend/Hashing/BitPosition.cpp:307-329 | one or two different points always get different masks |
| `BitSeparation.ThreeSeparateIff` | experiments/xzh26/frontend/Hashing/BitPosition.cpp:330-367 | three different points get different masks for every outcome if and only if some position sets the third apart or fewer positions than needed confuse it with its twin |
| `BitSeparation.ThreeCollide` | experiments/xzh26/frontend/Hashing/BitPosition.cpp:330-367 | a concrete failure for all table sizes: three different points and words for which the search ends with two equal masks |
| `Opprf.SlotsDisjoint` | experiments/xzh26/frontend/OPPRF/OPPRFSender.cpp:264-266 | writing one slot changes no other slot and none of the positions |
| `Opprf.WriteEntries` | experiments/xzh26/frontend/OPPRF/OPPRFSender.cpp:254-269 | every item's slot holds its encrypted payload afterwards and the positions are untouched |
| `Opprf.FillDummies` | experiments/xzh26/frontend/OPPRF/OPPRFSender.cpp:275-287 | all other slots hold the zero point, the written ones keep their content |
| `Opprf.EncodeRow` | experiments/xzh26/frontend/OPPRF/OPPRFSender.cpp:226-288 | the row of a bin: positions, encrypted payloads at their masks, zero points elsewhere; every slot index is in range |
| `Opprf.DummyRow` | experiments/xzh26/frontend/OPPRF/OPPRFSender.cpp:289-313 | the row of an empty bin: different positions below 128 and only zero points |
| `Opprf.GetSenderKeys` | experiments/xzh26/frontend/OPPRF/OPPRFSender.cpp:38-134 | every occupied bin gets its items' OPRF values, positions and masks; it goes through exactly when every occupied bin's indices are in range and its search ends |
| `Opprf.BinPositionsAre` | experiments/xzh26/frontend/OPPRF/OPPRFSender.cpp:38-134 | a bin is searched with exactly its items' OPRF values, and not at all when one is missing |
| `Opprf.SendTable` | experiments/xzh26/frontend/OPPRF/OPPRFSender.cpp:192-341 | main region, then stash region, sixteen bins a message, in as many messages as that takes |
| `Opprf.CarriedAt` | experiments/xzh26/frontend/OPPRF/OPPRFSender.cpp:192-341 | bin k of a region is row k mod 16 of the region's message k / 16, which has sixteen rows or what is left |
| `Opprf.RowForIff` | experiments/xzh26/frontend/OPPRF/OPPRFSender.cpp:226-313 | what is sent for a bin, slot by slot: the positions, at each item's mask its OPRF value plus its payload, everywhere else the zero point; an empty bin has only zero points |
| `OpprfTransfer.DecodeRow` | experiments/xzh26/frontend/OPPRF/OPPRFReceiver.cpp:233-278 | the receiver reads the slot its mask names and subtracts its OPRF value |
| `OpprfTransfer.GetReceiverKeys` | experiments/xzh26/frontend/OPPRF/OPPRFReceiver.cpp:88-131 | every occupied cuckoo bin gets its item's OPRF value |
| `OpprfTransfer.RecvTable` | experiments/xzh26/frontend/OPPRF/OPPRFReceiver.cpp:189-281 | every occupied bin's item receives the decoding of that bin's row; it fails exactly when some message has another size than its batch |
| `OpprfTransfer.SizedIff` | experiments/xzh26/frontend/OPPRF/OPPRFReceiver.cpp:217-226 | accepted are exactly as many messages as the region needs, each with sixteen rows or what is left, every row as long as positions and slots |
| `OpprfTransfer.DecodedAt` | experiments/xzh26/frontend/OPPRF/OPPRFReceiver.cpp:233-278 | an occupied bin's item gets the slot its mask names in the row of that bin, less its own OPRF value |
| `OpprfTransfer.SentIsSized` | experiments/xzh26/frontend/OPPRF/OPPRFReceiver.cpp:217-226 | the messages the sender makes have the sizes the receiver expects, message by message |
| `OpprfTransfer.BinDecodes` | experiments/xzh26/frontend/OPPRF/OPPRFReceiver.cpp:254-273 | decoding the row of a bin that holds the element gives the payload programmed for it |
| `OpprfTransfer.SafeBinsHaveMasks` | experiments/xzh26/frontend/OPPRF/OPPRFSender.cpp:264-264 | bins for which the position search always separates have one mask per item |
| `OpprfTransfer.WorkMeansMasks` | experiments/xzh26/frontend/OPPRF/OPPRFSender.cpp:264-264 | all bins have their masks exactly when every search ended with separating positions |
| `OpprfTransfer.WorksIff` | experiments/xzh26/frontend/OPPRF/OPPRFSender.cpp:264-264 | a bin's search works exactly when it ends with positions that give the bin's items different masks |
| `OpprfTransfer.SafeBinsIff` | experiments/xzh26/frontend/OPPRF/OPPRFSender.cpp:264-264 | bins are safe exactly when every three points in one of them are always separated |
| `OpprfTransfer.Transfer` | experiments/xzh26/frontend/OPPRF/OPPRFReceiver.cpp:157-297 | the whole transfer: it completes exactly when every occupied bin's search ends with separating positions, and then the receiver has the sender's payload for every element both hold, and for every other element what its value reads in the sender's bin; it ends with the words exactly when some search does, and lacks masks only when some bin does not meet the separation condition |
| `OpprfTransfer.ReadMeans` | experiments/xzh26/frontend/OPPRF/OPPRFReceiver.cpp:157-297 | what comes out for any item of the receiver: if an item of the sender in the bin has the same mask, that item's OPRF value plus payload less the receiver's value; if none has, the zero point less the receiver's value |
| `Groups.TimesTimes` | experiments/xzh26/frontend/point.cpp:35-45 | scalar multiplication composes: j (k P) = (j k) P, in every group |
| `Groups.TimesCong` | experiments/xzh26/frontend/point.cpp:35-45 | scalars matter modulo the group order only |
| `ElGamal.Encrypt` | experiments/xzh26/frontend/OtBinMain.cpp:31-41 | under every secret that belongs to the public key the ciphertext opens to the plaintext; its first component is r G |
| `ElGamal.EncryptOpens` | experiments/xzh26/frontend/OtBinMain.cpp:31-41 | an encryption under the joint key opens to its plaintext, for every scalar |
| `ElGamal.HomoAddOpens` | experiments/xzh26/frontend/OtBinMain.cpp:44-48 | the sum of ciphertexts has the sum of the first components and opens to the sum of the plaintexts |
| `ElGamal.FullyDecrypt` | experiments/xzh26/frontend/OtBinMain.cpp:60-68 | adds all shares to the second component |
| `ElGamal.JointKey` | experiments/xzh26/frontend/OtBinMain.cpp:366-427 | the aggregated public key is the sum of all secrets times the base |
| `ElGamal.JointlyOpens` | experiments/xzh26/frontend/OtBinMain.cpp:51-68 | adding the shares of all parties opens a ciphertext under the summed secret |
| `ElGamal.PartCancels` | experiments/xzh26/frontend/OtBinMain.cpp:51-58 | a partial decryption cancels the secret's multiple of the first component |
| `Xzh26.FillFilter` | experiments/xzh26/frontend/OtBinMain.cpp:466-472 | a bit is set exactly when it is a position of some element of the leader |
| `Xzh26.EncryptFilter` | experiments/xzh26/frontend/OtBinMain.cpp:487-508 | set bits become encryptions of the identity whose first component is the drawn multiple of the base, clear ones the drawn pairs of points |
| `Xzh26.TestElement` | experiments/xzh26/frontend/OtBinMain.cpp:598-619 | a client's result opens to the sum of what the element's cells open to; its first component is the sum of the cells' plus the drawn multiple of the base |
| `Xzh26.CellSumGrows` | experiments/xzh26/frontend/OtBinMain.cpp:598-619 | the sum of no cells is the identity, and a cell more adds what it opens to |
| `Xzh26.Unblind` | experiments/xzh26/frontend/OtBinMain.cpp:731-775 | multiplying the processed blinded point by the inverse scalar gives the client's own PRF value |
| `Xzh26.KeyInjective` | experiments/xzh26/frontend/OtBinMain.cpp:676-676 | a key that is not 0 modulo the order keeps different points different |
| `Xzh26.LeaderValues` | experiments/xzh26/frontend/OtBinMain.cpp:731-775 | blinding, the client's multiplication and unblinding give the leader the client's PRF values |
| `Xzh26.TransferBoth` | experiments/xzh26/frontend/OtBinMain.cpp:908-937 | two transfers hand both ciphertext components of every common element to the leader; they complete exactly when all searches of both work |
| `Xzh26.ClientPart` | experiments/xzh26/frontend/OtBinMain.cpp:593-940 | one client's whole part: it completes exactly when the client's set can be hashed and both transfers work; every test then opens as specified and reaches the leader's item with the same element |
| `Xzh26.Accumulate` | experiments/xzh26/frontend/OtBinMain.cpp:958-998 | adding one client's points: every total then opens to what it opened to before plus what was received for it |
| `Xzh26.PlainSumGrows` | experiments/xzh26/frontend/OtBinMain.cpp:958-998 | the sum over no clients is the identity, and a client more adds what its entry opens to |
| `Xzh26.DecryptTotals` | experiments/xzh26/frontend/OtBinMain.cpp:1005-1218 | an element is marked exactly when what was received for it opens to the identity in sum |
| `Xzh26.CommonOpens` | experiments/xzh26/frontend/OtBinMain.cpp:466-619 | for an element all clients hold, everything received opens to the identity |
| `Xzh26.Run` | experiments/xzh26/frontend/OtBinMain.cpp:343-1218 | end to end: it completes exactly when the leader's set can be hashed and every client completes; set cells of the filter then open to the identity and clear ones are the drawn points; an element is marked exactly when what was received for it sums to the identity, for one client exactly when it opens to the identity; every element of the leader all clients hold is marked, for all draws |
| `Xzh26.CompletesIff` | experiments/xzh26/frontend/OtBinMain.cpp:593-940 | a client completes exactly when its set can be hashed and, in both transfers, every search of its bins works |
| `Xzh26.HandedMeans` | experiments/xzh26/frontend/OtBinMain.cpp:593-940 | a client's tests open to the sums of their elements' cells, and the leader has the test of every element both hold |
| `Xzh26.ReadPerClient` | experiments/xzh26/frontend/OtBinMain.cpp:731-937 | for every element of the leader, held by the client or not, both components are what the leader's unblinded value reads in the client's table |
| `Xzh26.MarkedMeans` | experiments/xzh26/frontend/OtBinMain.cpp:1005-1218 | marked exactly when the sum is the identity; for a single client exactly when what it handed over opens to the identity |
| `Combinations.GetCombinations` | experiments/yyh26/frontend/OtBinMain.cpp:247-282 | terminates and lists every strictly increasing list of length k over 0..n-1 exactly once, in lexicographic order |
| `Combinations.NothingBetween` | experiments/yyh26/frontend/OtBinMain.cpp:266-280 | no list lies between one list and the next the loop makes |
| `Moduli.PrimeModuli` | experiments/yyh26/frontend/OtBinMain.cpp:508-508 | the four moduli are primes between 0xFF000000 and 2^32 |
| `Lanes.LaneRoundTrip` | experiments/yyh26/frontend/OtBinMain.cpp:61-72 | four values below 2^32 come back from the lanes of one word |
| `Lanes.LaneWord` | experiments/yyh26/frontend/OtBinMain.cpp:61-72 | the same on 128-bit words, with shifts, or and masks |
| `Lanes.Pack` | experiments/yyh26/frontend/OtBinMain.cpp:1230-1242 | or-ing shifted lanes one by one gives a word with exactly these lanes |
| `Lanes.LanePlaces` | experiments/yyh26/frontend/OtBinMain.cpp:61-72 | lane 0 is the highest 32 bits of the word, lane 3 the lowest |
| `Shamir.ShareSecret` | experiments/yyh26/frontend/OtBinMain.cpp:75-103 | the shares of any threshold parties lie on a polynomial with no more coefficients than shares and the secret as constant term, modulo p |
| `Shamir.GenerateUpdateValues` | experiments/yyh26/frontend/OtBinMain.cpp:105-127 | the updates of any threshold parties lie on such a polynomial with constant term 0 |
| `Shamir.DealtDetermines` | experiments/yyh26/frontend/OtBinMain.cpp:75-201 | modulo a prime the shares of enough different parties fit exactly one residue, the secret's |
| `Shamir.FewerFitEverySecret` | experiments/yyh26/frontend/OtBinMain.cpp:75-103 | one share fewer is consistent with every secret |
| `Shamir.InterpolationUnique` | experiments/yyh26/frontend/OtBinMain.cpp:158-201 | modulo a prime, every polynomial with no more coefficients than distinct points agrees with the interpolant everywhere |
| `Shamir.Inverses` | experiments/yyh26/frontend/OtBinMain.cpp:174-185 | all denominators are invertible when the modulus is prime and the points differ |
| `Shamir.LagrangeInterpolation` | experiments/yyh26/frontend/OtBinMain.cpp:158-201 | returns the constant term of every polynomial through the points with no more coefficients than points; always returns for distinct points modulo a prime |
| `Shamir.FitsIff` | experiments/yyh26/frontend/OtBinMain.cpp:158-201 | a secret fits points exactly when every polynomial through them with no more coefficients than points has it as constant term modulo the prime |
| `Shamir.RefreshFits` | experiments/yyh26/frontend/OtBinMain.cpp:75-127 | shares plus any sum of zero-constant updates still determine the secret |
| `OleRefresh.OleWithLeader` | experiments/yyh26/frontend/OtBinMain.cpp:1296-1329 | a client's evaluation with the leader gives a x + (update - offset) in every lane |
| `OleRefresh.OleWithClient` | experiments/yyh26/frontend/OtBinMain.cpp:1524-1554 | an evaluation with another client gives -a x + offset in every lane |
| `OleRefresh.TermsInFull` | experiments/yyh26/frontend/OtBinMain.cpp:1296-1554 | the leader's term is a x + update - offset, the receiving client's offset - a x, with factor and offset reduced modulo the lane's prime |
| `OleRefresh.SumsGrow` | experiments/yyh26/frontend/OtBinMain.cpp:1701-1850 | all three sums start at 0 and grow by one client's term |
| `OleRefresh.LeaderHalf` | experiments/yyh26/frontend/OtBinMain.cpp:1701-1769 | the leader's lane-wise sum over all clients is its half of the refresh |
| `OleRefresh.ClientHalf` | experiments/yyh26/frontend/OtBinMain.cpp:1804-1850 | the client's own term and its lane-wise sum over the other clients is its half |
| `OleRefresh.UpdateTotal` | experiments/yyh26/frontend/OtBinMain.cpp:966-978 | the sum of all clients' updates for one party, in every lane |
| `OleRefresh.MasksCancel` | experiments/yyh26/frontend/OtBinMain.cpp:1296-1850 | the two halves add up to the sum of all updates: every factor and offset cancels, per modulus, slot and bin |
| `OleLayout.OffsetInjective` | experiments/yyh26/frontend/OtBinMain.cpp:1096-1124 | no two cells share a place |
| `OleLayout.OffsetFollows` | experiments/yyh26/frontend/OtBinMain.cpp:1096-1124 | places follow the loops: the next slot, bin or party goes on where the one before ended, from place 0 |
| `OleLayout.Cursor.Next` | experiments/yyh26/frontend/OtBinMain.cpp:1114-1121 | the row and column cursor hands out the places row by row, each once |
| `OleLayout.Scatter` | experiments/yyh26/frontend/OtBinMain.cpp:1096-1124 | the writing loops put the value of every party, bin and slot into its place |
| `OleLayout.Gather` | experiments/yyh26/frontend/OtBinMain.cpp:1718-1744 | the reading loops take every cell from the place it was written to |
| `OleLayout.RowsSuffice` | experiments/yyh26/frontend/OtBinMain.cpp:1035-1037 | the rounded-up number of rows has a place for every cell and less than one row to spare |
| `OleLayout.BatchedOle` | experiments/yyh26/frontend/OtBinMain.cpp:1096-1744 | a batch gives every party, bin and slot the evaluation of its own factor, input and summand |
| `OleBatches.LeaderEvaluations` | experiments/yyh26/frontend/OtBinMain.cpp:1096-1329 | one client's batch with the leader, lane by lane: every cell holds a x + (update - offset) of its party, bin and slot |
| `OleBatches.ClientEvaluations` | experiments/yyh26/frontend/OtBinMain.cpp:1485-1554 | one client's batch with another: every cell holds -a x + offset of its bin and slot |
| `OleBatches.BatchesCancel` | experiments/yyh26/frontend/OtBinMain.cpp:1296-1850 | at a cell where both sides entered the same element the results of all batches add up to the sum of all updates |
| `RefreshDelivery.MaskRoundTrip` | experiments/yyh26/libOPRF/OPPRF/OPPRFSender.cpp:1081-1086 | a value programmed as OPRF value plus payload modulo m decodes to the payload |
| `RefreshDelivery.ProgramShare` | experiments/yyh26/libOPRF/OPPRF/OPPRFSender.cpp:1063-1097 | what the leader unmasks is share plus half reduced, in every lane, and the slot number |
| `RefreshDelivery.IndexDelivered` | experiments/yyh26/libOPRF/OPPRF/OPPRFSender.cpp:1285-1289 | the slot number survives the shift, the or, the exclusive or with the OPRF value on both sides and the final mask with 0x3F |
| `Bits.XorBits` | experiments/yyh26/libOPRF/OPPRF/OPPRFSender.cpp:1285-1289 | a bit is set after the exclusive or exactly when it is set in just one of the words |
| `RefreshDelivery.IndexWord` | experiments/yyh26/libOPRF/OPPRF/OPPRFSender.cpp:1285-1289 | the same on 128-bit words |
| `RefreshDelivery.ServeShare` | experiments/yyh26/libOPRF/OPPRF/OPPRFSender.cpp:1063-1097 | what a client programs for an element serves the leader: in every lane OPRF value, share and the client's half for the slot together, reduced, and the slot number behind the OPRF value |
| `RefreshDelivery.CollectShare` | experiments/yyh26/frontend/OtBinMain.cpp:2166-2198 | the leader's word is, lane by lane, its half for the slot number it received plus what it unmasked |
| `RefreshDelivery.ServedRefreshes` | experiments/yyh26/frontend/OtBinMain.cpp:1296-2198 | one refreshed share: from what serves it, the leader ends up with the old share plus the sum of all updates, in every lane |
| `BlockRows.BlockMaskBits` | experiments/yyh26/libOPRF/Hashing/BitPosition.cpp:99-113 | bit k of a mask is the OPRF value's bit at position k |
| `BlockRows.MakeRow` | experiments/yyh26/libOPRF/OPPRF/OPPRFSender.cpp:845-895 | the row of a bin: every value's entry at its mask, zero blocks elsewhere, every slot index in range |
| `ShareTables.HashSet` | experiments/yyh26/frontend/OtBinMain.cpp:638-648 | a party's hashing goes through exactly when its set has the agreed size and nothing is left over; every item's cuckoo bin and all simple bins are then the specified ones |
| `ShareTables.BinNumbers` | experiments/yyh26/frontend/OtBinMain.cpp:2167-2172 | going through the cuckoo bins finds the one bin of every item |
| `ShareTables.SlotOf` | experiments/yyh26/libOPRF/OPPRF/binSet.cpp:51-252 | a common element is in the sender's simple bin of the number of the receiver's cuckoo bin |
| `ShareTables.FewItems` | experiments/yyh26/libOPRF/OPPRF/OPPRFSender.cpp:816-817 | a bin whose search ended has at most as many items as its row has slots |
| `ShareTables.SendRows` | experiments/yyh26/libOPRF/OPPRF/OPPRFSender.cpp:761-949 | with the OPRF value of an item of a bin one reads that item's entry in the bin's row, for all bins |
| `ShareDelivery.DeliverValues` | experiments/yyh26/libOPRF/OPPRF/OPPRFReceiver.cpp:740-868 | one share table from rows to values: the receiver decodes the sender's value for every element both hold, and for every other element what its value reads in the sender's bin |
| `ShareDelivery.ReadIsEntered` | experiments/yyh26/libOPRF/OPPRF/OPPRFReceiver.cpp:829-839 | the leader reads in all five tables exactly what the client entered for the element |
| `ShareDelivery.ServeBins` | experiments/yyh26/libOPRF/OPPRF/OPPRFSender.cpp:973-1395 | all of a client's rows: read with an element the client has, in a bin where it has it, they serve the leader; read with any value they yield the entry with the same mask, or zero |
| `Reconstruction.Reconstruct` | experiments/yyh26/frontend/OtBinMain.cpp:203-245 | succeeds exactly when, modulo each of the four primes, every polynomial through the selected shares with no more coefficients than shares has the element as constant term |
| `Reconstruction.FitsAllIff` | experiments/yyh26/frontend/OtBinMain.cpp:203-245 | selected shares fit an element exactly when that holds in all four lanes |
| `Reconstruction.OneElementFits` | experiments/yyh26/frontend/OtBinMain.cpp:203-245 | two elements the same shares fit are congruent modulo the product of the four primes, and equal below it |
| `Reconstruction.RefreshedFits` | experiments/yyh26/frontend/OtBinMain.cpp:75-245 | any threshold refreshed shares of one sharing lie on such a polynomial, for all coefficients |
| `Reconstruction.FourModuli` | experiments/yyh26/frontend/OtBinMain.cpp:508-508 | the moduli meet what reconstruction needs |
| `Yyh26.ShareLanes` | experiments/yyh26/frontend/OtBinMain.cpp:598-623 | modulo each of the four primes any threshold shares of the element lie on a polynomial with the element as constant term |
| `Yyh26.ClientWord` | experiments/yyh26/frontend/OtBinMain.cpp:2166-2198 | the leader's word for a client is whatever it reads with its own half added; if the rows serve the element it is the client's refreshed share |
| `Yyh26.LeaderWord` | experiments/yyh26/frontend/OtBinMain.cpp:966-1012 | the leader's own word is its share plus all updates for it |
| `Yyh26.GoodWordIff` | experiments/yyh26/frontend/OtBinMain.cpp:966-2198 | a refreshed share is, in every lane, the value of the sharing polynomial at the party's point plus all clients' updates for it |
| `Yyh26.Selections` | experiments/yyh26/frontend/OtBinMain.cpp:2241-2248 | the list of selections is exactly the increasing lists of threshold - 1 clients followed by the leader |
| `Yyh26.ReconstructsIff` | experiments/yyh26/frontend/OtBinMain.cpp:2241-2262 | some selection reconstructs an element exactly when increasingly numbered clients, threshold - 1 of them, and the leader have shares that fit it |
| `Yyh26.Decide` | experiments/yyh26/frontend/OtBinMain.cpp:2249-2262 | an element is marked exactly when some selection reconstructs it |
| `Yyh26.EnoughHolders` | experiments/yyh26/frontend/OtBinMain.cpp:2221-2262 | an element held by threshold - 1 clients is reconstructed by some selection, for all draws |
| `Yyh26Run.ClientPart` | experiments/yyh26/frontend/OtBinMain.cpp:683-2148 | one client's whole part, both tables included: for every element the client holds its rows serve the leader with the client's share |
| `Yyh26Run.Run` | experiments/yyh26/frontend/OtBinMain.cpp:560-2262 | end to end, from hashing over both tables to the decision: it completes exactly when every party's set has the agreed size and can be hashed; the result marks exactly the elements whose collected words some selection reconstructs, the words of holders are their refreshed shares, all other words are what the leader's values read in the clients' tables, and every element held by threshold - 1 clients is marked |
| `Yyh26Run.HoldersWord` | experiments/yyh26/frontend/OtBinMain.cpp:560-2262 | the word of a holder and of the leader in a run, lane by lane: the sharing polynomial's value at the party's point plus all updates |
| `Yyh26Outcome.WordLanes` | experiments/yyh26/frontend/OtBinMain.cpp:2166-2198 | the word of any client, holder or not: in every lane the leader's half for the slot number read plus what is read, less the leader's OPRF value |
| `Yyh26Outcome.ShareRead` | experiments/yyh26/libOPRF/OPPRF/OPPRFSender.cpp:1063-1097 | what is read in a share table where the client's item in some slot has the same mask: that item's OPRF value, share and half for its slot together |
| `Yyh26Outcome.IndexRead` | experiments/yyh26/libOPRF/OPPRF/OPPRFSender.cpp:1285-1289 | in the index table: that item's OPRF value with the slot number in the low bits |
| `Yyh26Outcome.NothingRead` | experiments/yyh26/libOPRF/OPPRF/OPPRFSender.cpp:845-895 | where no item of the bin has the same mask, 0 is read |
| `Yyh26Outcome.ReceivedIs` | experiments/yyh26/libOPRF/OPPRF/OPPRFReceiver.cpp:740-868 | what a client has for any item of its own in any lane: its value read in the leader's simple bin of the number of the item's cuckoo bin |
| `Yyh26Outcome.ValueIs` | experiments/yyh26/libOPRF/OPPRF/OPPRFReceiver.cpp:740-868 | such a reading: the OPRF value and share of the leader's element with the same mask less the reader's OPRF value, or minus the reader's OPRF value if there is none |

## Left out

- Beh21.Run: requires a modulus above 128 and above both bounds, so that the leader can encrypt what it compares with; filters agree on size, seeds and hash, as they do for equal set sizes.
- FusionCorrectness.FuseCorrect: is about keys with fewer parties than either prime factor of N; `FusionCorrectness.TooManyParties` settles all others.
- BitPositions.BitPosition.GetPos1: random words come from a finite stream and the end of the stream is a result, so that a random stream makes the search end almost surely is not captured.
- OpprfTransfer.DecodeRow: the source reads the slot for any mask; the model requires rows of the agreed length, which the size check of the source enforces.
- CuckooHashing.CuckooHasher.InsertBatch: hash values are arbitrary but fixed per item; the AES and block hashing behind them are not modelled, and a word holds index and hash number as integers below 2^56 and 255.
- BinSets.BinSet.Hashing2Bins: one thread; the strided worker loops and their futures are sequential here.
- HashParameters.TableFits: bin counts use exact rational scalers where the source multiplies doubles.
- BloomFilters.BloomFilter.Add: the hash is an arbitrary function of element and seed, not MurmurHash; the parameter formula with logarithms is not modelled.
- ElGamal.PartialDecrypt: libsodium reports an identity result as an error and the source ignores the report; the model takes the identity as the 32 zero bytes.
- Xzh26.Run: requires that the elements of one client hash to different points and that scalars are not 0 modulo the order; hashing to a point is an arbitrary function. That a marked element is really held by all clients depends on chance and is not claimed.
- Xzh26.EncryptFilter: points drawn for clear bits are arbitrary valid points.
- Yyh26Run.Run: the positions behind every table row are given, with what any search of the source that ends has found: as many as asked for, separating the bin's OPRF values. Rows are handed over bin by bin; their batches of sixteen are those of `Opprf.SendTable`. Each client is followed through all its tables before the next.
- Yyh26Run.Run: elements are below 2^32, as the generated sets of the source are; the source shifts them into 32-bit lanes. That an element held by too few clients is not marked depends on chance and is not claimed.
- OleRefresh.OleWithLeader: oblivious linear evaluation is a x + b modulo the lane's prime; the homomorphic encryption behind it is not modelled.
- OleBatches.LeaderEvaluations: `OleRefresh.LeaderHalf` and `OleRefresh.ClientHalf` evaluate cell by cell; that the batches give the same terms is proved, but the run does not build the batches.
- Lanes.Pack: words are integers with lanes by division; `Lanes.LaneWord` proves the shifts and masks on 128-bit words.
- The position search of YYH26 (yyh26/libOPRF/Hashing/BitPosition.cpp): it differs from that of XZH26. It draws random positions instead of scanning, loops until one sets the third point apart, so three points never end with equal masks, goes through the loop for many points again for one and two, and takes candidates from pairwise differences. Only what every search that ends has found is used.
- The second copy of the cuckoo hasher in YYH26: the same algorithm.
- Sockets, serialisation, TLS, timers, logging, threads, the web console, clients, benchmark frontends and configuration: input and output only.
- Prime generation, random generators, MurmurHash, AES, libsodium, BFV and oblivious transfer: arbitrary functions, parameters or the abstract group.
- The Diffie-Hellman intersection and the service-side engines.
- Secrecy, quality of randomness, false-positive rates and soundness up to small probability.
