/**
 KS05 threshold PSI: the members multiply their set polynomials onto the leader's encrypted
 polynomial round a ring, differentiate, blind and return it; the leader sums, jointly decrypts
 and keeps its inputs at which the sum vanishes.
 */
module Ks05 {
  import opened NumberTheory
  import opened Polynomials
  import opened PolynomialStruct
  import opened Paillier
  import opened PaillierPolynomials
  import opened FusionCorrectness
  import opened Selection

  // Sizes all parties agree on: n parties, threshold t, set sizes of the leader and of each member.
  datatype Setup = Setup(n: nat, t: nat, recvSize: nat, sendSize: nat) {
    predicate Valid() {
      2 <= t <= n && recvSize >= 1 && sendSize >= 1
    }

    function DegreeOriginal(): nat
      requires Valid()
    {
      recvSize + (n - 1) * sendSize
    }

    // At least n - t + 1, so the subtraction in the source does not wrap.
    function DegreeDerivative(): nat
      requires Valid()
    {
      DegreeBound();
      DegreeOriginal() - (t - 1)
    }

    lemma {:induction false} DegreeBound()
      requires Valid()
      ensures DegreeOriginal() - (t - 1) >= sendSize && DegreeOriginal() >= n
    {
      RingDegree(n - 1, sendSize);
    }

    function CoeffsAfterAggregation(id: nat): nat {
      recvSize + (id + 1) * sendSize + 1
    }

    function CoeffsAfterBlinding(): nat
      requires Valid()
    {
      Max(2 * DegreeOriginal(), 3 * DegreeDerivative()) + 1
    }
  }

  lemma {:induction false} RingDegree(k: nat, s: nat)
    requires k >= 1 && s >= 1
    ensures k * s >= k && k * s >= s && k * s - s >= k - 1
  {
    assert k * s - s == (k - 1) * s;
    assert (k - 1) * s >= k - 1;
  }

  predicate AllRootsOf(roots: seq<int>, inputs: seq<nat>, n: nat)
    requires n > 0
  {
    |roots| == |inputs| && forall i :: 0 <= i < |inputs| ==> roots[i] == inputs[i] % n
  }

  // Inputs reduced modulo n, as both parties encode them.
  method ReduceInputs(inputs: seq<nat>, n: nat) returns (roots: seq<int>)
    requires n > 0
    ensures AllRootsOf(roots, inputs, n)
  {
    roots := [];
    for i := 0 to |inputs|
      invariant |roots| == i && forall k :: 0 <= k < i ==> roots[k] == inputs[k] % n
    {
      roots := roots + [inputs[i] % n];
    }
  }

  // What a party keeps after steps 1 and 2: its polynomial and its precomputed E(0)'s.
  datatype Member = Member(id: nat, inputs: seq<nat>, poly: seq<int>, zeros: seq<nat>) {
    ghost predicate Valid(pk: PubKey, s: Setup)
    {
      && s.Valid() && pk.n > 1 && id < s.n - 1 && |inputs| == s.sendSize
      && EncodesSet(poly, inputs, pk.n)
      && |zeros| == s.CoeffsAfterAggregation(id) + s.CoeffsAfterBlinding()
      && forall i :: 0 <= i < |zeros| ==> Encrypts(zeros[i], 0, pk.n)
    }
  }

  ghost predicate EncodesSet(poly: seq<int>, inputs: seq<nat>, n: nat)
    requires n > 0
  {
    && |poly| == |inputs| + 1 && Residues(poly, n)
    && exists roots :: AllRootsOf(roots, inputs, n) && Similar(poly, FromRoots(roots), n)
  }

  /** The encoding of a set evaluates, everywhere, to the product of the differences to its elements. */
  lemma {:induction false} EncodingOfSet(poly: seq<int>, inputs: seq<nat>, n: nat, y: int)
    requires n > 0 && EncodesSet(poly, inputs, n)
    ensures Cong(Eval(poly, y), RootProduct(inputs, y), n)
  {
    var roots :| AllRootsOf(roots, inputs, n) && Similar(poly, FromRoots(roots), n);
    EncodingEvaluates(poly, roots, y, n);
    ReducedRoots(roots, inputs, y, n);
  }

  lemma {:induction false} ReducedRoots(roots: seq<int>, inputs: seq<nat>, y: int, n: nat)
    requires n > 0 && AllRootsOf(roots, inputs, n)
    ensures Cong(RootProduct(roots, y), RootProduct(inputs, y), n)
  {
    if |roots| > 0 {
      var k := |roots| - 1;
      ReducedRoots(roots[..k], inputs[..k], y, n);
      CongMod(inputs[k], n);
      CongAdd(y, y, roots[k], inputs[k], n);
      CongMul(RootProduct(roots[..k], y), RootProduct(inputs[..k], y), y - roots[k], y - inputs[k], n);
    }
  }

  method PrepareMember(id: nat, inputs: seq<nat>, pk: PubKey, s: Setup, draws: seq<nat>) returns (m: Member)
    requires PublicKeyShape(pk) && s.Valid() && id < s.n - 1 && |inputs| == s.sendSize
    requires |draws| == s.CoeffsAfterAggregation(id) + s.CoeffsAfterBlinding() && AllDraws(draws, pk.n)
    ensures m.Valid(pk, s) && m.id == id && m.inputs == inputs
    ensures |m.poly| == |inputs| + 1 && forall y :: Cong(Eval(m.poly, y), RootProduct(inputs, y), pk.n)
    ensures |m.zeros| == |draws| && forall i :: 0 <= i < |draws| ==> Enc(0, pk, draws[i]) == Ok(m.zeros[i])
  {
    var roots := ReduceInputs(inputs, pk.n);
    var poly := EncodeAsPolynomial(roots, pk.n);
    var zeros: seq<nat> := [];
    for i := 0 to |draws|
      invariant |zeros| == i && forall k :: 0 <= k < i ==> Encrypts(zeros[k], 0, pk.n) && Enc(0, pk, draws[k]) == Ok(zeros[k])
    {
      EncCorrect(0, pk, draws[i]);
      zeros := zeros + [Enc(0, pk, draws[i]).value];
    }
    m := Member(id, inputs, poly, zeros);
    forall y
      ensures Cong(Eval(m.poly, y), RootProduct(inputs, y), pk.n)
    {
      EncodingOfSet(m.poly, inputs, pk.n, y);
    }
  }

  // ---------------------------------------------------------------- ring aggregation

  // Has result coefficient k received a term after i full rounds and j steps of round i?
  predicate Touched(k: int, i: int, j: int, width: int) {
    (i >= 1 && k < i - 1 + width) || i <= k < i + j
  }

  // The randomness coefficient k collects from the first n received ones: that of each, to the power of the
  // factor it is multiplied with.
  function Collected(xs: seq<int>, poly: seq<int>, k: int, n: nat): int
    requires n <= |xs|
  {
    if n == 0 then 1 else Collected(xs, poly, k, n - 1) * Powered(xs[n - 1], poly, k - (n - 1), |poly|)
  }

  // x to factor number l, if it is among the first j.
  function Powered(x: int, poly: seq<int>, l: int, j: nat): int
    requires j <= |poly|
  {
    if 0 <= l < j && poly[l] >= 0 then Pow(x, poly[l]) else 1
  }

  // The randomness of coefficient k after i full rounds and j steps of round i; what was sent carries its zero's.
  function Noise(xs: seq<int>, zs: seq<int>, poly: seq<int>, k: nat, i: nat, j: nat, sentTo: nat): int
    requires i < |xs| && j <= |poly| && sentTo <= |zs|
  {
    Collected(xs, poly, k, i) * Powered(xs[i], poly, k - i, j) * (if k < sentTo then zs[k] else 1)
  }

  // Coefficient k holds the terms received so far; 0 marks a coefficient without terms.
  ghost predicate Accumulated(c: nat, ms: seq<int>, noise: int, poly: seq<int>, k: nat, i: nat, j: nat, n: nat)
    requires i < |ms|
  {
    if Touched(k, i, j, |poly|) then EncryptsWith(c, ConvPart(ms, poly, k, i, j), noise, n)
    else c == 0 && noise == 1
  }

  // All coefficients.
  ghost predicate AllAccumulated(result: seq<nat>, ms: seq<int>, xs: seq<int>, zs: seq<int>, poly: seq<int>, i: nat, j: nat,
                                 sentTo: nat, n: nat)
  {
    && i < |ms| == |xs| && 1 <= |poly| && j <= |poly| && sentTo <= |result| == |ms| + |poly| - 1 <= |zs|
    && forall k :: 0 <= k < |result| ==> Accumulated(result[k], ms, Noise(xs, zs, poly, k, i, j, sentTo), poly, k, i, j, n)
  }

  // Messages and randomness of ciphertexts.
  ghost predicate EncryptsAllWith(cs: seq<nat>, ms: seq<int>, xs: seq<int>, n: nat) {
    |cs| == |ms| == |xs| && forall i :: 0 <= i < |cs| ==> EncryptsWith(cs[i], ms[i], xs[i], n)
  }

  ghost predicate ZerosWith(zeros: seq<nat>, zs: seq<int>, n: nat) {
    |zs| == |zeros| && forall i :: 0 <= i < |zeros| ==> EncryptsWith(zeros[i], 0, zs[i], n)
  }

  lemma {:induction false} UntouchedIsZero(ms: seq<int>, poly: seq<int>, k: nat, i: nat, j: nat)
    requires i < |ms| && !Touched(k, i, j, |poly|) && |poly| > 0
    ensures ConvPart(ms, poly, k, i, j) == 0
  {
    if i == 0 {
    } else {
      ConvSumBeyond(ms, poly, k, i);
    }
  }

  // Every vector of ciphertexts has some randomness.
  lemma {:induction false} SomeRandomness(cs: seq<nat>, ms: seq<int>, n: nat) returns (xs: seq<int>)
    requires EncryptsAll(cs, ms, n)
    ensures EncryptsAllWith(cs, ms, xs, n)
  {
    if |cs| == 0 {
      xs := [];
    } else {
      var k := |cs| - 1;
      var front := SomeRandomness(cs[..k], ms[..k], n);
      assert Encrypts(cs[k], ms[k], n);
      var x :| EncryptsWith(cs[k], ms[k], x, n);
      xs := front + [x];
    }
  }

  // The first term overwrites the 0 marker, later terms are added homomorphically.
  method AddTerm(c: nat, term: nat, pk: PubKey, ghost m: int, ghost x: int, ghost t: int, ghost y: int) returns (c': nat)
    requires PublicKeyShape(pk) && EncryptsWith(term, t, y, pk.n)
    requires (c == 0 && m == 0 && x == 1) || EncryptsWith(c, m, x, pk.n)
    ensures EncryptsWith(c', m + t, x * y, pk.n)
  {
    if c == 0 {
      c' := term;
    } else {
      AddWith(c, m, x, term, t, y, pk);
      c' := Add(c, term, pk).value;
    }
  }

  /** Step 3, pipelined: coefficient k is re-randomized and sent in the round that brings its last
      term. The sent stream is the final coefficient vector, in index order, and encrypts the
      product of the received polynomial and the member's own; its randomness is the received one to the powers
      of the own coefficients, times that of the zero used for it. */
  method Aggregate(received: seq<nat>, poly: seq<int>, zeros: seq<nat>, pk: PubKey, ghost ms: seq<int>, ghost xs: seq<int>, ghost zs: seq<int>)
    returns (sent: seq<nat>, result: seq<nat>)
    requires PublicKeyShape(pk) && EncryptsAllWith(received, ms, xs, pk.n) && |received| >= 1
    requires |poly| >= 1 && Residues(poly, pk.n)
    requires |zeros| >= |received| + |poly| - 1 && ZerosWith(zeros, zs, pk.n)
    ensures sent == result && EncryptsAll(sent, Product(ms, poly), pk.n)
    ensures |sent| == |received| + |poly| - 1 && forall k :: 0 <= k < |sent| ==>
      EncryptsWith(sent[k], Product(ms, poly)[k], Collected(xs, poly, k, |xs|) * zs[k], pk.n)
  {
    var n := pk.n;
    var myDegree := |poly| - 1;
    var resultDegree := |received| - 1 + myDegree;
    result := seq(resultDegree + 1, _ => 0);
    sent := [];
    var recvIdx := 0;
    while recvIdx < |received|
      invariant 0 <= recvIdx <= |received| && |result| == resultDegree + 1
      invariant recvIdx < |received| ==> AllAccumulated(result, ms, xs, zs, poly, recvIdx, 0, recvIdx, n)
      invariant recvIdx == |received| ==> Completed(result, ms, xs, zs, poly, n)
      invariant |sent| == (if recvIdx < |received| then recvIdx else |result|)
      invariant sent == result[..|sent|]
    {
      result := AddRound(result, received[recvIdx], recvIdx, poly, pk, ms, xs, zs);
      sent, result := SendRound(sent, result, recvIdx, |received|, zeros, pk, ms, xs, zs, poly);
      recvIdx := recvIdx + 1;
    }
    assert result[..|sent|] == result;
    CompletedProduct(result, ms, xs, zs, poly, n);
  }

  // The vector after the last round.
  ghost predicate Completed(result: seq<nat>, ms: seq<int>, xs: seq<int>, zs: seq<int>, poly: seq<int>, n: nat) {
    && 1 <= |ms| == |xs| && 1 <= |poly| && |result| == |ms| + |poly| - 1 <= |zs|
    && forall k :: 0 <= k < |result| ==> EncryptsWith(result[k], ConvSum(ms, poly, k, |ms|), Collected(xs, poly, k, |xs|) * zs[k], n)
  }

  lemma {:induction false} CompletedProduct(result: seq<nat>, ms: seq<int>, xs: seq<int>, zs: seq<int>, poly: seq<int>, n: nat)
    requires Completed(result, ms, xs, zs, poly, n)
    ensures EncryptsAll(result, Product(ms, poly), n)
    ensures forall k :: 0 <= k < |result| ==> EncryptsWith(result[k], Product(ms, poly)[k], Collected(xs, poly, k, |xs|) * zs[k], n)
  {
  }

  // One step of a round changes the randomness of one coefficient.
  lemma {:induction false} NoiseStep(xs: seq<int>, zs: seq<int>, poly: seq<int>, k: nat, i: nat, j: nat, sentTo: nat)
    requires i < |xs| && j < |poly| && sentTo <= i && sentTo <= |zs| && poly[j] >= 0
    ensures Noise(xs, zs, poly, k, i, j + 1, sentTo)
         == if k == i + j then Noise(xs, zs, poly, k, i, j, sentTo) * Pow(xs[i], poly[j]) else Noise(xs, zs, poly, k, i, j, sentTo)
  {
  }

  // The terms of one received coefficient.
  method AddRound(result0: seq<nat>, recvCoeff: nat, recvIdx: nat, poly: seq<int>, pk: PubKey,
                  ghost ms: seq<int>, ghost xs: seq<int>, ghost zs: seq<int>)
    returns (result: seq<nat>)
    requires PublicKeyShape(pk) && Residues(poly, pk.n)
    requires AllAccumulated(result0, ms, xs, zs, poly, recvIdx, 0, recvIdx, pk.n) && EncryptsWith(recvCoeff, ms[recvIdx], xs[recvIdx], pk.n)
    ensures |result| == |result0| && result[..recvIdx] == result0[..recvIdx]
    ensures AllAccumulated(result, ms, xs, zs, poly, recvIdx, |poly|, recvIdx, pk.n)
  {
    result := result0;
    var j := 0;
    while j <= |poly| - 1 && recvIdx + j <= |result0| - 1
      invariant 0 <= j <= |poly| && |result| == |result0| && result[..recvIdx] == result0[..recvIdx]
      invariant AllAccumulated(result, ms, xs, zs, poly, recvIdx, j, recvIdx, pk.n)
    {
      var idx := recvIdx + j;
      MulWith(recvCoeff, ms[recvIdx], xs[recvIdx], poly[j], pk);
      var term := Mul(recvCoeff, poly[j], pk).value;
      ghost var noise := Noise(xs, zs, poly, idx, recvIdx, j, recvIdx);
      assert Accumulated(result[idx], ms, noise, poly, idx, recvIdx, j, pk.n);
      if !Touched(idx, recvIdx, j, |poly|) { UntouchedIsZero(ms, poly, idx, recvIdx, j); }
      var c := AddTerm(result[idx], term, pk, ConvPart(ms, poly, idx, recvIdx, j), noise, ms[recvIdx] * poly[j], Pow(xs[recvIdx], poly[j]));
      TermAdded(result, ms, xs, zs, poly, recvIdx, j, c, pk.n);
      result := result[idx := c];
      j := j + 1;
    }
  }

  lemma {:induction false} TermAdded(result: seq<nat>, ms: seq<int>, xs: seq<int>, zs: seq<int>, poly: seq<int>, i: nat, j: nat, c: nat, n: nat)
    requires AllAccumulated(result, ms, xs, zs, poly, i, j, i, n) && j < |poly| && poly[j] >= 0
    requires EncryptsWith(c, ConvPart(ms, poly, i + j, i, j) + ms[i] * poly[j], Noise(xs, zs, poly, i + j, i, j, i) * Pow(xs[i], poly[j]), n)
    ensures AllAccumulated(result[i + j := c], ms, xs, zs, poly, i, j + 1, i, n)
  {
    var result' := result[i + j := c];
    forall k | 0 <= k < |result|
      ensures Accumulated(result'[k], ms, Noise(xs, zs, poly, k, i, j + 1, i), poly, k, i, j + 1, n)
    {
      NoiseStep(xs, zs, poly, k, i, j, i);
      assert Accumulated(result[k], ms, Noise(xs, zs, poly, k, i, j, i), poly, k, i, j, n);
    }
  }

  // Coefficient k is complete once the round min(k, numRecv - 1) is over.
  method SendRound(sent0: seq<nat>, result0: seq<nat>, recvIdx: nat, numRecv: nat, zeros: seq<nat>, pk: PubKey,
                   ghost ms: seq<int>, ghost xs: seq<int>, ghost zs: seq<int>, ghost poly: seq<int>)
    returns (sent: seq<nat>, result: seq<nat>)
    requires PublicKeyShape(pk) && recvIdx < numRecv == |ms| && ZerosWith(zeros, zs, pk.n)
    requires AllAccumulated(result0, ms, xs, zs, poly, recvIdx, |poly|, recvIdx, pk.n)
    requires |sent0| == recvIdx && sent0 == result0[..recvIdx]
    ensures |result| == |result0| && |sent| == if recvIdx < numRecv - 1 then recvIdx + 1 else |result|
    ensures sent == result[..|sent|]
    ensures if recvIdx < numRecv - 1 then AllAccumulated(result, ms, xs, zs, poly, recvIdx + 1, 0, recvIdx + 1, pk.n)
            else Completed(result, ms, xs, zs, poly, pk.n)
  {
    sent, result := sent0, result0;
    var k := 0;
    while k < |result|
      invariant 0 <= k <= |result| == |result0|
      invariant |sent| == (if k <= recvIdx then recvIdx else if recvIdx < numRecv - 1 then recvIdx + 1 else k)
      invariant sent == result[..|sent|]
      invariant AllAccumulated(result, ms, xs, zs, poly, recvIdx, |poly|, |sent|, pk.n)
    {
      var maxRecvIdxNeeded := if k < numRecv - 1 then k else numRecv - 1;
      if recvIdx == maxRecvIdxNeeded {
        assert |sent| == k;
        ghost var noise := Noise(xs, zs, poly, k, recvIdx, |poly|, k);
        assert Accumulated(result[k], ms, noise, poly, k, recvIdx, |poly|, pk.n) && Touched(k, recvIdx, |poly|, |poly|);
        var c := AddTerm(result[k], zeros[k], pk, ConvPart(ms, poly, k, recvIdx, |poly|), noise, 0, zs[k]);
        CoefficientSent(result, ms, xs, zs, poly, recvIdx, k, c, pk.n);
        result := result[k := c];
        sent := sent + [c];
      }
      k := k + 1;
    }
    RoundOver(result, ms, xs, zs, poly, recvIdx, |sent|, pk.n);
  }

  lemma {:induction false} CoefficientSent(result: seq<nat>, ms: seq<int>, xs: seq<int>, zs: seq<int>, poly: seq<int>, i: nat, k: nat, c: nat, n: nat)
    requires AllAccumulated(result, ms, xs, zs, poly, i, |poly|, k, n) && k < |result| && Touched(k, i, |poly|, |poly|)
    requires EncryptsWith(c, ConvPart(ms, poly, k, i, |poly|), Noise(xs, zs, poly, k, i, |poly|, k) * zs[k], n)
    ensures AllAccumulated(result[k := c], ms, xs, zs, poly, i, |poly|, k + 1, n)
  {
    var result' := result[k := c];
    assert Noise(xs, zs, poly, k, i, |poly|, k + 1) == Noise(xs, zs, poly, k, i, |poly|, k) * zs[k];
    forall l | 0 <= l < |result|
      ensures Accumulated(result'[l], ms, Noise(xs, zs, poly, l, i, |poly|, k + 1), poly, l, i, |poly|, n)
    {
      if l != k {
        assert Accumulated(result[l], ms, Noise(xs, zs, poly, l, i, |poly|, k), poly, l, i, |poly|, n);
      }
    }
  }

  // A full round is the beginning of the next, or the end.
  lemma {:induction false} RoundOver(result: seq<nat>, ms: seq<int>, xs: seq<int>, zs: seq<int>, poly: seq<int>, i: nat, sentTo: nat, n: nat)
    requires AllAccumulated(result, ms, xs, zs, poly, i, |poly|, sentTo, n) && sentTo == if i < |ms| - 1 then i + 1 else |result|
    ensures if i < |ms| - 1 then AllAccumulated(result, ms, xs, zs, poly, i + 1, 0, sentTo, n) else Completed(result, ms, xs, zs, poly, n)
  {
    forall k | 0 <= k < |result|
      ensures ConvPart(ms, poly, k, i, |poly|) == ConvSum(ms, poly, k, i + 1)
      ensures Collected(xs, poly, k, i) * Powered(xs[i], poly, k - i, |poly|) == Collected(xs, poly, k, i + 1)
      ensures i < |ms| - 1 ==> Accumulated(result[k], ms, Noise(xs, zs, poly, k, i + 1, 0, sentTo), poly, k, i + 1, 0, n)
      ensures i == |ms| - 1 ==> EncryptsWith(result[k], ConvSum(ms, poly, k, |ms|), Collected(xs, poly, k, |xs|) * zs[k], n)
    {
      assert Accumulated(result[k], ms, Noise(xs, zs, poly, k, i, |poly|, sentTo), poly, k, i, |poly|, n);
    }
  }

  // ---------------------------------------------------------------- blinding

  // Random polynomials r_i, s_i and the padding F; e is the randomness of a possible fresh E(0).
  datatype BlindDraw = BlindDraw(r: seq<int>, s: seq<int>, f: seq<int>, e: nat) {
    ghost predicate Valid(setup: Setup, n: nat)
      requires setup.Valid()
    {
      Sized(setup.DegreeOriginal(), setup.DegreeDerivative(), setup.sendSize, n)
    }

    // For a polynomial and derivative of these degrees and a set of this size.
    ghost predicate Sized(original: nat, derivative: nat, size: nat, n: nat) {
      && |r| == original + 1 && |s| == derivative + 1 && |f| == Max(derivative, size) - size + 1
      && Residues(r, n) && Residues(s, n) && Residues(f, n) && CoprimeDraw(e, n)
    }
  }

  // F * f_i * s_i at y: the factor of the derivative in member i's blinded polynomial.
  function BlindFactor(draw: BlindDraw, poly: seq<int>, y: int): int {
    Eval(draw.f, y) * Eval(poly, y) * Eval(draw.s, y)
  }

  lemma {:induction false} DerivativeLength(cs: seq<int>, k: nat)
    requires k < |cs|
    ensures |DerivativeN(cs, k)| == |cs| - k
  {
    if k > 0 { DerivativeLength(cs, k - 1); }
  }

  // The plaintext factor F * f_i * s_i, reduced modulo n.
  method BlindPolynomial(f: seq<int>, poly: seq<int>, sPoly: seq<int>, n: nat) returns (b: Polynomial)
    requires n > 0
    ensures fresh(b) && Residues(b.coefficients, n)
    ensures |b.coefficients| == |Product(Product(f, poly), sPoly)|
    ensures Similar(b.coefficients, Product(Product(f, poly), sPoly), n)
  {
    b := new Polynomial(f);
    var own := new Polynomial(poly);
    var blinding := new Polynomial(sPoly);
    b.MulPoly(own);
    b.MulPoly(blinding);
    ghost var full := Product(Product(f, poly), sPoly);
    var i := 0;
    while i < |b.coefficients|
      invariant 0 <= i <= |b.coefficients| == |full|
      invariant forall k :: 0 <= k < |full| ==> Cong(b.coefficients[k], full[k], n)
      invariant forall k :: 0 <= k < i ==> 0 <= b.coefficients[k] < n
    {
      CongMod(b.coefficients[i], n);
      b.coefficients := b.coefficients[i := b.coefficients[i] % n];
      i := i + 1;
    }
  }

  lemma {:induction false} TripleEval(f: seq<int>, poly: seq<int>, sPoly: seq<int>, y: int)
    ensures Eval(Product(Product(f, poly), sPoly), y) == Eval(f, y) * Eval(poly, y) * Eval(sPoly, y)
  {
    EvalOfProduct(Product(f, poly), sPoly, y);
    EvalOfProduct(f, poly, y);
  }

  lemma {:induction false} SumOfProducts(a: seq<int>, b: seq<int>, c: seq<int>, d: seq<int>, y: int)
    ensures Eval(Sum(Product(a, b), Product(c, d)), y) == Eval(a, y) * Eval(b, y) + Eval(c, y) * Eval(d, y)
  {
    EvalOfSum(Product(a, b), Product(c, d), y);
    EvalOfProduct(a, b, y);
    EvalOfProduct(c, d, y);
  }

  lemma {:induction false} BlindEval(ps: seq<int>, ds: seq<int>, pb: seq<int>, draw: BlindDraw, poly: seq<int>, y: int, n: nat)
    requires n > 0 && Similar(pb, Product(Product(draw.f, poly), draw.s), n)
    ensures Cong(Eval(Sum(Product(ps, draw.r), Product(ds, pb)), y),
                 Eval(ps, y) * Eval(draw.r, y) + Eval(ds, y) * BlindFactor(draw, poly, y), n)
  {
    SumOfProducts(ps, draw.r, ds, pb, y);
    TripleEval(draw.f, poly, draw.s, y);
    SimilarEval(pb, Product(Product(draw.f, poly), draw.s), y, y, n);
    var x, e, v := Eval(ps, y) * Eval(draw.r, y), Eval(pb, y), BlindFactor(draw, poly, y);
    CongMul(Eval(ds, y), Eval(ds, y), e, v, n);
    CongAdd(x, x, Eval(ds, y) * e, Eval(ds, y) * v, n);
  }

  // The scalars of a repeated derivative stay below n.
  predicate Differentiable(count: nat, times: nat, n: nat) {
    times == 0 || count <= n
  }

  /** Step 5: the (t-1)-th derivative; it fails exactly when a scalar is not below n. */
  method Differentiate(coeffs: seq<nat>, times: nat, pk: PubKey, e: nat, ghost ps: seq<int>)
    returns (ok: bool, derivative: PaillierPolynomial)
    requires PublicKeyShape(pk) && CoprimeDraw(e, pk.n) && EncryptsAll(coeffs, ps, pk.n) && times < |coeffs|
    ensures ok <==> times == 0 || |coeffs| <= pk.n
    ensures fresh(derivative) && derivative.Valid() && derivative.publicKey == pk
    ensures ok ==> derivative.plain == DerivativeN(ps, times) && |derivative.plain| == |ps| - times
    ensures ok ==> EncryptsAll(derivative.coefficients, derivative.plain, pk.n)
    ensures ok ==> forall i: nat :: Factorial(i) * At(derivative.plain, i) == Factorial(i + times) * At(ps, i + times)
  {
    derivative := new PaillierPolynomial(coeffs, pk, ps);
    for i := 0 to times
      invariant fresh(derivative) && derivative.Valid() && derivative.publicKey == pk
      invariant derivative.plain == DerivativeN(ps, i) && Differentiable(|coeffs|, i, pk.n)
    {
      DerivativeLength(ps, i);
      ok := derivative.Derive(e);
      if !ok {
        return false, derivative;
      }
    }
    DerivativeLength(ps, times);
    forall i: nat
      ensures Factorial(i) * At(derivative.plain, i) == Factorial(i + times) * At(ps, i + times)
    {
      DerivativeCoefficients(ps, times, i);
    }
    ok := true;
  }

  // Adding precomputed encryptions of 0, starting at zeros[offset].
  method Rerandomize(cs: seq<nat>, zeros: seq<nat>, offset: nat, pk: PubKey, ghost ms: seq<int>) returns (r: seq<nat>)
    requires PublicKeyShape(pk) && EncryptsAll(cs, ms, pk.n) && offset + |cs| <= |zeros|
    requires forall i :: 0 <= i < |zeros| ==> Encrypts(zeros[i], 0, pk.n)
    ensures EncryptsAll(r, ms, pk.n)
    ensures |r| == |cs| && forall i :: 0 <= i < |cs| ==> r[i] == (cs[i] * zeros[offset + i]) % pk.n2
  {
    r := cs;
    for i := 0 to |cs|
      invariant EncryptsAll(r, ms, pk.n) && |r| == |cs|
      invariant forall k :: 0 <= k < i ==> r[k] == (cs[k] * zeros[offset + k]) % pk.n2
      invariant forall k :: i <= k < |cs| ==> r[k] == cs[k]
    {
      AddCorrect(r[i], ms[i], zeros[offset + i], 0, pk);
      r := r[i := Add(r[i], zeros[offset + i], pk).value];
    }
  }

  // Step 6: p * r_i + p^(t-1) * (F * f_i * s_i).
  method Combine(coeffs: seq<nat>, derivative: PaillierPolynomial, poly: seq<int>, pk: PubKey, draw: BlindDraw,
                 fCoeffs: seq<int>, ghost ps: seq<int>)
    returns (blinded: seq<nat>, ghost plain: seq<int>, ghost pb: seq<int>)
    requires PublicKeyShape(pk) && CoprimeDraw(draw.e, pk.n) && Residues(draw.r, pk.n)
    requires EncryptsAll(coeffs, ps, pk.n) && derivative.Valid() && derivative.publicKey == pk
    ensures EncryptsAll(blinded, plain, pk.n)
    ensures plain == Sum(Product(ps, draw.r), Product(derivative.plain, pb))
    ensures Similar(pb, Product(Product(fCoeffs, poly), draw.s), pk.n)
    ensures |pb| == |Product(Product(fCoeffs, poly), draw.s)|
  {
    var rPoly := new Polynomial(draw.r);
    var blindedPoly := new PaillierPolynomial(coeffs, pk, ps);
    var ok := blindedPoly.MulPoly(rPoly, draw.e);
    var polyBlind := BlindPolynomial(fCoeffs, poly, draw.s, pk.n);
    pb := polyBlind.coefficients;
    var derivativePart := new PaillierPolynomial(derivative.coefficients, pk, derivative.plain);
    ok := derivativePart.MulPoly(polyBlind, draw.e);
    blindedPoly.AddPoly(derivativePart);
    plain := blindedPoly.plain;
    blinded := blindedPoly.coefficients;
  }

  // Differentiating and combining, before the zeros are added.
  method BlindOnce(coeffs: seq<nat>, poly: seq<int>, original: nat, times: nat, pk: PubKey, draw: BlindDraw, ghost ps: seq<int>)
    returns (r: Option<seq<nat>>, ghost plain: seq<int>)
    requires PublicKeyShape(pk) && 1 <= |poly| && times + (|poly| - 1) <= original
    requires draw.Sized(original, original - times, |poly| - 1, pk.n)
    requires EncryptsAll(coeffs, ps, pk.n) && |coeffs| == original + 1
    ensures r.Some? <==> times == 0 || |coeffs| <= pk.n
    ensures r.Some? ==> |r.value| == Max(2 * original, 3 * (original - times)) + 1 && EncryptsAll(r.value, plain, pk.n)
    ensures r.Some? ==> BlindedAs(plain, ps, DerivativeN(ps, times), draw, poly, pk.n)
  {
    var ok, derivative := Differentiate(coeffs, times, pk, draw.e, ps);
    if !ok {
      return None, [];
    }
    ghost var ds := derivative.plain;
    var degDerivative, myDeg := derivative.Degree(), |poly| - 1;
    var fCoeffs := if degDerivative >= myDeg then draw.f else [1];
    var blinded;
    ghost var pb;
    blinded, plain, pb := Combine(coeffs, derivative, poly, pk, draw, fCoeffs, ps);
    BlindedLength(ps, ds, pb, draw, poly, original, original - times, pk.n);
    BlindedPlain(ps, ds, pb, draw, poly, pk.n);
    r := Some(blinded);
  }

  /** Steps 5 and 6: differentiate t-1 times and blind. The result has exactly the number of
      coefficients the zeros were budgeted for, so every zero index is in range. */
  method Blind(coeffs: seq<nat>, m: Member, setup: Setup, pk: PubKey, draw: BlindDraw, ghost ps: seq<int>)
    returns (r: Option<seq<nat>>, ghost plain: seq<int>, ghost bare: seq<nat>)
    requires PublicKeyShape(pk) && m.Valid(pk, setup) && draw.Valid(setup, pk.n)
    requires EncryptsAll(coeffs, ps, pk.n) && |coeffs| == setup.DegreeOriginal() + 1
    ensures r.Some? <==> |coeffs| <= pk.n
    ensures r.Some? ==> |r.value| == setup.CoeffsAfterBlinding() && EncryptsAll(r.value, plain, pk.n)
    ensures r.Some? ==> BlindedAs(plain, ps, DerivativeN(ps, setup.t - 1), draw, m.poly, pk.n)
    ensures r.Some? ==> EncryptsAll(bare, plain, pk.n) && |bare| == |r.value| && forall i :: 0 <= i < |bare| ==>
      r.value[i] == (bare[i] * m.zeros[setup.CoeffsAfterAggregation(m.id) + i]) % pk.n2
  {
    setup.DegreeBound();
    r, plain := BlindOnce(coeffs, m.poly, setup.DegreeOriginal(), setup.t - 1, pk, draw, ps);
    bare := [];
    if r.Some? {
      bare := r.value;
      var blinded := Rerandomize(r.value, m.zeros, setup.CoeffsAfterAggregation(m.id), pk, plain);
      r := Some(blinded);
    }
  }

  lemma {:induction false} BlindedLength(ps: seq<int>, ds: seq<int>, pb: seq<int>, draw: BlindDraw, poly: seq<int>,
                                         original: nat, derivative: nat, n: nat)
    requires 1 <= |poly| <= derivative + 1 && draw.Sized(original, derivative, |poly| - 1, n)
    requires |ps| == original + 1 && |ds| == derivative + 1
    requires |pb| == |Product(Product(draw.f, poly), draw.s)|
    ensures |Sum(Product(ps, draw.r), Product(ds, pb))| == Max(2 * original, 3 * derivative) + 1
  {
    var d := derivative;
    assert |Product(draw.f, poly)| == d + 1;
    assert |pb| == 2 * d + 1;
    assert |Product(ds, pb)| == 3 * d + 1;
    assert |Product(ps, draw.r)| == 2 * original + 1;
  }

  // A blinded polynomial evaluates to p * r_i + p^(t-1) * (F * f_i * s_i) modulo n.
  ghost predicate BlindedAs(plain: seq<int>, ps: seq<int>, ds: seq<int>, draw: BlindDraw, poly: seq<int>, n: nat)
    requires n > 0
  {
    forall y :: Cong(Eval(plain, y), Eval(ps, y) * Eval(draw.r, y) + Eval(ds, y) * BlindFactor(draw, poly, y), n)
  }

  lemma {:induction false} BlindedPlain(ps: seq<int>, ds: seq<int>, pb: seq<int>, draw: BlindDraw, poly: seq<int>, n: nat)
    requires n > 0 && Similar(pb, Product(Product(draw.f, poly), draw.s), n)
    ensures BlindedAs(Sum(Product(ps, draw.r), Product(ds, pb)), ps, ds, draw, poly, n)
  {
    forall y
      ensures Cong(Eval(Sum(Product(ps, draw.r), Product(ds, pb)), y),
                   Eval(ps, y) * Eval(draw.r, y) + Eval(ds, y) * BlindFactor(draw, poly, y), n)
    {
      BlindEval(ps, ds, pb, draw, poly, y, n);
    }
  }

  // ---------------------------------------------------------------- the whole run

  // What the ring computes in the clear: the leader's polynomial times those of members 0..k-1.
  function RingPlain(lead: seq<int>, members: seq<Member>, k: nat): seq<int>
    requires k <= |members|
  {
    if k == 0 then lead else Product(RingPlain(lead, members, k - 1), members[k - 1].poly)
  }

  /** Round the ring the leader's polynomial is multiplied with one member's after the other. */
  lemma {:induction false} RingEvaluates(lead: seq<int>, members: seq<Member>, k: nat, y: int)
    requires k < |members|
    ensures RingPlain(lead, members, 0) == lead
    ensures Eval(RingPlain(lead, members, k + 1), y) == Eval(RingPlain(lead, members, k), y) * Eval(members[k].poly, y)
  {
    EvalOfProduct(RingPlain(lead, members, k), members[k].poly, y);
  }

  // How many of the first k members hold y.
  function Holders(members: seq<Member>, y: nat, k: nat): nat
    requires k <= |members|
  {
    if k == 0 then 0 else Holders(members, y, k - 1) + if y in members[k - 1].inputs then 1 else 0
  }

  // Which members hold y.
  function HoldFlags(members: seq<Member>, y: nat): (r: seq<bool>)
    ensures |r| == |members| && forall i :: 0 <= i < |r| ==> (r[i] <==> y in members[i].inputs)
  {
    seq(|members|, i requires 0 <= i < |members| => y in members[i].inputs)
  }

  /** The members that hold y, counted. */
  lemma {:induction false} HoldersCount(members: seq<Member>, y: nat, k: nat)
    requires k <= |members|
    ensures Holders(members, y, k) == |Flagged(HoldFlags(members, y), k)|
  {
    if k == 0 {
      assert Flagged(HoldFlags(members, y), 0) == {};
    } else {
      HoldersCount(members, y, k - 1);
      FlaggedNext(HoldFlags(members, y), k - 1);
    }
  }

  lemma {:induction false} OccurrencesPositive(roots: seq<int>, i: nat)
    requires i < |roots|
    ensures Occurrences(roots, roots[i]) >= 1
  {
    if i < |roots| - 1 {
      OccurrencesPositive(roots[..|roots| - 1], i);
    }
  }

  // A party's polynomial vanishes at its own elements.
  lemma {:induction false} HolderVanishes(poly: seq<int>, inputs: seq<nat>, y: nat, n: nat)
    requires n > 0 && EncodesSet(poly, inputs, n) && y in inputs
    ensures VanishesTo(poly, y % n, 1, n)
  {
    var roots :| AllRootsOf(roots, inputs, n) && Similar(poly, FromRoots(roots), n);
    var i :| 0 <= i < |inputs| && inputs[i] == y;
    EncodingMultiplicity(poly, roots, y % n, n);
    OccurrencesPositive(roots, i);
    VanishesLess(poly, y % n, Occurrences(roots, y % n), 1, n);
  }

  // Every member's polynomial encodes its set.
  ghost predicate AllEncode(members: seq<Member>, n: nat)
    requires n > 0
  {
    forall i :: 0 <= i < |members| ==> EncodesSet(members[i].poly, members[i].inputs, n)
  }

  /** An element of the leader held by h members is a root of multiplicity h+1 of the ring product. */
  lemma {:induction false} RingVanishes(lead: seq<int>, inputs: seq<nat>, members: seq<Member>, y: nat, k: nat, n: nat)
    requires n > 0 && EncodesSet(lead, inputs, n) && y in inputs && k <= |members| && AllEncode(members, n)
    ensures VanishesTo(RingPlain(lead, members, k), y % n, Holders(members, y, k) + 1, n)
  {
    if k == 0 {
      HolderVanishes(lead, inputs, y, n);
    } else {
      RingVanishes(lead, inputs, members, y, k - 1, n);
      RingGrows(lead, members, y, k, n);
    }
  }

  // One member more.
  lemma {:induction false} RingGrows(lead: seq<int>, members: seq<Member>, y: nat, k: nat, n: nat)
    requires n > 0 && 0 < k <= |members| && AllEncode(members, n)
    requires VanishesTo(RingPlain(lead, members, k - 1), y % n, Holders(members, y, k - 1) + 1, n)
    ensures VanishesTo(RingPlain(lead, members, k), y % n, Holders(members, y, k) + 1, n)
  {
    var m, h := members[k - 1], if y in members[k - 1].inputs then 1 else 0;
    MemberVanishes(m.poly, m.inputs, y, h, n);
    RingStep(RingPlain(lead, members, k - 1), RingPlain(lead, members, k), m.poly, y % n,
             Holders(members, y, k - 1) + 1, h, Holders(members, y, k) + 1, n);
  }

  lemma {:induction false} RingStep(ring: seq<int>, next: seq<int>, poly: seq<int>, r: int, a: nat, b: nat, c: nat, n: int)
    requires n > 0 && VanishesTo(ring, r, a, n) && VanishesTo(poly, r, b, n)
    requires next == Product(ring, poly) && c == a + b
    ensures VanishesTo(next, r, c, n)
  {
    VanishesProduct(ring, poly, r, a, b, n);
  }

  lemma {:induction false} MemberVanishes(poly: seq<int>, inputs: seq<nat>, y: nat, h: nat, n: nat)
    requires n > 0 && EncodesSet(poly, inputs, n) && h == if y in inputs then 1 else 0
    ensures VanishesTo(poly, y % n, h, n)
  {
    if h == 1 {
      HolderVanishes(poly, inputs, y, n);
    }
  }

  // The members' blinding factors at y, added up.
  function TotalFactor(draws: seq<BlindDraw>, members: seq<Member>, y: int, k: nat): int
    requires k <= |members| && k <= |draws|
  {
    if k == 0 then 0 else TotalFactor(draws, members, y, k - 1) + BlindFactor(draws[k - 1], members[k - 1].poly, y)
  }

  function TotalR(draws: seq<BlindDraw>, y: int, k: nat): int
    requires k <= |draws|
  {
    if k == 0 then 0 else TotalR(draws, y, k - 1) + Eval(draws[k - 1].r, y)
  }

  // What the leader's sum of the first k blinded polynomials evaluates to.
  ghost predicate SummedAs(plain: seq<int>, ps: seq<int>, draws: seq<BlindDraw>, members: seq<Member>, t: nat, k: nat, n: nat)
    requires n > 0 && k <= |members| && k <= |draws| && t >= 1
  {
    forall y :: Cong(Eval(plain, y),
      Eval(ps, y) * TotalR(draws, y, k) + Eval(DerivativeN(ps, t - 1), y) * TotalFactor(draws, members, y, k), n)
  }

  lemma {:induction false} SummedStep(acc: seq<int>, plain: seq<int>, ps: seq<int>, draws: seq<BlindDraw>, members: seq<Member>, t: nat, k: nat, n: nat)
    requires n > 0 && k < |members| && k < |draws| && t >= 1
    requires SummedAs(acc, ps, draws, members, t, k, n)
    requires BlindedAs(plain, ps, DerivativeN(ps, t - 1), draws[k], members[k].poly, n)
    ensures SummedAs(Sum(acc, plain), ps, draws, members, t, k + 1, n)
  {
    forall y
      ensures Cong(Eval(Sum(acc, plain), y),
        Eval(ps, y) * TotalR(draws, y, k + 1) + Eval(DerivativeN(ps, t - 1), y) * TotalFactor(draws, members, y, k + 1), n)
    {
      EvalOfSum(acc, plain, y);
      var p, d := Eval(ps, y), Eval(DerivativeN(ps, t - 1), y);
      var r, f := Eval(draws[k].r, y), BlindFactor(draws[k], members[k].poly, y);
      var tr, tf := TotalR(draws, y, k), TotalFactor(draws, members, y, k);
      CongAdd(Eval(acc, y), p * tr + d * tf, Eval(plain, y), p * r + d * f, n);
      Distribute(p, tr, r);
      Distribute(d, tf, f);
    }
  }

  /** The factors of all members, term by term. */
  lemma {:induction false} FactorsAdd(draws: seq<BlindDraw>, members: seq<Member>, y: int, k: nat)
    requires k < |members| && k < |draws|
    ensures TotalFactor(draws, members, y, 0) == 0 == TotalR(draws, y, 0)
    ensures TotalFactor(draws, members, y, k + 1)
         == TotalFactor(draws, members, y, k) + Eval(draws[k].f, y) * Eval(members[k].poly, y) * Eval(draws[k].s, y)
    ensures TotalR(draws, y, k + 1) == TotalR(draws, y, k) + Eval(draws[k].r, y)
  {
  }

  // The leader's root test at y, in terms of the random draws only.
  ghost predicate Accepted(y: nat, ps: seq<int>, draws: seq<BlindDraw>, members: seq<Member>, t: nat, n: nat)
    requires n > 0 && |draws| == |members| && t >= 1
  {
    Cong(Eval(DerivativeN(ps, t - 1), y % n) * TotalFactor(draws, members, y % n, |members|), 0, n)
  }

  lemma {:induction false} RingLength(lead: seq<int>, members: seq<Member>, k: nat, s: Setup)
    requires k <= |members| && |lead| == s.recvSize + 1 && s.recvSize >= 1
    requires forall i :: 0 <= i < |members| ==> |members[i].poly| == s.sendSize + 1
    ensures |RingPlain(lead, members, k)| == s.recvSize + k * s.sendSize + 1
  {
    if k > 0 { RingLength(lead, members, k - 1, s); }
  }

  /** Round the ring: every member multiplies its polynomial in and re-randomizes within its budget. */
  method RingAggregate(lead: seq<nat>, members: seq<Member>, s: Setup, pk: PubKey, ghost leadPlain: seq<int>)
    returns (aggregated: seq<nat>)
    requires PublicKeyShape(pk) && s.Valid() && |members| == s.n - 1
    requires forall i :: 0 <= i < |members| ==> members[i].Valid(pk, s) && members[i].id == i
    requires EncryptsAll(lead, leadPlain, pk.n) && |lead| == s.recvSize + 1
    ensures EncryptsAll(aggregated, RingPlain(leadPlain, members, |members|), pk.n)
    ensures |aggregated| == s.DegreeOriginal() + 1
  {
    aggregated := lead;
    for i := 0 to |members|
      invariant EncryptsAll(aggregated, RingPlain(leadPlain, members, i), pk.n)
    {
      RingLength(leadPlain, members, i, s);
      assert (i + 1) * s.sendSize == i * s.sendSize + s.sendSize;
      var final;
      ghost var ps := RingPlain(leadPlain, members, i);
      var zeros := members[i].zeros;
      ghost var xs := SomeRandomness(aggregated, ps, pk.n);
      ghost var zs := SomeRandomness(zeros, seq(|zeros|, _ => 0), pk.n);
      aggregated, final := Aggregate(aggregated, members[i].poly, zeros, pk, ps, xs, zs);
    }
    RingLength(leadPlain, members, |members|, s);
  }

  // Steps 4 and 5: collect the blinded polynomials and add them up.
  method SumBlinded(aggregated: seq<nat>, members: seq<Member>, s: Setup, pk: PubKey, draws: seq<BlindDraw>, ghost ps: seq<int>)
    returns (r: Option<seq<nat>>, ghost plain: seq<int>)
    requires PublicKeyShape(pk) && s.Valid() && |members| == |draws| == s.n - 1
    requires forall i :: 0 <= i < |members| ==> members[i].Valid(pk, s) && draws[i].Valid(s, pk.n)
    requires EncryptsAll(aggregated, ps, pk.n) && |aggregated| == s.DegreeOriginal() + 1
    ensures r.Some? <==> |aggregated| <= pk.n
    ensures r.Some? ==> EncryptsAll(r.value, plain, pk.n) && SummedAs(plain, ps, draws, members, s.t, |members|, pk.n)
  {
    var first;
    ghost var firstPlain, bare;
    first, firstPlain, bare := Blind(aggregated, members[0], s, pk, draws[0], ps);
    if first.None? {
      return None, [];
    }
    FirstSummed(firstPlain, ps, draws, members, s.t, pk.n);
    var sum := new PaillierPolynomial(first.value, pk, firstPlain);
    for i := 1 to |members|
      invariant fresh(sum) && sum.Valid() && sum.publicKey == pk
      invariant SummedAs(sum.plain, ps, draws, members, s.t, i, pk.n)
    {
      ghost var acc := sum.plain;
      var next;
      ghost var nextPlain;
      next, nextPlain, bare := Blind(aggregated, members[i], s, pk, draws[i], ps);
      if next.None? {
        return None, [];
      }
      var poly := new PaillierPolynomial(next.value, pk, nextPlain);
      sum.AddPoly(poly);
      SummedStep(acc, nextPlain, ps, draws, members, s.t, i, pk.n);
    }
    r := Some(sum.coefficients);
    plain := sum.plain;
  }

  lemma {:induction false} FirstSummed(plain: seq<int>, ps: seq<int>, draws: seq<BlindDraw>, members: seq<Member>, t: nat, n: nat)
    requires n > 0 && |members| == |draws| >= 1 && t >= 1
    requires BlindedAs(plain, ps, DerivativeN(ps, t - 1), draws[0], members[0].poly, n)
    ensures SummedAs(plain, ps, draws, members, t, 1, n)
  {
    forall y
      ensures Cong(Eval(plain, y),
        Eval(ps, y) * TotalR(draws, y, 1) + Eval(DerivativeN(ps, t - 1), y) * TotalFactor(draws, members, y, 1), n)
    {
      assert TotalR(draws, y, 1) == TotalR(draws, y, 0) + Eval(draws[0].r, y);
      assert TotalFactor(draws, members, y, 1) == TotalFactor(draws, members, y, 0) + BlindFactor(draws[0], members[0].poly, y);
    }
  }

  // Step 6: all coefficients are jointly decrypted.
  method DecryptAll(cs: seq<nat>, keys: Keys, ghost n: nat, ghost ms: seq<int>) returns (values: seq<int>)
    requires Dealt(keys, n) && keys.pk.n > 0 && EncryptsAll(cs, ms, keys.pk.n)
    ensures Similar(values, ms, keys.pk.n)
  {
    DealtFacts(keys, n);
    values := [];
    for i := 0 to |cs|
      invariant |values| == i && forall k :: 0 <= k < i ==> Cong(values[k], ms[k], keys.pk.n)
    {
      var v := JointDecrypt(cs[i], keys, n, ms[i]);
      SignedRange(ms[i], keys.pk.n);
      values := values + [v];
    }
  }

  // At an element of the leader the first term vanishes, leaving the derivative's term.
  lemma {:induction false} RootTest(values: seq<int>, plain: seq<int>, ps: seq<int>, draws: seq<BlindDraw>, members: seq<Member>, y: nat, t: nat, n: nat)
    requires n > 0 && |draws| == |members| && t >= 1
    requires Similar(values, plain, n) && SummedAs(plain, ps, draws, members, t, |members|, n)
    requires VanishesTo(ps, y % n, 1, n)
    ensures Eval(values, y % n) % n == 0 <==> Accepted(y, ps, draws, members, t, n)
  {
    var x := y % n;
    SimilarEval(values, plain, x, x, n);
    var p, r, d := Eval(ps, x), TotalR(draws, x, |members|), Eval(DerivativeN(ps, t - 1), x) * TotalFactor(draws, members, x, |members|);
    assert Cong(Eval(plain, x), p * r + d, n);
    CongMul(p, 0, r, r, n);
    CongAdd(p * r, 0, d, d, n);
    ModUnique(0, n, 0, 0);
  }

  lemma {:induction false} AcceptsHolders(ps: seq<int>, draws: seq<BlindDraw>, members: seq<Member>, y: nat, h: nat, t: nat, n: nat)
    requires n > 0 && |draws| == |members| && t >= 1 && VanishesTo(ps, y % n, h + 1, n) && h + 1 >= t
    ensures Accepted(y, ps, draws, members, t, n)
  {
    VanishesDerivativeN(ps, y % n, h + 1, t - 1, n);
    var d, f := Eval(DerivativeN(ps, t - 1), y % n), TotalFactor(draws, members, y % n, |members|);
    VanishesLess(DerivativeN(ps, t - 1), y % n, h + 1 - (t - 1), 1, n);
    CongMul(d, 0, f, f, n);
  }

  /** The whole protocol. It completes exactly when the derivatives' scalars stay below n. Then, for every
      choice of randomness, the leader returns exactly those of its
      inputs, in order, at which the (t-1)-th derivative or the summed blinding factor vanishes;
      in particular every input that at least t parties hold, the leader included. */
  method Run(inputs: seq<nat>, members: seq<Member>, s: Setup, keys: Keys, leadDraws: seq<nat>, draws: seq<BlindDraw>)
    returns (r: Option<seq<nat>>, ghost lead: seq<int>, ghost flags: seq<bool>)
    requires Dealt(keys, s.n) && PublicKeyShape(keys.pk) && s.Valid() && |inputs| == s.recvSize
    requires ValidParties(members, draws, s, keys.pk)
    requires |leadDraws| == |inputs| + 1 && AllDraws(leadDraws, keys.pk.n)
    ensures EncodesSet(lead, inputs, keys.pk.n)
    ensures r.Some? <==> s.recvSize + (s.n - 1) * s.sendSize + 1 <= keys.pk.n
    ensures forall y :: Cong(Eval(lead, y), RootProduct(inputs, y), keys.pk.n)
    ensures r.Some? ==> |flags| == |inputs| && r.value == Select(inputs, flags)
    ensures r.Some? ==> forall i :: 0 <= i < |inputs| ==> (flags[i] <==>
      (Eval(DerivativeN(RingPlain(lead, members, |members|), s.t - 1), inputs[i] % keys.pk.n)
        * TotalFactor(draws, members, inputs[i] % keys.pk.n, |members|)) % keys.pk.n == 0)
    ensures r.Some? ==> forall i :: 0 <= i < |inputs| && |Flagged(HoldFlags(members, inputs[i]), |members|)| + 1 >= s.t ==>
      inputs[i] in r.value
  {
    r, lead, flags := RunSteps(inputs, members, s, keys, leadDraws, draws);
    forall y
      ensures Cong(Eval(lead, y), RootProduct(inputs, y), keys.pk.n)
    {
      EncodingOfSet(lead, inputs, keys.pk.n, y);
    }
    if r.Some? {
      OutputMeans(r.value, inputs, flags, RingPlain(lead, members, |members|), draws, members, s.t, keys.pk.n);
    }
  }

  // The seven steps.
  method RunSteps(inputs: seq<nat>, members: seq<Member>, s: Setup, keys: Keys, leadDraws: seq<nat>, draws: seq<BlindDraw>)
    returns (r: Option<seq<nat>>, ghost lead: seq<int>, ghost flags: seq<bool>)
    requires Dealt(keys, s.n) && PublicKeyShape(keys.pk) && s.Valid() && |inputs| == s.recvSize
    requires ValidParties(members, draws, s, keys.pk)
    requires |leadDraws| == |inputs| + 1 && AllDraws(leadDraws, keys.pk.n)
    ensures EncodesSet(lead, inputs, keys.pk.n)
    ensures r.Some? <==> s.DegreeOriginal() + 1 <= keys.pk.n
    ensures r.Some? ==>
      ExactOutput(r.value, inputs, flags, RingPlain(lead, members, |members|), draws, members, s.t, keys.pk.n)
    ensures r.Some? ==> CompleteOutput(r.value, inputs, members, s.t)
  {
    var pk := keys.pk;
    var encrypted;
    encrypted, lead := LeadPolynomial(inputs, pk, leadDraws);
    var aggregated := RingAggregate(encrypted, members, s, pk, lead);
    ghost var ps := RingPlain(lead, members, |members|);
    var summed;
    ghost var plain;
    summed, plain := SumBlinded(aggregated, members, s, pk, draws, ps);
    if summed.None? {
      return None, lead, [];
    }
    var values := DecryptAll(summed.value, keys, s.n, plain);
    RingVanishesAll(lead, inputs, members, draws, pk, s);
    var intersection;
    intersection, flags := FindIntersection(inputs, values, pk.n, plain, ps, draws, members, s.t);
    Complete(intersection, inputs, flags, ps, draws, members, s.t, pk.n);
    r := Some(intersection);
  }

  lemma {:induction false} OutputMeans(intersection: seq<nat>, inputs: seq<nat>, flags: seq<bool>, ps: seq<int>,
                                       draws: seq<BlindDraw>, members: seq<Member>, t: nat, n: nat)
    requires n > 0 && |draws| == |members| && t >= 1 && ExactOutput(intersection, inputs, flags, ps, draws, members, t, n)
    requires CompleteOutput(intersection, inputs, members, t)
    ensures |flags| == |inputs| && intersection == Select(inputs, flags)
    ensures forall i :: 0 <= i < |inputs| ==> (flags[i] <==>
      (Eval(DerivativeN(ps, t - 1), inputs[i] % n) * TotalFactor(draws, members, inputs[i] % n, |members|)) % n == 0)
    ensures forall i :: 0 <= i < |inputs| && |Flagged(HoldFlags(members, inputs[i]), |members|)| + 1 >= t ==> inputs[i] in intersection
  {
    ModUnique(0, n, 0, 0);
    forall i | 0 <= i < |inputs| && |Flagged(HoldFlags(members, inputs[i]), |members|)| + 1 >= t
      ensures inputs[i] in intersection
    {
      HoldersCount(members, inputs[i], |members|);
    }
  }

  ghost predicate ValidParties(members: seq<Member>, draws: seq<BlindDraw>, s: Setup, pk: PubKey) {
    && s.Valid() && |members| == |draws| == s.n - 1
    && forall i :: 0 <= i < |members| ==> members[i].Valid(pk, s) && members[i].id == i && draws[i].Valid(s, pk.n)
  }

  // Step 1: the leader encodes and encrypts its set.
  method LeadPolynomial(inputs: seq<nat>, pk: PubKey, draws: seq<nat>) returns (encrypted: seq<nat>, ghost lead: seq<int>)
    requires PublicKeyShape(pk) && |draws| == |inputs| + 1 && AllDraws(draws, pk.n)
    ensures EncodesSet(lead, inputs, pk.n) && EncryptsAll(encrypted, lead, pk.n)
    ensures |lead| == |draws| && |encrypted| == |draws| && forall i :: 0 <= i < |draws| ==> Enc(lead[i], pk, draws[i]) == Ok(encrypted[i])
  {
    var roots := ReduceInputs(inputs, pk.n);
    var poly := EncodeAsPolynomial(roots, pk.n);
    var r := EncryptCoefficients(poly, pk, draws);
    encrypted := r.value;
    lead := poly;
  }

  // Every input is a root of the ring product, once more often than members hold it.
  ghost predicate AllVanish(ps: seq<int>, inputs: seq<nat>, members: seq<Member>, n: nat)
    requires n > 0
  {
    forall i :: 0 <= i < |inputs| ==> VanishesTo(ps, inputs[i] % n, Holders(members, inputs[i], |members|) + 1, n)
  }

  lemma {:induction false} RingVanishesAll(lead: seq<int>, inputs: seq<nat>, members: seq<Member>, draws: seq<BlindDraw>, pk: PubKey, s: Setup)
    requires pk.n > 0 && EncodesSet(lead, inputs, pk.n) && ValidParties(members, draws, s, pk)
    ensures AllVanish(RingPlain(lead, members, |members|), inputs, members, pk.n)
  {
    forall i | 0 <= i < |members|
      ensures EncodesSet(members[i].poly, members[i].inputs, pk.n)
    {
      assert members[i].Valid(pk, s);
    }
    forall i | 0 <= i < |inputs|
      ensures VanishesTo(RingPlain(lead, members, |members|), inputs[i] % pk.n, Holders(members, inputs[i], |members|) + 1, pk.n)
    {
      RingVanishes(lead, inputs, members, inputs[i], |members|, pk.n);
    }
  }

  // Step 7: evaluate the decrypted polynomial at every input.
  method FindIntersection(inputs: seq<nat>, values: seq<int>, n: nat, ghost plain: seq<int>, ghost ps: seq<int>,
                          ghost draws: seq<BlindDraw>, ghost members: seq<Member>, ghost t: nat)
    returns (intersection: seq<nat>, ghost flags: seq<bool>)
    requires n > 0 && |draws| == |members| && t >= 1
    requires Similar(values, plain, n) && SummedAs(plain, ps, draws, members, t, |members|, n)
    requires AllVanish(ps, inputs, members, n)
    ensures ExactOutput(intersection, inputs, flags, ps, draws, members, t, n)
  {
    var decrypted := new Polynomial(values);
    intersection := [];
    flags := [];
    for i := 0 to |inputs|
      invariant decrypted.coefficients == values && |flags| == i && intersection == Select(inputs[..i], flags)
      invariant forall k :: 0 <= k < i ==> (flags[k] <==> Accepted(inputs[k], ps, draws, members, t, n))
    {
      var y := inputs[i] % n;
      var result := decrypted.EvaluateAt(y, n);
      assert result == 0 <==> Accepted(inputs[i], ps, draws, members, t, n) by {
        VanishesLess(ps, y, Holders(members, inputs[i], |members|) + 1, 1, n);
        RootTest(values, plain, ps, draws, members, inputs[i], t, n);
      }
      SelectSnoc(inputs, flags, i, result == 0);
      if result == 0 {
        intersection := intersection + [inputs[i]];
      }
      flags := flags + [result == 0];
    }
    assert inputs[..|inputs|] == inputs;
  }

  // Every input held by at least t parties, the leader included, is returned.
  predicate CompleteOutput(intersection: seq<nat>, inputs: seq<nat>, members: seq<Member>, t: nat) {
    forall i :: 0 <= i < |inputs| && Holders(members, inputs[i], |members|) + 1 >= t ==> inputs[i] in intersection
  }

  // The output is the subsequence of accepted inputs.
  ghost predicate ExactOutput(intersection: seq<nat>, inputs: seq<nat>, flags: seq<bool>, ps: seq<int>,
                              draws: seq<BlindDraw>, members: seq<Member>, t: nat, n: nat)
    requires n > 0 && |draws| == |members| && t >= 1
  {
    && |flags| == |inputs| && intersection == Select(inputs, flags)
    && forall i :: 0 <= i < |inputs| ==> (flags[i] <==> Accepted(inputs[i], ps, draws, members, t, n))
  }

  lemma {:induction false} Complete(intersection: seq<nat>, inputs: seq<nat>, flags: seq<bool>, ps: seq<int>,
                                    draws: seq<BlindDraw>, members: seq<Member>, t: nat, n: nat)
    requires n > 0 && |draws| == |members| && t >= 1 && ExactOutput(intersection, inputs, flags, ps, draws, members, t, n)
    requires AllVanish(ps, inputs, members, n)
    ensures CompleteOutput(intersection, inputs, members, t)
  {
    forall i | 0 <= i < |inputs| && Holders(members, inputs[i], |members|) + 1 >= t
      ensures inputs[i] in intersection
    {
      AcceptsHolders(ps, draws, members, inputs[i], Holders(members, inputs[i], |members|), t, n);
      SelectContains(inputs, flags, i);
    }
  }
}
