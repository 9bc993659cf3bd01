/**
 Fused decryption is correct: for every key distributedKeyGen can deal and every ciphertext,
 fusing all partial decryptions returns the plaintext's representative in the signed range.
 */
module FusionCorrectness {
  import opened NumberTheory
  import opened Polynomials
  import opened Paillier
  import opened ThresholdPaillier

  // ---------------------------------------------------------------- what a good draw provides

  lemma {:induction false} SmallUnit(p: nat, a: nat)
    requires Prime(p) && 0 < a < p
    ensures Unit(a, p)
  {
    ModUnique(a, p, 0, a);
    PrimeUnit(p, a);
  }

  lemma {:induction false} FactorialUnit(p: nat, n: nat)
    requires Prime(p) && n < p
    ensures Unit(Factorial(n), p)
  {
    if n == 0 {
      SmallUnit(p, 1);
    } else {
      FactorialUnit(p, n - 1);
      SmallUnit(p, n);
      UnitProduct(n, Factorial(n - 1), p);
    }
  }

  lemma {:induction false} GoodDrawFacts(n: nat, bits: nat, d: KeyDraw)
    requires GoodDraw(n, bits, d)
    ensures d.pp >= 2 && d.qq >= 2 && d.N() > 24 && d.M() > 0 && d.N() * d.M() > 0
    ensures n < d.P() && n < d.Q() && d.qq < d.P() && d.pp < d.Q()
    ensures PublicKeyShape(DealtKey(n, d))
  {
    assert Pow(2, bits) == 2 * Pow(2, bits - 1);
    MulGrows(d.P(), d.Q());
    PositiveProduct(d.pp, d.qq);
    PositiveProduct(d.N(), d.M());
    PositiveProduct(d.N(), d.N());
  }

  lemma MulGrows(a: nat, b: nat)
    requires a >= 5 && b >= 5
    ensures a * b >= 25
  {
  }

  // 4 * delta^2 * m * beta is invertible modulo each prime, hence modulo N.
  lemma {:induction false} ScaleUnitPrime(p: nat, delta: int, x: nat, y: nat, beta: int)
    requires Prime(p) && p > 4 && 0 < x < p && 0 < y < p && Unit(delta, p) && Unit(beta, p)
    ensures Unit(((4 * delta) * delta) * ((x * y) * beta), p)
  {
    SmallUnit(p, 4);
    SmallUnit(p, x);
    SmallUnit(p, y);
    UnitProduct(4, delta, p);
    UnitProduct(4 * delta, delta, p);
    UnitProduct(x, y, p);
    UnitProduct(x * y, beta, p);
    UnitProduct((4 * delta) * delta, (x * y) * beta, p);
  }

  function Scale(n: nat, d: KeyDraw): nat {
    ((4 * Factorial(n)) * Factorial(n)) * (d.M() * d.beta)
  }

  // What fuseDec divides out, before it is reduced.
  lemma {:induction false} ScaleReduced(n: nat, d: KeyDraw)
    requires d.N() > 0
    ensures Cong(FuseScale(DealtKey(n, d)), Scale(n, d), d.N())
  {
    var f := Factorial(n);
    var a, b, k := 4 * f * f, d.M() * d.beta, d.N();
    CongMod(a, k);
    CongMod(b, k);
    CongMul(a % k, a, b % k, b, k);
    CongMod((a % k) * (b % k), k);
  }

  lemma {:induction false} ScaleUnit(n: nat, bits: nat, d: KeyDraw)
    requires GoodDraw(n, bits, d) && d.N() > 0
    ensures Unit(Scale(n, d), d.N()) && Cong(FuseScale(DealtKey(n, d)), Scale(n, d), d.N())
  {
    GoodDrawFacts(n, bits, d);
    var p, q, f := d.P(), d.Q(), Factorial(n);
    CoprimeIsUnit(d.beta, d.N());
    UnitDivisor(d.beta, p, q);
    assert p * q == q * p;
    UnitDivisor(d.beta, q, p);
    FactorialUnit(p, n);
    FactorialUnit(q, n);
    ScaleUnitPrime(p, f, d.pp, d.qq, d.beta);
    ScaleUnitPrime(q, f, d.pp, d.qq, d.beta);
    UnitBoth(Scale(n, d), p, q);
    ScaleReduced(n, d);
  }

  lemma {:induction false} FactorialMultiple(p: nat, n: nat) returns (x: int)
    requires 1 <= p <= n
    ensures Factorial(n) == x * p
  {
    var q := FactorialDivides(p, n);
    x := q * Factorial(p - 1);
    Assoc(q, p, Factorial(p - 1));
    Assoc(q, Factorial(p - 1), p);
  }

  lemma {:induction false} NoUnitMultiple(p: nat, f: int, x: int, y: int)
    requires p > 1 && f == x * p
    ensures !Unit(((4 * f) * f) * y, p)
  {
    if Unit(((4 * f) * f) * y, p) {
      var k := ((4 * f) * x) * y;
      assert ((4 * f) * f) * y == k * p by { Assoc(4 * f, x, p); Assoc((4 * f) * x, p, y); Assoc((4 * f) * x, y, p); }
      ModZeroMultiple(k, p);
      UnitResidue(((4 * f) * f) * y, p);
    }
  }

  /** With at least as many parties as a prime factor of N, n! is not invertible and fusing always
      fails, whatever the partial decryptions are. */
  lemma {:induction false} TooManyParties(n: nat, bits: nat, d: KeyDraw, parts: seq<int>)
    requires DrawShape(n, bits, d) && (n >= d.P() || n >= d.Q()) && d.N() > 0 && DealtKey(n, d).n2 > 0
    ensures Fuse(parts, DealtKey(n, d)).Err?
  {
    var pk, f, y := DealtKey(n, d), Factorial(n), d.M() * d.beta;
    if Unit(FuseScale(pk), d.N()) {
      ScaleReduced(n, d);
      UnitCong(FuseScale(pk), Scale(n, d), d.N());
      UnitDivisor(Scale(n, d), d.P(), d.Q());
      assert d.P() * d.Q() == d.Q() * d.P();
      UnitDivisor(Scale(n, d), d.Q(), d.P());
      var p := if n >= d.P() then d.P() else d.Q();
      var x := FactorialMultiple(p, n);
      NoUnitMultiple(p, f, x, y);
    }
  }

  /** A concrete key that never decrypts: five parties and primes 5 and 7. */
  lemma {:induction false} FivePartiesFail(parts: seq<int>)
    ensures var d := KeyDraw(2, 3, 2, [0, 0, 0, 0]);
      DrawShape(5, 2, d) && d.N() > 0 && DealtKey(5, d).n2 > 0 && Fuse(parts, DealtKey(5, d)).Err?
  {
    var d := KeyDraw(2, 3, 2, [0, 0, 0, 0]);
    assert d.P() == 5 && d.Q() == 7 && d.N() == 35 && d.M() == 6;
    assert Pow(2, 1) == 2 * Pow(2, 0) && Pow(2, 2) == 2 * Pow(2, 1);
    SmallPrimes();
    TwoDraw();
    TooManyParties(5, 2, d, parts);
  }

  lemma {:induction false} SmallPrimes()
    ensures Prime(2) && Prime(3) && Prime(5) && Prime(7)
  {
  }

  lemma {:induction false} TwoDraw()
    ensures CoprimeDraw(2, 35)
  {
    CongIntro(2 * 18, 1, 35, 1);
    UnitIsCoprime(2, 35);
  }

  // ---------------------------------------------------------------- signed exponents

  // Where a^t = 1, the power with a signed exponent exists and depends on it modulo t.
  lemma {:induction false} PowerModOrder(a: int, e: int, k: nat, t: nat)
    requires k > 0 && t > 0 && Unit(a, k) && Cong(Pow(a, t), 1, k)
    ensures PowerMod(a, e, k).Some? && PowerMod(a, e, k).value < k
    ensures Cong(PowerMod(a, e, k).value, Pow(a, e % t), k)
  {
    CongMod(e, t);
    if e >= 0 {
      PowPeriodic(a, e, e % t, t, k);
      CongMod(Pow(a, e), k);
    } else {
      var inv := InvMod(a, k).value;
      var w, f := e % t, -e;
      PowProduct(a, inv, f);
      CongPow(a * inv, 1, f, k);
      PowOne(f);
      CongAdd(w, e, e, e, t);
      PowPeriodic(a, f + w, 0, t, k);
      PowAdd(a, f, w);
      InverseUnique(Pow(a, f), Pow(inv, f), Pow(a, w), k);
      CongMod(Pow(inv, f), k);
    }
  }

  // A power of an element of order t, reduced modulo k, again has order t.
  lemma {:induction false} PartialOrder(c: int, x: nat, k: nat, t: nat)
    requires k > 0 && Unit(c, k) && Cong(Pow(c, t), 1, k)
    ensures Unit(Pow(c, x) % k, k) && Cong(Pow(Pow(c, x) % k, t), 1, k)
  {
    var part := Pow(c, x) % k;
    CongMod(Pow(c, x), k);
    UnitPow(c, x, k);
    UnitCong(Pow(c, x), part, k);
    CongPow(part, Pow(c, x), t, k);
    PowSwap(c, x, t);
    CongPow(Pow(c, t), 1, x, k);
    PowOne(x);
  }

  /** The running product of fuseDec is a power of the ciphertext whose exponent is
      4 * delta * (sum of lambda_i * s_i) modulo the order t. */
  lemma {:induction false} FuseExponent(parts: seq<int>, c: int, delta: nat, shares: seq<nat>, k2: nat, t: nat, k: nat)
    returns (e: nat)
    requires k2 > 0 && t > 0 && Unit(c, k2) && Cong(Pow(c, t), 1, k2) && k <= |parts| == |shares|
    requires forall i :: 0 <= i < |parts| ==> parts[i] == Pow(c, 2 * delta * shares[i]) % k2
    ensures FuseProduct(parts, delta, k2, k).Some?
    ensures var v := FuseProduct(parts, delta, k2, k).value;
            Cong(v, Pow(c, e), k2) && (k > 0 ==> 0 <= v < k2)
    ensures Cong(e, 4 * delta * WeightedSum(delta, |parts|, shares, k), t)
  {
    if k == 0 {
      e := 0;
    } else {
      var e' := FuseExponent(parts, c, delta, shares, k2, t, k - 1);
      var product := FuseProduct(parts, delta, k2, k - 1).value;
      var i := k - 1;
      var part, x, lambda := parts[i], 2 * delta * shares[i], Lambda(delta, i, |parts|);
      PartialOrder(c, x, k2, t);
      PowerModOrder(part, 2 * lambda, k2, t);
      var term := PowerMod(part, 2 * lambda, k2).value;
      var w := (2 * lambda) % t;
      CongMod(Pow(c, x), k2);
      CongPow(part, Pow(c, x), w, k2);
      PowMul(c, x, w);
      CongMul(product, Pow(c, e'), term, Pow(c, x * w), k2);
      CongMod(product * term, k2);
      PowAdd(c, e', x * w);
      e := e' + x * w;
      var sum := WeightedSum(delta, |parts|, shares, i);
      CongMod(2 * lambda, t);
      CongMul(x, x, w, 2 * lambda, t);
      CongAdd(e', 4 * delta * sum, x * w, x * (2 * lambda), t);
      ExponentStep(delta, sum, shares[i], lambda);
    }
  }

  lemma {:induction false} ExponentStep(delta: int, sum: int, s: int, lambda: int)
    ensures 4 * delta * sum + (2 * delta * s) * (2 * lambda) == 4 * delta * (sum + lambda * s)
  {
    assert (2 * delta * s) * (2 * lambda) == 4 * delta * (lambda * s);
  }

  // ---------------------------------------------------------------- the shares interpolate the secret

  lemma {:induction false} WeightedSumCong(delta: int, n: nat, a: seq<int>, b: seq<int>, k: nat, m: int)
    requires m > 0 && CongPoly(a, b, m) && k <= |a|
    ensures Cong(WeightedSum(delta, n, a, k), WeightedSum(delta, n, b, k), m)
  {
    if k > 0 {
      WeightedSumCong(delta, n, a, b, k - 1, m);
      var l := Lambda(delta, k - 1, n);
      CongMul(l, l, a[k - 1], b[k - 1], m);
      CongAdd(WeightedSum(delta, n, a, k - 1), WeightedSum(delta, n, b, k - 1), l * a[k - 1], l * b[k - 1], m);
    }
  }

  // The weighted sum of the dealt shares is delta * beta * m modulo N*m.
  lemma {:induction false} SharesInterpolate(n: nat, bits: nat, d: KeyDraw, shares: seq<nat>)
    requires GoodDraw(n, bits, d) && d.N() * d.M() > 0
    requires |shares| == n && forall i :: 0 <= i < n ==> shares[i] == DealtShare(d, i)
    ensures Cong(WeightedSum(Factorial(n), n, shares, n), Factorial(n) * (d.M() * d.beta), d.N() * d.M())
  {
    var modulus, cs, f := d.N() * d.M(), d.Coefficients(), Factorial(n);
    ReducedInterpolate(n, f, cs, shares, modulus);
    assert Eval(cs, 0) == cs[0] + 0 * Eval(cs[1..], 0) == cs[0];
    ScaledSecret(f, d.beta, d.M(), modulus);
  }

  lemma {:induction false} ScaledSecret(f: int, beta: int, m: int, modulus: int)
    requires modulus > 0
    ensures Cong(f * ((beta * m) % modulus), f * (m * beta), modulus)
  {
    CongMod(beta * m, modulus);
    CongMul(f, f, (beta * m) % modulus, m * beta, modulus);
  }

  lemma {:induction false} ReducedInterpolate(n: nat, f: nat, cs: seq<int>, shares: seq<nat>, modulus: int)
    requires modulus > 0 && |cs| <= n == |shares| && f == Factorial(n)
    requires forall i :: 0 <= i < n ==> shares[i] == Eval(cs, i + 1) % modulus
    ensures Cong(WeightedSum(f, n, shares, n), f * Eval(cs, 0), modulus)
  {
    var values := seq(n, i requires 0 <= i < n => Eval(cs, i + 1));
    forall i | 0 <= i < n
      ensures Cong(shares[i], values[i], modulus)
    {
      CongMod(Eval(cs, i + 1), modulus);
    }
    WeightedSumCong(f, n, shares, values, n, modulus);
    LagrangeAtZero(cs, f, n, values, 1);
  }

  // ---------------------------------------------------------------- the theorem

  // parts are the partial decryptions of c under all the shares, in order.
  predicate JointPartials(parts: seq<int>, c: int, pk: PubKey, shares: seq<nat>)
    requires pk.n2 > 0
  {
    |parts| == |shares| && forall i :: 0 <= i < |parts| ==> PartialDec(c, pk, shares[i]) == Ok(parts[i])
  }

  // The exponent that survives: product = c^Scale modulo N^2.
  lemma {:induction false} FusedExponent(n: nat, bits: nat, d: KeyDraw, parts: seq<int>, shares: seq<nat>, c: int, t: nat)
    returns (product: nat)
    requires GoodDraw(n, bits, d) && d.N() > 0 && d.N() * d.N() > 0 && d.N() * d.M() > 0
    requires |shares| == n && forall i :: 0 <= i < n ==> shares[i] == DealtShare(d, i)
    requires JointPartials(parts, c, DealtKey(n, d), shares)
    requires t == 2 * (d.N() * d.M()) && Unit(c, d.N() * d.N()) && Cong(Pow(c, t), 1, d.N() * d.N())
    ensures FuseProduct(parts, Factorial(n), d.N() * d.N(), |parts|) == Some(product)
    ensures product < d.N() * d.N() && Cong(product, Pow(c, Scale(n, d)), d.N() * d.N())
  {
    var f, k2, x := Factorial(n), d.N() * d.N(), d.M() * d.beta;
    var e := FuseExponent(parts, c, f, shares, k2, t, n);
    product := FuseProduct(parts, f, k2, n).value;
    SharesInterpolate(n, bits, d, shares);
    var sum := WeightedSum(f, n, shares, n);
    CongScale(sum, f * x, d.N() * d.M(), 2);
    CongMul(2 * f, 2 * f, sum * 2, (f * x) * 2, t);
    ScaleForm(f, sum, x);
    PowPeriodic(c, e, Scale(n, d), t, k2);
  }

  lemma {:induction false} ScaleForm(f: int, sum: int, x: int)
    ensures (2 * f) * (sum * 2) == 4 * f * sum
    ensures (2 * f) * ((f * x) * 2) == ((4 * f) * f) * x
  {
    assert (2 * f) * ((f * x) * 2) == 4 * (f * (f * x));
    Assoc(f, f, x);
    assert ((4 * f) * f) * x == (4 * (f * f)) * x;
  }

  // c^w for the surviving exponent w keeps only the message: c^w = 1 + (w*m)*N.
  lemma {:induction false} MessageSurvives(c: int, m: int, r: int, n: nat, w: nat, t: nat, u: nat)
    requires EncryptsWith(c, m, r, n) && n * w == t * u && Cong(Pow(r, t), 1, n * n)
    ensures Cong(Pow(c, w), 1 + (w * m) * n, n * n)
  {
    var a := 1 + m * n;
    CongPow(c, a * Pow(r, n), w, n * n);
    PowProduct(a, Pow(r, n), w);
    PowLinear(m, w, n);
    PowMul(r, n, w);
    PowMul(r, t, u);
    CongPow(Pow(r, t), 1, u, n * n);
    PowOne(u);
    CongMul(Pow(a, w), 1 + (w * m) * n, Pow(Pow(r, n), w), 1, n * n);
  }

  lemma {:induction false} MessageBelow(u: nat, n: nat)
    requires u < n && n > 1
    ensures 0 <= 1 + u * n < n * n
  {
    MulOrder(u, n - 1, n);
    assert (n - 1) * n == n * n - n;
  }

  // Reading the message out of product = 1 + v*N.
  lemma {:induction false} ReadMessage(product: nat, v: int, n: nat)
    requires n > 1 && product < n * n && n * n > 0 && Cong(product, 1 + v * n, n * n)
    ensures FloorDiv(product - 1, n) == v % n
  {
    var u := v % n;
    CongMod(v, n);
    MessageCong(u, v, n);
    MessageBelow(u, n);
    CongSmall(product, 1 + u * n, n * n);
    FloorDivExact(product - 1, u, n);
  }

  lemma MulOrder(a: int, b: int, c: int)
    requires a <= b && c >= 0
    ensures a * c <= b * c
  {
  }

  lemma {:induction false} UnscaleMessage(w: int, m: int, s: int, inv: int, n: nat)
    requires n > 0 && Cong(s, w, n) && Cong(s * inv, 1, n)
    ensures ((((w * m) % n) * inv) % n) == m % n
  {
    CongMod(w * m, n);
    CongMul((w * m) % n, w * m, inv, inv, n);
    CongMul(w, s, inv, inv, n);
    CongMul(w * inv, 1, m, m, n);
    assert (w * m) * inv == (w * inv) * m;
  }

  /** Threshold decryption is correct. */
  lemma {:induction false} FuseCorrect(n: nat, bits: nat, d: KeyDraw, shares: seq<nat>, c: int, m: int, parts: seq<int>)
    requires GoodDraw(n, bits, d) && d.N() * d.M() > 0 && d.N() > 0
    requires |shares| == n && forall i :: 0 <= i < n ==> shares[i] == DealtShare(d, i)
    requires Encrypts(c, m, d.N()) && DealtKey(n, d).n2 > 0
    requires JointPartials(parts, c, DealtKey(n, d), shares)
    ensures Fuse(parts, DealtKey(n, d)) == Ok(Signed(m % d.N(), d.N()))
  {
    var k, pk := d.N(), DealtKey(n, d);
    GoodDrawFacts(n, bits, d);
    var r, t := CiphertextOrder(n, bits, d, c, m);
    var w := Scale(n, d);
    var product := FusedExponent(n, bits, d, parts, shares, c, t);
    ScaleFactor(n, d, t);
    MessageSurvives(c, m, r, k, w, t, (2 * Factorial(n) * Factorial(n)) * d.beta);
    ReadMessage(product, w * m, k);
    ScaleUnit(n, bits, d);
    UnitCong(w, FuseScale(pk), k);
    UnscaleMessage(w, m, FuseScale(pk), InvMod(FuseScale(pk), k).value, k);
  }

  // A ciphertext and its randomness have order 2*N*m modulo N^2.
  lemma {:induction false} CiphertextOrder(n: nat, bits: nat, d: KeyDraw, c: int, m: int) returns (r: int, t: nat)
    requires GoodDraw(n, bits, d) && Encrypts(c, m, d.N())
    ensures EncryptsWith(c, m, r, d.N()) && t == 2 * (d.N() * d.M()) && d.N() * d.N() > 0
    ensures Unit(c, d.N() * d.N()) && Cong(Pow(c, t), 1, d.N() * d.N()) && Cong(Pow(r, t), 1, d.N() * d.N())
  {
    GoodDrawFacts(n, bits, d);
    var k := d.N();
    r :| EncryptsWith(c, m, r, k);
    CiphertextUnit(c, m, r, k);
    UnitDivisor(c, k, k);
    UnitOrder(d.pp, d.qq, c);
    UnitOrder(d.pp, d.qq, r);
    Assoc(2, k, d.M());
    t := 2 * (k * d.M());
  }

  lemma {:induction false} ScaleFactor(n: nat, d: KeyDraw, t: nat)
    requires t == 2 * (d.N() * d.M())
    ensures d.N() * Scale(n, d) == t * ((2 * Factorial(n) * Factorial(n)) * d.beta)
  {
    ExponentFactor(d.N(), Factorial(n), d.M(), d.beta);
  }

  lemma {:induction false} ExponentFactor(k: int, f: int, m: int, beta: int)
    ensures k * (((4 * f) * f) * (m * beta)) == (2 * (k * m)) * ((2 * f * f) * beta)
  {
    var g := 2 * f * f;
    assert (4 * f) * f == 2 * g;
    Assoc(2, g, m * beta);
    Swap4(k, g, m, beta);
    Assoc(k, g, m * beta);
    assert (k * m) * (g * beta) == k * (g * (m * beta));
  }

  // Messages small enough come back exactly.
  lemma {:induction false} SignedExact(m: int, n: nat)
    requires n > 0 && n % 2 == 1 && -(n as int) < 2 * m < n
    ensures Signed(m % n, n) == m
  {
    if m >= 0 {
      ModUnique(m, n, 0, m);
    } else {
      ModUnique(m, n, -1, m + n);
    }
  }

  lemma {:induction false} SignedRange(m: int, n: nat)
    requires n > 0 && n % 2 == 1
    ensures -(n - 1) / 2 <= Signed(m % n, n) <= (n - 1) / 2
    ensures Cong(Signed(m % n, n), m, n)
  {
    CongMod(m, n);
    var s := Signed(m % n, n);
    CongIntro(s, m % n, n, if m % n > n / 2 then -1 else 0);
  }

  lemma {:induction false} OddModulus(d: KeyDraw)
    ensures d.N() % 2 == 1
  {
    OddProduct(d.pp, d.qq);
  }

  lemma {:induction false} OddProduct(a: int, b: int)
    ensures ((2 * a + 1) * (2 * b + 1)) % 2 == 1
  {
    var w := a * b;
    assert (2 * a + 1) * (2 * b + 1) == 2 * (2 * w + a + b) + 1;
  }

  // ---------------------------------------------------------------- joint decryption

  // The key material of all n parties, as dealt from one draw.
  datatype Keys = Keys(pk: PubKey, shares: seq<nat>)

  ghost predicate DealtFrom(keys: Keys, n: nat, bits: nat, d: KeyDraw) {
    && GoodDraw(n, bits, d) && d.N() > 0 && d.N() * d.M() > 0
    && keys.pk == DealtKey(n, d)
    && |keys.shares| == n && forall i :: 0 <= i < n ==> keys.shares[i] == DealtShare(d, i)
  }

  ghost predicate Dealt(keys: Keys, n: nat) {
    exists bits: nat, d: KeyDraw :: DealtFrom(keys, n, bits, d)
  }

  lemma {:induction false} DealtFacts(keys: Keys, n: nat)
    requires Dealt(keys, n)
    ensures PublicKeyShape(keys.pk) && |keys.shares| == n >= 1 && keys.pk.n > 24 && keys.pk.n % 2 == 1
  {
    var bits: nat, d: KeyDraw :| DealtFrom(keys, n, bits, d);
    GoodDrawFacts(n, bits, d);
    OddModulus(d);
  }

  /** Every party partially decrypts c, party n-1 (the leader) last, and the leader fuses. */
  method JointDecrypt(c: nat, keys: Keys, ghost n: nat, ghost m: int) returns (v: int)
    requires Dealt(keys, n) && Encrypts(c, m, keys.pk.n)
    ensures keys.pk.n > 0 && v == Signed(m % keys.pk.n, keys.pk.n)
  {
    DealtFacts(keys, n);
    var parts: seq<int> := [];
    for i := 0 to |keys.shares|
      invariant |parts| == i
      invariant forall k :: 0 <= k < i ==> PartialDec(c, keys.pk, keys.shares[k]) == Ok(parts[k])
    {
      var part := PartialDec(c, keys.pk, keys.shares[i]);
      parts := parts + [part.value];
    }
    var r := FuseDec(parts, keys.pk);
    ghost var bits: nat, d: KeyDraw :| DealtFrom(keys, n, bits, d);
    FuseCorrect(n, bits, d, keys.shares, c, m, parts);
    v := r.value;
  }

  /** What distributedKeyGen deals for a good draw is key material joint decryption works with. */
  method GenerateKeys(n: nat, d: KeyDraw, ghost bits: nat) returns (keys: Keys)
    requires GoodDraw(n, bits, d)
    ensures Dealt(keys, n) && keys.pk.n == d.N()
  {
    GoodDrawFacts(n, bits, d);
    var r := DistributedKeyGen(n, d);
    keys := Keys(r.value.0, r.value.1);
    assert DealtFrom(keys, n, bits, d);
  }

  /** From key generation through encryption to joint decryption: the message comes back. */
  method ThresholdRoundTrip(n: nat, d: KeyDraw, m: int, r: nat, ghost bits: nat) returns (v: int)
    requires GoodDraw(n, bits, d) && PlainRange(m, d.N()) && CoprimeDraw(r, d.N())
    ensures d.N() > 0 && v == Signed(m % d.N(), d.N())
    ensures -(d.N() as int) < 2 * m < d.N() ==> v == m
  {
    var keys := GenerateKeys(n, d, bits);
    DealtFacts(keys, n);
    var c := Enc(m, keys.pk, r);
    EncCorrect(m, keys.pk, r);
    v := JointDecrypt(c.value, keys, n, m);
    if -(d.N() as int) < 2 * m < d.N() {
      SignedExact(m, d.N());
    }
  }

  // ---------------------------------------------------------------- chains of homomorphic operations

  // What a party can compute on ciphertexts, with the randomness it draws.
  datatype Chain =
    | Fresh(m: int, r: nat)
    | Plus(left: Chain, right: Chain)
    | Minus(left: Chain, right: Chain)
    | Times(c: Chain, k: int)
    | Refresh(c: Chain, r: nat)

  function Meaning(e: Chain): int {
    match e
    case Fresh(m, _) => m
    case Plus(a, b) => Meaning(a) + Meaning(b)
    case Minus(a, b) => Meaning(a) - Meaning(b)
    case Times(a, k) => Meaning(a) * k
    case Refresh(a, _) => Meaning(a)
  }

  function Run(e: Chain, pk: PubKey): Result<nat>
    requires pk.n2 > 0
  {
    match e
    case Fresh(m, r) => Enc(m, pk, r)
    case Plus(a, b) => var x :- Run(a, pk); var y :- Run(b, pk); Add(x, y, pk)
    case Minus(a, b) => var x :- Run(a, pk); var y :- Run(b, pk); Sub(x, y, pk)
    case Times(a, k) => var x :- Run(a, pk); Mul(x, k, pk)
    case Refresh(a, r) => var x :- Run(a, pk); Rerand(x, pk, r)
  }

  // Randomness randCoprime can return, plaintexts and scalars that normalize.
  predicate Executable(e: Chain, n: nat) {
    match e
    case Fresh(m, r) => PlainRange(m, n) && CoprimeDraw(r, n)
    case Plus(a, b) => Executable(a, n) && Executable(b, n)
    case Minus(a, b) => Executable(a, n) && Executable(b, n)
    case Times(a, k) => Executable(a, n) && PlainRange(k, n)
    case Refresh(a, r) => Executable(a, n) && CoprimeDraw(r, n)
  }

  // A chain runs its operations one by one, on the results of its parts, and means the same on integers.
  lemma {:induction false} ChainSteps(a: Chain, b: Chain, k: int, m: int, r: nat, pk: PubKey)
    requires pk.n2 > 0
    ensures Run(Fresh(m, r), pk) == Enc(m, pk, r) && Meaning(Fresh(m, r)) == m
    ensures Meaning(Plus(a, b)) == Meaning(a) + Meaning(b) && Meaning(Minus(a, b)) == Meaning(a) - Meaning(b)
    ensures Meaning(Chain.Times(a, k)) == Meaning(a) * k && Meaning(Refresh(a, r)) == Meaning(a)
    ensures Run(a, pk).Ok? ==> Run(Chain.Times(a, k), pk) == Mul(Run(a, pk).value, k, pk)
    ensures Run(a, pk).Ok? ==> Run(Refresh(a, r), pk) == Rerand(Run(a, pk).value, pk, r)
    ensures Run(a, pk).Ok? && Run(b, pk).Ok? ==> Run(Plus(a, b), pk) == Add(Run(a, pk).value, Run(b, pk).value, pk)
    ensures Run(a, pk).Ok? && Run(b, pk).Ok? ==> Run(Minus(a, b), pk) == Sub(Run(a, pk).value, Run(b, pk).value, pk)
  {
  }

  lemma {:induction false} ChainEncrypts(e: Chain, pk: PubKey)
    requires PublicKeyShape(pk) && Executable(e, pk.n)
    ensures Run(e, pk).Ok? && Encrypts(Run(e, pk).value, Meaning(e), pk.n)
  {
    match e
    case Fresh(m, r) => EncCorrect(m, pk, r);
    case Plus(a, b) =>
      ChainEncrypts(a, pk);
      ChainEncrypts(b, pk);
      AddCorrect(Run(a, pk).value, Meaning(a), Run(b, pk).value, Meaning(b), pk);
    case Minus(a, b) =>
      ChainEncrypts(a, pk);
      ChainEncrypts(b, pk);
      SubCorrect(Run(a, pk).value, Meaning(a), Run(b, pk).value, Meaning(b), pk);
    case Times(a, k) =>
      ChainEncrypts(a, pk);
      MulCorrect(Run(a, pk).value, Meaning(a), k, pk);
    case Refresh(a, r) =>
      ChainEncrypts(a, pk);
      RerandCorrect(Run(a, pk).value, Meaning(a), r, pk);
  }

  /** Any chain of operations never throws, and jointly decrypting its result gives the value
      of the same chain on plaintexts, reduced into [-(N-1)/2, (N-1)/2]. */
  lemma {:induction false} ChainDecrypts(e: Chain, keys: Keys, n: nat, parts: seq<int>)
    requires Dealt(keys, n) && keys.pk.n2 > 0 && keys.pk.n > 0 && Executable(e, keys.pk.n)
    requires Run(e, keys.pk).Ok? ==> JointPartials(parts, Run(e, keys.pk).value, keys.pk, keys.shares)
    ensures Fuse(parts, keys.pk).Ok?
    ensures var v := Fuse(parts, keys.pk).value;
            Cong(v, Meaning(e), keys.pk.n) && -(keys.pk.n - 1) / 2 <= v <= (keys.pk.n - 1) / 2
  {
    DealtFacts(keys, n);
    ChainEncrypts(e, keys.pk);
    var bits: nat, d: KeyDraw :| DealtFrom(keys, n, bits, d);
    FuseCorrect(n, bits, d, keys.shares, Run(e, keys.pk).value, Meaning(e), parts);
    SignedRange(Meaning(e), keys.pk.n);
  }
}
