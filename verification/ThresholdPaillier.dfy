/**
 Distributed key dealing and fused decryption: the Lagrange loop of fuseDec divides exactly, and its
 coefficients interpolate every dealt polynomial at zero. That fusing the partial decryptions of a
 ciphertext returns its plaintext is proved in FusionCorrectness.
 */
module ThresholdPaillier {
  import opened NumberTheory
  import opened Polynomials
  import opened Paillier

  // ---------------------------------------------------------------- alternating binomial sums

  function Sign(k: nat): int {
    if k % 2 == 0 then 1 else -1
  }

  // Sum over j < k of (-1)^j * C(n,j) * f(a+j), f the polynomial cs.
  function AltSum(cs: seq<int>, a: int, n: nat, k: nat): int {
    if k == 0 then 0
    else AltSum(cs, a, n, k - 1) + Sign(k - 1) * Choose(n, k - 1) * Eval(cs, a + k - 1)
  }

  lemma {:induction false} OnesStep(sum: int, next: int, c: int, s0: int, s: int, x: int, y: int, choose: int)
    requires s == -s0 && choose == x + y && sum == c * (s0 * x) && next == sum + s * choose * c
    ensures next == c * (s * y)
  {
    Distribute(s, x, y);
    Distribute(c, s * x, s * y);
    assert s * choose * c == c * (s * x) + c * (s * y);
    assert s0 * x == -(s * x);
  }

  // The sum for a constant polynomial.
  function Ones(c: int, n: nat, k: nat): int
    requires n >= 1 && k >= 1
  {
    c * (Sign(k - 1) * Choose(n - 1, k - 1))
  }

  lemma {:induction false} NextOnes(c: int, n: nat, k: nat, next: int)
    requires n >= 1 && k >= 1 && next == Ones(c, n, k) + Sign(k) * Choose(n, k) * c
    ensures next == Ones(c, n, k + 1)
  {
    OnesStep(Ones(c, n, k), next, c, Sign(k - 1), Sign(k), Choose(n - 1, k - 1), Choose(n - 1, k), Choose(n, k));
  }

  lemma {:induction false} AltOnes(c: int, a: int, n: nat, k: nat)
    requires n >= 1 && k >= 1
    ensures AltSum([c], a, n, k) == Ones(c, n, k)
  {
    EvalConstant(c, a + k - 1);
    AltStep([c], a, n, k - 1, c);
    if k == 1 {
      assert AltSum([c], a, n, 0) == 0;
    } else {
      AltOnes(c, a, n, k - 1);
      NextOnes(c, n, k - 1, AltSum([c], a, n, k));
    }
  }

  // Splitting off the constant term: f(x) = c + x*h(x).
  lemma {:induction false} AltSplit(cs: seq<int>, a: int, n: nat, k: nat)
    requires |cs| > 0 && n >= 1 && k >= 1
    ensures AltSum(cs, a, n, k)
         == AltSum([cs[0]], a, n, k) + a * AltSum(cs[1..], a, n, k) - n * AltSum(cs[1..], a + 1, n - 1, k - 1)
  {
    var h := cs[1..];
    var j := k - 1;
    var e := Eval(h, a + j);
    assert Eval(cs, a + j) == cs[0] + (a + j) * e;
    assert Eval([cs[0]], a + j) == cs[0];
    if k == 1 {
      AltTerm(1, 1, cs[0], a, 0, e, n, 0);
      assert AltSum(cs, a, n, 1) == cs[0] + a * e;
      assert AltSum([cs[0]], a, n, 1) == cs[0] && AltSum(h, a, n, 1) == e;
    } else {
      AltSplit(cs, a, n, k - 1);
      ChooseAbsorb(n, j);
      var s, c, c' := Sign(j), Choose(n, j), Choose(n - 1, j - 1);
      AltTerm(s, c, cs[0], a, j, e, n, c');
      AltUnfold(cs, h, a, n, j);
      AltCombine(AltSum([cs[0]], a, n, j), AltSum(h, a, n, j), AltSum(h, a + 1, n - 1, j - 1),
                 s * c * cs[0], s * c * e, s * c' * e, a, n);
    }
  }

  lemma {:induction false} AltUnfold(cs: seq<int>, h: seq<int>, a: int, n: nat, j: nat)
    requires |cs| > 0 && h == cs[1..] && n >= 1 && j >= 1
    ensures AltSum(cs, a, n, j + 1) == AltSum(cs, a, n, j) + Sign(j) * Choose(n, j) * (cs[0] + (a + j) * Eval(h, a + j))
    ensures AltSum([cs[0]], a, n, j + 1) == AltSum([cs[0]], a, n, j) + Sign(j) * Choose(n, j) * cs[0]
    ensures AltSum(h, a, n, j + 1) == AltSum(h, a, n, j) + Sign(j) * Choose(n, j) * Eval(h, a + j)
    ensures AltSum(h, a + 1, n - 1, j)
         == AltSum(h, a + 1, n - 1, j - 1) - Sign(j) * Choose(n - 1, j - 1) * Eval(h, a + j)
  {
    var x, e := a + j, Eval(h, a + j);
    AltStep(cs, a, n, j, cs[0] + x * e);
    AltStep([cs[0]], a, n, j, cs[0]);
    AltStep(h, a, n, j, e);
    AltStep(h, a + 1, n - 1, j - 1, e);
    assert Sign(j - 1) == -Sign(j);
    Assoc(-1, Sign(j), Choose(n - 1, j - 1));
    Assoc(-1, Sign(j) * Choose(n - 1, j - 1), e);
  }

  lemma AltStep(cs: seq<int>, a: int, n: nat, j: nat, e: int)
    requires Eval(cs, a + j) == e
    ensures AltSum(cs, a, n, j + 1) == AltSum(cs, a, n, j) + Sign(j) * Choose(n, j) * e
  {
  }

  lemma AltCombine(o: int, h: int, g: int, x: int, y: int, z: int, a: int, n: int)
    ensures (o + a * h - n * g) + (x + a * y + n * z) == (o + x) + a * (h + y) - n * (g - z)
  {
  }

  lemma {:induction false} AltTerm(s: int, c: int, c0: int, a: int, j: int, e: int, n: int, c': int)
    requires j * c == n * c'
    ensures s * c * (c0 + (a + j) * e) == s * c * c0 + a * (s * c * e) + n * (s * c' * e)
  {
    assert s * c * (j * e) == s * e * (j * c);
    assert n * (s * c' * e) == s * e * (n * c');
  }

  lemma {:induction false} AltEmpty(a: int, n: nat, k: nat)
    ensures AltSum([], a, n, k) == 0
  {
    if k > 0 { AltEmpty(a, n, k - 1); }
  }

  // The n-th finite difference of a polynomial of degree < n vanishes.
  lemma {:induction false} FiniteDifferenceVanishes(cs: seq<int>, a: int, n: nat)
    requires |cs| <= n
    ensures AltSum(cs, a, n, n + 1) == 0
    decreases |cs|
  {
    if |cs| == 0 {
      AltEmpty(a, n, n + 1);
    } else {
      assert AltSum([cs[0]], a, n, n + 1) == 0 by {
        AltOnes(cs[0], a, n, n + 1);
        ChooseBeyond(n - 1, n);
      }
      FiniteDifferenceVanishes(cs[1..], a, n);
      FiniteDifferenceVanishes(cs[1..], a + 1, n - 1);
      AltSplit(cs, a, n, n + 1);
    }
  }

  // ---------------------------------------------------------------- Lagrange coefficients

  // lambda of party i after the first t rounds of the inner loop of fuseDec.
  function LambdaPrefix(delta: int, i: nat, t: nat): int {
    if t == 0 then delta
    else if t - 1 == i then LambdaPrefix(delta, i, t - 1)
    else FloorDiv(LambdaPrefix(delta, i, t - 1) * t, (t - 1) - i)
  }

  function Lambda(delta: int, i: nat, n: nat): int {
    LambdaPrefix(delta, i, n)
  }

  lemma {:induction false} FloorDivExact(a: int, q: int, b: int)
    requires b != 0 && a == q * b
    ensures FloorDiv(a, b) == q
  {
    if b > 0 {
      ModUnique(a, b, q, 0);
    } else {
      assert -a == q * -b;
      ModUnique(-a, -b, q, 0);
    }
  }

  // The value of lambda after t rounds.
  lemma {:induction false} LambdaClosed(delta: int, i: nat, t: nat, q: int)
    requires delta == q * Factorial(i)
    ensures t <= i ==> LambdaPrefix(delta, i, t) * Choose(i, t) == Sign(t) * delta
    ensures t > i ==> LambdaPrefix(delta, i, t) == Sign(i) * delta * Choose(t, i + 1)
    decreases t, 1
  {
    if t > 0 {
      if t - 1 == i {
        LambdaClosed(delta, i, i, q);
        ChooseAll(i);
        ChooseAll(t);
        assert LambdaPrefix(delta, i, t) == LambdaPrefix(delta, i, i) == Sign(i) * delta;
      } else {
        LambdaExact(delta, i, t, q);
      }
    }
  }

  /** Every division in the inner loop is exact: what is divided equals the result times the divisor. */
  lemma {:induction false} LambdaExact(delta: int, i: nat, t: nat, q: int)
    requires delta == q * Factorial(i) && t >= 1 && t - 1 != i
    ensures LambdaPrefix(delta, i, t - 1) * t == LambdaPrefix(delta, i, t) * ((t - 1) - i)
    ensures t <= i ==> LambdaPrefix(delta, i, t) * Choose(i, t) == Sign(t) * delta
    ensures t > i ==> LambdaPrefix(delta, i, t) == Sign(i) * delta * Choose(t, i + 1)
    decreases t, 0
  {
    LambdaClosed(delta, i, t - 1, q);
    var prev := LambdaPrefix(delta, i, t - 1);
    var v: int;
    if t <= i {
      v := LowQuotient(prev, delta, i, t, q);
    } else {
      v := Sign(i) * delta * Choose(t, i + 1);
      HighChoose(t, i);
      HighStep(Sign(i) * delta, Choose(t - 1, i + 1), Choose(t, i + 1), t, t - 1 - i);
    }
    FloorDivExact(prev * t, v, t - 1 - i);
    assert LambdaPrefix(delta, i, t) == v;
  }

  // While t <= i the quotient is (-1)^t * delta / C(i,t), and C(i,t) divides delta.
  lemma {:induction false} LowQuotient(prev: int, delta: int, i: nat, t: nat, q: int) returns (v: int)
    requires delta == q * Factorial(i) && 1 <= t <= i
    requires prev * Choose(i, t - 1) == Sign(t - 1) * delta
    ensures prev * t == v * (t - 1 - i) && v * Choose(i, t) == Sign(t) * delta
  {
    var u := t - 1;
    var x := LowFacts(i, t);
    v := LowArithmetic(prev, delta, q, Factorial(i), x, Choose(i, t), Choose(i, u), Sign(t), Sign(u), t, i - u, u - i);
  }

  lemma {:induction false} LowFacts(i: nat, t: nat) returns (x: int)
    requires 1 <= t <= i
    ensures Choose(i, t) * x == Factorial(i) && Choose(i, t - 1) > 0
    ensures t * Choose(i, t) == (i - (t - 1)) * Choose(i, t - 1)
  {
    x := Factorial(t) * Factorial(i - t);
    ChooseFactorial(i, t);
    ChooseStep(i, t - 1);
    ChoosePositive(i, t - 1);
  }

  lemma {:induction false} LowArithmetic(prev: int, delta: int, q: int, fi: int, x: int, c: int, cu: int,
                      s: int, s': int, t: int, e: int, d: int)
    returns (v: int)
    requires delta == q * fi && c * x == fi && cu > 0 && t * c == e * cu && prev * cu == s' * delta
    requires s' == -s && d == -e
    ensures prev * t == v * d && v * c == s * delta
  {
    var f := q * x;
    Assoc(q, x, c);
    assert delta == f * c;
    v := s * f;
    LowStep(prev, cu, c, s, f, t, d);
    Assoc(s, f, c);
  }

  lemma {:induction false} LowStep(prev: int, cu: int, ct: int, s: int, f: int, t: int, d: int)
    requires cu > 0 && prev * cu == -s * (f * ct) && t * ct == -d * cu
    ensures prev * t == (s * f) * d
  {
    assert (prev * t) * cu == (prev * cu) * t;
    assert (prev * cu) * t == -s * f * (t * ct);
    assert -s * f * (-d * cu) == ((s * f) * d) * cu;
    CancelRight(prev * t, (s * f) * d, cu);
  }

  lemma {:induction false} CancelRight(a: int, b: int, c: int)
    requires c != 0 && a * c == b * c
    ensures a == b
  {
    assert (a - b) * c == 0;
  }

  lemma {:induction false} HighChoose(t: nat, i: nat)
    requires t > i + 1
    ensures t * Choose(t - 1, i + 1) == ((t - 1) - i) * Choose(t, i + 1)
  {
    ChooseAbsorb(t, i + 1);
    var a, b, c := Choose(t, i + 1), Choose(t - 1, i), Choose(t - 1, i + 1);
    assert a == b + c;
    assert (i + 1) * a == t * b;
    assert t * c == t * a - t * b;
    assert t * a - (i + 1) * a == (t - (i + 1)) * a;
  }

  lemma {:induction false} HighStep(s: int, cu: int, ct: int, t: int, d: int)
    requires t * cu == d * ct
    ensures (s * cu) * t == (s * ct) * d
  {
    Assoc(s, cu, t);
    Assoc(s, ct, d);
  }

  // The coefficients fuseDec uses: delta * (-1)^i * C(n, i+1).
  lemma {:induction false} LambdaValue(delta: int, i: nat, n: nat, q: int)
    requires i < n && delta == q * Factorial(n)
    ensures Lambda(delta, i, n) == Sign(i) * delta * Choose(n, i + 1)
  {
    var f := FactorialDivides(i, n);
    Assoc(q, f, Factorial(i));
    LambdaClosed(delta, i, n, q * f);
  }

  // Sum over i < k of lambda_i * values[i].
  function WeightedSum(delta: int, n: nat, values: seq<int>, k: nat): int
    requires k <= |values|
  {
    if k == 0 then 0 else WeightedSum(delta, n, values, k - 1) + Lambda(delta, k - 1, n) * values[k - 1]
  }

  /** Interpolation at zero: for every integer polynomial of degree < n,
      the weighted sum of its values at 1..n is delta times its value at 0. */
  lemma {:induction false} LagrangeAtZero(cs: seq<int>, delta: int, n: nat, values: seq<int>, q: int)
    requires |cs| <= n && delta == q * Factorial(n) && |values| == n
    requires forall i :: 0 <= i < n ==> values[i] == Eval(cs, i + 1)
    ensures WeightedSum(delta, n, values, n) == delta * Eval(cs, 0)
  {
    LagrangePartial(cs, delta, n, values, q, n);
    FiniteDifferenceVanishes(cs, 0, n);
  }

  lemma {:induction false} LagrangePartial(cs: seq<int>, delta: int, n: nat, values: seq<int>, q: int, k: nat)
    requires delta == q * Factorial(n) && |values| == n && k <= n
    requires forall i :: 0 <= i < n ==> values[i] == Eval(cs, i + 1)
    ensures WeightedSum(delta, n, values, k) == delta * (Eval(cs, 0) - AltSum(cs, 0, n, k + 1))
  {
    if k == 0 {
      assert AltSum(cs, 0, n, 0) == 0;
      assert AltSum(cs, 0, n, 1) == Eval(cs, 0);
    } else {
      LagrangePartial(cs, delta, n, values, q, k - 1);
      LambdaValue(delta, k - 1, n, q);
      var e := Eval(cs, k);
      AltStep(cs, 0, n, k, e);
      SumStep(delta, Eval(cs, 0), AltSum(cs, 0, n, k), AltSum(cs, 0, n, k + 1), Sign(k - 1), Sign(k), Choose(n, k), e,
              WeightedSum(delta, n, values, k - 1), WeightedSum(delta, n, values, k));
    }
  }

  lemma {:induction false} SumStep(delta: int, f0: int, a: int, a': int, s0: int, s: int, c: int, e: int, sum: int, sum': int)
    requires s0 == -s && a' == a + s * c * e && sum == delta * (f0 - a) && sum' == sum + (s0 * delta * c) * e
    ensures sum' == delta * (f0 - a')
  {
    assert (-s * delta * c) * e == -(delta * (s * c * e));
  }

  // ---------------------------------------------------------------- dealing the key

  /** The random choices of distributedKeyGen: two Germain primes, beta, and the
      higher coefficients of the sharing polynomial. */
  datatype KeyDraw = KeyDraw(pp: nat, qq: nat, beta: nat, higher: seq<nat>) {
    function P(): nat { 2 * pp + 1 }
    function Q(): nat { 2 * qq + 1 }
    function N(): nat { P() * Q() }
    function M(): nat { pp * qq }

    // The sharing polynomial; its constant term is the shared secret beta * m.
    function Coefficients(): seq<int>
      requires N() * M() > 0
    {
      [(beta * M()) % (N() * M())] + higher
    }
  }

  // Draws the generator can make for n parties and primes of `bits` bits each.
  ghost predicate DrawShape(n: nat, bits: nat, d: KeyDraw) {
    && n >= 1 && bits >= 2
    && Prime(d.pp) && Prime(d.P()) && Prime(d.qq) && Prime(d.Q()) && d.pp != d.qq
    && Pow(2, bits - 1) <= d.pp < Pow(2, bits) && Pow(2, bits - 1) <= d.qq < Pow(2, bits)
    && CoprimeDraw(d.beta, d.N())
    && |d.higher| == n - 1 && (forall i :: 0 <= i < n - 1 ==> d.higher[i] < d.N() * d.M())
  }

  // The draws for which n! is invertible modulo N: fewer parties than either prime factor.
  ghost predicate GoodDraw(n: nat, bits: nat, d: KeyDraw) {
    DrawShape(n, bits, d) && n < d.P() && n < d.Q()
  }

  function DealtKey(n: nat, d: KeyDraw): PubKey
    requires d.N() > 0
  {
    PubKey(d.N(), d.N() * d.N(), d.N() + 1, (d.M() * d.beta) % d.N(), Factorial(n))
  }

  // Share i is the sharing polynomial at i+1 modulo N*m.
  function DealtShare(d: KeyDraw, i: nat): nat
    requires d.N() * d.M() > 0
  {
    Eval(d.Coefficients(), i + 1) % (d.N() * d.M())
  }

  lemma PositiveProduct(a: int, b: int)
    requires a > 0 && b > 0
    ensures a * b > 0
  {
  }

  method FactorialLoop(n: int) returns (result: int)
    ensures result == if n < 0 then 1 else Factorial(n)
  {
    result := 1;
    assert Factorial(0) == 1 && Factorial(1) == 1;
    var i := 2;
    while i <= n
      invariant 2 <= i
      invariant i <= n + 1 || i == 2
      invariant result == Factorial(i - 1)
    {
      result := result * i;
      i := i + 1;
    }
    if n >= 2 {
      assert i - 1 == n;
    } else if n >= 0 {
      assert i == 2;
    }
  }

  /** distributedKeyGen: the share loop keeps a running power of the evaluation point,
      reduced at every step, and still deals values of the sharing polynomial. */
  method DistributedKeyGen(n: int, d: KeyDraw) returns (r: Result<(PubKey, seq<nat>)>)
    requires d.pp > 0 && d.qq > 0 && (n > 0 ==> |d.higher| == n - 1)
    ensures r.Err? <==> n <= 0
    ensures r.Ok? ==> d.N() > 0 && d.N() * d.M() > 0 && r.value.0 == DealtKey(n, d)
    ensures r.Ok? ==> |r.value.1| == n && forall i :: 0 <= i < n ==> r.value.1[i] == DealtShare(d, i)
    ensures r.Ok? ==> var (pk, shares) := r.value;
      && pk.n == (2 * d.pp + 1) * (2 * d.qq + 1) && pk.n2 == pk.n * pk.n && pk.g == pk.n + 1 && pk.n > 0 && d.pp * d.qq > 0
      && pk.theta == (d.pp * d.qq * d.beta) % pk.n && pk.delta == Factorial(n) && |shares| == n
    ensures r.Ok? ==> var modulus := ((2 * d.pp + 1) * (2 * d.qq + 1)) * (d.pp * d.qq);
      modulus > 0 && forall i :: 0 <= i < n ==>
        r.value.1[i] == Eval([(d.beta * (d.pp * d.qq)) % modulus] + d.higher, i + 1) % modulus
  {
    if n <= 0 {
      return Err("n must be > 0");
    }
    PositiveProduct(d.P(), d.Q());
    PositiveProduct(d.pp, d.qq);
    PositiveProduct(d.N(), d.M());
    var modulus := d.N() * d.M();
    var delta := FactorialLoop(n);
    var pk := PubKey(d.N(), d.N() * d.N(), d.N() + 1, (d.M() * d.beta) % d.N(), delta);
    var coefficients := [(d.beta * d.M()) % modulus] + d.higher;
    var sks: seq<nat> := [];
    for i := 0 to n
      invariant |sks| == i && forall k :: 0 <= k < i ==> sks[k] == DealtShare(d, k)
    {
      var key, xPower := 0, 1;
      CongMod(1, modulus);
      for j := 0 to n
        invariant 0 <= key < modulus && Cong(key, Eval(coefficients[..j], i + 1), modulus)
        invariant Cong(xPower, Pow(i + 1, j), modulus)
      {
        RunningPowers(coefficients, i + 1, j, key, xPower, modulus);
        CongMod(key + coefficients[j] * xPower, modulus);
        key := (key + coefficients[j] * xPower) % modulus;
        xPower := (xPower * (i + 1)) % modulus;
      }
      assert coefficients[..n] == coefficients == d.Coefficients();
      ModUnique(key, modulus, 0, key);
      sks := sks + [key];
    }
    r := Ok((pk, sks));
  }

  // ---------------------------------------------------------------- fusing

  function FuseProduct(parts: seq<int>, delta: int, n2: nat, k: nat): Option<int>
    requires n2 > 0 && k <= |parts|
  {
    if k == 0 then Some(1)
    else match FuseProduct(parts, delta, n2, k - 1)
      case None => None
      case Some(product) =>
        match PowerMod(parts[k - 1], 2 * Lambda(delta, k - 1, |parts|), n2)
        case None => None
        case Some(term) => Some((product * term) % n2)
  }

  // The constant 4 * delta^2 * theta that fuseDec divides out.
  function FuseScale(pk: PubKey): nat
    requires pk.n > 0
  {
    (((4 * pk.delta * pk.delta) % pk.n) * pk.theta) % pk.n
  }

  function Fuse(parts: seq<int>, pk: PubKey): Result<int>
    requires pk.n > 0 && pk.n2 > 0
  {
    if |parts| == 0 then Err("no partial decryptions provided")
    else match FuseProduct(parts, pk.delta, pk.n2, |parts|)
      case None => Err("PowerMod: inverse undefined")
      case Some(product) =>
        match InvMod(FuseScale(pk), pk.n)
        case None => Err("InvMod: inverse undefined")
        case Some(inv) => Ok(Signed((FloorDiv(product - 1, pk.n) * inv) % pk.n, pk.n))
  }

  method FuseDec(parts: seq<int>, pk: PubKey) returns (r: Result<int>)
    requires pk.n > 0 && pk.n2 > 0
    ensures r == Fuse(parts, pk)
    ensures r.Ok? <==> |parts| > 0 && AllPowers(parts, pk.delta, pk.n2, |parts|) && Unit(4 * pk.delta * pk.delta * pk.theta, pk.n)
  {
    FuseSucceeds(parts, pk);
    var n := |parts|;
    if n == 0 {
      return Err("no partial decryptions provided");
    }
    var lambdas: seq<int> := [];
    for i := 0 to n
      invariant |lambdas| == i && forall k :: 0 <= k < i ==> lambdas[k] == Lambda(pk.delta, k, n)
    {
      var lambda: int := pk.delta;
      for j := 0 to n
        invariant lambda == LambdaPrefix(pk.delta, i, j)
      {
        if i != j {
          var xi, xj := i + 1, j + 1;
          lambda := lambda * xj;
          lambda := FloorDiv(lambda, xj - xi);
        }
      }
      lambdas := lambdas + [lambda];
    }
    var product := 1;
    for i := 0 to n
      invariant FuseProduct(parts, pk.delta, pk.n2, i) == Some(product)
    {
      var exponent := 2 * lambdas[i];
      var term := PowerMod(parts[i], exponent, pk.n2);
      if term.None? {
        FuseProductNone(parts, pk.delta, pk.n2, i + 1, n);
        return Err("PowerMod: inverse undefined");
      }
      product := (product * term.value) % pk.n2;
    }
    var l := FloorDiv(product - 1, pk.n);
    var invTemp := (4 * pk.delta * pk.delta) % pk.n;
    invTemp := (invTemp * pk.theta) % pk.n;
    var inv := InvMod(invTemp, pk.n);
    if inv.None? {
      return Err("InvMod: inverse undefined");
    }
    var m := (l * inv.value) % pk.n;
    r := Ok(Signed(m, pk.n));
  }

  // All powers the fusion takes exist: those with a negative exponent need an inverse.
  ghost predicate AllPowers(parts: seq<int>, delta: int, n2: nat, k: nat)
    requires n2 > 0 && k <= |parts|
  {
    forall i :: 0 <= i < k ==> Lambda(delta, i, |parts|) >= 0 || Unit(parts[i], n2)
  }

  lemma {:induction false} ProductExists(parts: seq<int>, delta: int, n2: nat, k: nat)
    requires n2 > 0 && k <= |parts|
    ensures FuseProduct(parts, delta, n2, k).Some? <==> AllPowers(parts, delta, n2, k)
  {
    if k > 0 {
      ProductExists(parts, delta, n2, k - 1);
    }
  }

  /** Fusing succeeds exactly for some parts whose powers all exist, and when 4 delta^2 theta is invertible. */
  lemma {:induction false} FuseSucceeds(parts: seq<int>, pk: PubKey)
    requires pk.n > 0 && pk.n2 > 0
    ensures Fuse(parts, pk).Ok? <==>
      |parts| > 0 && AllPowers(parts, pk.delta, pk.n2, |parts|) && Unit(4 * pk.delta * pk.delta * pk.theta, pk.n)
  {
    ProductExists(parts, pk.delta, pk.n2, |parts|);
    var x := 4 * pk.delta * pk.delta;
    ScaleResidue(x, pk.theta, pk.n);
    if Unit(x * pk.theta, pk.n) { UnitCong(x * pk.theta, FuseScale(pk), pk.n); }
    if Unit(FuseScale(pk), pk.n) { UnitCong(FuseScale(pk), x * pk.theta, pk.n); }
  }

  lemma {:induction false} ScaleResidue(x: int, theta: int, n: nat)
    requires n > 0
    ensures Cong(((x % n) * theta) % n, x * theta, n)
  {
    CongMod(x, n);
    CongMul(x % n, x, theta, theta, n);
    CongMod((x % n) * theta, n);
  }

  /** Every part contributes its power: the part to twice its coefficient, divided out for a negative one. */
  lemma {:induction false} ProductGrows(parts: seq<int>, delta: int, n2: nat, k: nat)
    requires n2 > 0 && k < |parts| && FuseProduct(parts, delta, n2, k + 1).Some?
    ensures FuseProduct(parts, delta, n2, 0) == Some(1) && FuseProduct(parts, delta, n2, k).Some?
    ensures var e, v, w := 2 * Lambda(delta, k, |parts|), FuseProduct(parts, delta, n2, k).value, FuseProduct(parts, delta, n2, k + 1).value;
      if e >= 0 then Cong(w, v * Pow(parts[k], e), n2) else Cong(w * Pow(parts[k], -e), v, n2)
  {
    var e, v := 2 * Lambda(delta, k, |parts|), FuseProduct(parts, delta, n2, k).value;
    var term := PowerMod(parts[k], e, n2).value;
    CongMod(v * term, n2);
    if e >= 0 {
      CongMod(Pow(parts[k], e), n2);
      CongMul(v, v, term, Pow(parts[k], e), n2);
    } else {
      DividedOut(parts[k], InvMod(parts[k], n2).value, -e, v, term, n2);
    }
  }

  lemma {:induction false} DividedOut(a: int, inv: int, e: nat, v: int, term: int, n2: nat)
    requires n2 > 0 && Cong(a * inv, 1, n2) && term == Pow(inv, e) % n2
    ensures Cong(((v * term) % n2) * Pow(a, e), v, n2)
  {
    var p := Pow(a, e);
    CongMod(v * term, n2);
    CongMul((v * term) % n2, v * term, p, p, n2);
    CongMod(Pow(inv, e), n2);
    PowProduct(a, inv, e);
    CongPow(a * inv, 1, e, n2);
    PowOne(e);
    CongMul(p, p, term, Pow(inv, e), n2);
    assert (v * term) * p == v * (p * term) by { Assoc(v, term, p); }
    CongMul(v, v, p * term, 1, n2);
  }

  lemma {:induction false} FuseProductNone(parts: seq<int>, delta: int, n2: nat, k: nat, n: nat)
    requires n2 > 0 && k <= n <= |parts| && FuseProduct(parts, delta, n2, k).None?
    ensures FuseProduct(parts, delta, n2, n).None?
  {
    if k < n { FuseProductNone(parts, delta, n2, k, n - 1); }
  }
}
