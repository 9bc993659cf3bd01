/**
 Polynomials as coefficient sequences [a0, a1, ..., ad]: evaluation, the arithmetic that the
 C++ Polynomial struct performs in place, and what differentiation does to repeated roots.
 */
module Polynomials {
  import opened NumberTheory

  // ---------------------------------------------------------------- evaluation

  function Eval(cs: seq<int>, x: int): int {
    if |cs| == 0 then 0 else cs[0] + x * Eval(cs[1..], x)
  }

  lemma {:induction false} EvalConstant(c: int, x: int)
    ensures Eval([c], x) == c
  {
    assert Eval([c][1..], x) == 0;
  }

  lemma {:induction false} EvalLinear(a: int, x: int)
    ensures Eval([-a, 1], x) == x - a
  {
    EvalConstant(1, x);
    assert [-a, 1][1..] == [1];
  }

  lemma {:induction false} EvalConcat(a: seq<int>, b: seq<int>, x: int)
    ensures Eval(a + b, x) == Eval(a, x) + Pow(x, |a|) * Eval(b, x)
  {
    if |a| == 0 {
      assert a + b == b;
    } else {
      assert (a + b)[1..] == a[1..] + b;
      EvalConcat(a[1..], b, x);
      Distribute(x, Eval(a[1..], x), Pow(x, |a| - 1) * Eval(b, x));
      Assoc(x, Pow(x, |a| - 1), Eval(b, x));
    }
  }

  lemma {:induction false} EvalSnoc(a: seq<int>, c: int, x: int)
    ensures Eval(a + [c], x) == Eval(a, x) + c * Pow(x, |a|)
  {
    EvalConcat(a, [c], x);
    assert Eval([c], x) == c;
  }

  // Coefficient i, zero beyond the end.
  function At(cs: seq<int>, i: int): int {
    if 0 <= i < |cs| then cs[i] else 0
  }

  function EvalSum(cs: seq<int>, x: int, n: nat): int {
    if n == 0 then 0 else EvalSum(cs, x, n - 1) + At(cs, n - 1) * Pow(x, n - 1)
  }

  // Evaluation depends on the coefficient function only.
  lemma {:induction false} EvalIsSum(cs: seq<int>, x: int, n: nat)
    ensures n <= |cs| ==> EvalSum(cs, x, n) == Eval(cs[..n], x)
    ensures n >= |cs| ==> EvalSum(cs, x, n) == Eval(cs, x)
  {
    if n > 0 {
      EvalIsSum(cs, x, n - 1);
      if n <= |cs| {
        assert cs[..n] == cs[..n - 1] + [cs[n - 1]];
        EvalSnoc(cs[..n - 1], cs[n - 1], x);
      }
    }
    if n == |cs| { assert cs[..n] == cs; }
  }

  // Coefficientwise congruence, whatever the lengths.
  ghost predicate Similar(a: seq<int>, b: seq<int>, n: int)
    requires n > 0
  {
    forall i: nat :: Cong(At(a, i), At(b, i), n)
  }

  ghost predicate Same(a: seq<int>, b: seq<int>) {
    forall i: nat :: At(a, i) == At(b, i)
  }

  lemma {:induction false} SimilarSum(a: seq<int>, b: seq<int>, x: int, y: int, k: nat, n: int)
    requires n > 0 && Similar(a, b, n) && Cong(x, y, n)
    ensures Cong(EvalSum(a, x, k), EvalSum(b, y, k), n)
  {
    if k > 0 {
      SimilarSum(a, b, x, y, k - 1, n);
      CongPow(x, y, k - 1, n);
      CongMul(At(a, k - 1), At(b, k - 1), Pow(x, k - 1), Pow(y, k - 1), n);
      CongAdd(EvalSum(a, x, k - 1), EvalSum(b, y, k - 1),
              At(a, k - 1) * Pow(x, k - 1), At(b, k - 1) * Pow(y, k - 1), n);
    }
  }

  lemma {:induction false} SimilarEval(a: seq<int>, b: seq<int>, x: int, y: int, n: int)
    requires n > 0 && Similar(a, b, n) && Cong(x, y, n)
    ensures Cong(Eval(a, x), Eval(b, y), n)
  {
    var k := |a| + |b|;
    EvalIsSum(a, x, k);
    EvalIsSum(b, y, k);
    SimilarSum(a, b, x, y, k, n);
  }

  predicate CongPoly(a: seq<int>, b: seq<int>, n: int)
    requires n > 0
  {
    |a| == |b| && forall i :: 0 <= i < |a| ==> Cong(a[i], b[i], n)
  }

  // ---------------------------------------------------------------- sum, product, derivative

  function Max(a: nat, b: nat): nat {
    if a > b then a else b
  }

  function Sum(a: seq<int>, b: seq<int>): (r: seq<int>)
    ensures |r| == Max(|a|, |b|) && forall i :: 0 <= i < |r| ==> r[i] == At(a, i) + At(b, i)
  {
    seq(Max(|a|, |b|), i => At(a, i) + At(b, i))
  }

  // Sum over i < n of a[i] * b[k-i].
  function ConvSum(a: seq<int>, b: seq<int>, k: int, n: nat): int
    requires n <= |a|
  {
    if n == 0 then 0 else ConvSum(a, b, k, n - 1) + a[n - 1] * At(b, k - (n - 1))
  }

  function Product(a: seq<int>, b: seq<int>): (r: seq<int>) {
    if |a| == 0 || |b| == 0 then [0]
    else seq(|a| + |b| - 1, k => ConvSum(a, b, k, |a|))
  }

  function Derivative(cs: seq<int>): (r: seq<int>) {
    if |cs| <= 1 then [0]
    else seq(|cs| - 1, i requires 0 <= i < |cs| - 1 => cs[i + 1] * (i + 1))
  }

  function DerivativeN(cs: seq<int>, k: nat): seq<int> {
    if k == 0 then cs else Derivative(DerivativeN(cs, k - 1))
  }

  /** The coefficients of the k-th derivative: i! times the i-th is (i + k)! times coefficient i + k. */
  lemma {:induction false} DerivativeCoefficients(cs: seq<int>, k: nat, i: nat)
    ensures Factorial(i) * At(DerivativeN(cs, k), i) == Factorial(i + k) * At(cs, i + k)
  {
    if k > 0 {
      var j, l := i + 1, k - 1;
      DerivativeCoefficients(cs, l, j);
      assert j + l == i + k;
      AtDerivative(DerivativeN(cs, l), i);
      FactorStep(Factorial(i), Factorial(j), i, At(DerivativeN(cs, l), j), At(DerivativeN(cs, k), i));
    }
  }

  lemma {:induction false} FactorStep(f: int, f': int, i: int, a: int, d: int)
    requires f' == (i + 1) * f && d == a * (i + 1)
    ensures f * d == f' * a
  {
    Assoc(f, a, i + 1);
  }

  lemma {:induction false} SumEvalSum(a: seq<int>, b: seq<int>, x: int, n: nat)
    ensures EvalSum(Sum(a, b), x, n) == EvalSum(a, x, n) + EvalSum(b, x, n)
  {
    if n > 0 {
      SumEvalSum(a, b, x, n - 1);
      assert At(Sum(a, b), n - 1) == At(a, n - 1) + At(b, n - 1);
      Distribute(Pow(x, n - 1), At(a, n - 1), At(b, n - 1));
    }
  }

  lemma {:induction false} EvalOfSum(a: seq<int>, b: seq<int>, x: int)
    ensures Eval(Sum(a, b), x) == Eval(a, x) + Eval(b, x)
  {
    var n := |a| + |b|;
    SumEvalSum(a, b, x, n);
    EvalIsSum(a, x, n);
    EvalIsSum(b, x, n);
    EvalIsSum(Sum(a, b), x, n);
  }

  // Outside the product's length every convolution sum is zero.
  lemma {:induction false} ConvSumBeyond(a: seq<int>, b: seq<int>, k: int, n: nat)
    requires n <= |a| && (k < 0 || |b| == 0 || k >= n + |b| - 1)
    ensures ConvSum(a, b, k, n) == 0
  {
    if n > 0 {
      ConvSumBeyond(a, b, k, n - 1);
    }
  }

  lemma {:induction false} AtProduct(a: seq<int>, b: seq<int>, k: nat)
    ensures At(Product(a, b), k) == ConvSum(a, b, k, |a|)
  {
    if |a| == 0 {
    } else if |b| == 0 || k >= |a| + |b| - 1 {
      ConvSumBeyond(a, b, k, |a|);
    }
  }

  lemma AtDerivative(cs: seq<int>, i: nat)
    ensures At(Derivative(cs), i) == At(cs, i + 1) * (i + 1)
  {
  }

  // Sum over k < m of ConvSum(a,b,k,n) * x^k.
  function ConvEval(a: seq<int>, b: seq<int>, x: int, n: nat, m: nat): int
    requires n <= |a|
  {
    if m == 0 then 0 else ConvEval(a, b, x, n, m - 1) + ConvSum(a, b, m - 1, n) * Pow(x, m - 1)
  }

  // Sum over k < m of b[k-s] * x^k: b shifted by s.
  function ShiftEval(b: seq<int>, x: int, s: nat, m: nat): int {
    if m == 0 then 0 else ShiftEval(b, x, s, m - 1) + At(b, m - 1 - s) * Pow(x, m - 1)
  }

  lemma {:induction false} ShiftEvalValue(b: seq<int>, x: int, s: nat, m: nat)
    ensures ShiftEval(b, x, s, m) == if m <= s then 0 else Pow(x, s) * EvalSum(b, x, m - s)
  {
    if m > 0 {
      ShiftEvalValue(b, x, s, m - 1);
      if m > s {
        var i := m - 1 - s;
        PowAdd(x, s, i);
        ShiftTerm(ShiftEval(b, x, s, m - 1), Pow(x, s), EvalSum(b, x, i), At(b, i), Pow(x, i));
      }
    }
  }

  lemma {:induction false} ShiftTerm(shifted: int, p: int, sum: int, c: int, e: int)
    requires shifted == p * sum
    ensures shifted + c * (p * e) == p * (sum + c * e)
  {
    Distribute(p, sum, c * e);
    Assoc(c, p, e);
    Assoc(p, c, e);
  }

  lemma {:induction false} ConvEvalStep(a: seq<int>, b: seq<int>, x: int, n: nat, m: nat)
    requires 0 < n <= |a|
    ensures ConvEval(a, b, x, n, m) == ConvEval(a, b, x, n - 1, m) + a[n - 1] * ShiftEval(b, x, n - 1, m)
  {
    if m > 0 {
      ConvEvalStep(a, b, x, n, m - 1);
      var k := m - 1;
      var c, at, p := ConvSum(a, b, k, n - 1), At(b, k - (n - 1)), Pow(x, k);
      ConvTerm(c, a[n - 1], at, p, ShiftEval(b, x, n - 1, k));
    }
  }

  lemma {:induction false} ConvTerm(c: int, an: int, at: int, p: int, s: int)
    ensures (c + an * at) * p == c * p + an * (at * p)
    ensures an * (s + at * p) == an * s + an * (at * p)
  {
    Assoc(an, at, p);
  }

  lemma {:induction false} ConvEvalValue(a: seq<int>, b: seq<int>, x: int, n: nat, m: nat)
    requires n <= |a| && m >= |a| + |b|
    ensures ConvEval(a, b, x, n, m) == EvalSum(a, x, n) * Eval(b, x)
  {
    if n == 0 {
      ConvEvalZero(a, b, x, m);
    } else {
      ConvEvalValue(a, b, x, n - 1, m);
      ConvEvalStep(a, b, x, n, m);
      ShiftEvalValue(b, x, n - 1, m);
      EvalIsSum(b, x, m - (n - 1));
      var e, p, y := EvalSum(a, x, n - 1), Pow(x, n - 1), Eval(b, x);
      Assoc(a[n - 1], p, y);
      Distribute(y, e, a[n - 1] * p);
    }
  }

  lemma {:induction false} ConvEvalZero(a: seq<int>, b: seq<int>, x: int, m: nat)
    ensures ConvEval(a, b, x, 0, m) == 0
  {
    if m > 0 { ConvEvalZero(a, b, x, m - 1); }
  }

  lemma {:induction false} ConvEvalIsEval(a: seq<int>, b: seq<int>, x: int, m: nat)
    ensures ConvEval(a, b, x, |a|, m) == EvalSum(Product(a, b), x, m)
  {
    if m > 0 {
      ConvEvalIsEval(a, b, x, m - 1);
      AtProduct(a, b, m - 1);
    }
  }

  // Multiplying coefficient sequences multiplies the polynomials they denote.
  lemma {:induction false} EvalOfProduct(a: seq<int>, b: seq<int>, x: int)
    ensures Eval(Product(a, b), x) == Eval(a, x) * Eval(b, x)
  {
    var m := |a| + |b| + 1;
    ConvEvalIsEval(a, b, x, m);
    ConvEvalValue(a, b, x, |a|, m);
    EvalIsSum(Product(a, b), x, m);
    EvalIsSum(a, x, |a|);
  }

  // ---------------------------------------------------------------- congruence of operations

  lemma {:induction false} ConvSumSimilar(a: seq<int>, a': seq<int>, b: seq<int>, b': seq<int>, k: int, m: nat, n: int)
    requires n > 0 && Similar(a, a', n) && Similar(b, b', n) && m <= |a| && |a| == |a'|
    ensures Cong(ConvSum(a, b, k, m), ConvSum(a', b', k, m), n)
  {
    if m > 0 {
      ConvSumSimilar(a, a', b, b', k, m - 1, n);
      var i := m - 1;
      assert Cong(At(a, i), At(a', i), n);
      assert Cong(At(b, k - i), At(b', k - i), n) by {
        if k - i >= 0 { var j: nat := k - i; assert Cong(At(b, j), At(b', j), n); }
      }
      CongMul(a[i], a'[i], At(b, k - i), At(b', k - i), n);
      CongAdd(ConvSum(a, b, k, i), ConvSum(a', b', k, i), a[i] * At(b, k - i), a'[i] * At(b', k - i), n);
    }
  }

  lemma {:induction false} ProductSimilar(a: seq<int>, a': seq<int>, b: seq<int>, b': seq<int>, n: int)
    requires n > 0 && Similar(a, a', n) && Similar(b, b', n) && |a| == |a'|
    ensures Similar(Product(a, b), Product(a', b'), n)
  {
    forall k: nat
      ensures Cong(At(Product(a, b), k), At(Product(a', b'), k), n)
    {
      AtProduct(a, b, k);
      AtProduct(a', b', k);
      ConvSumSimilar(a, a', b, b', k, |a|, n);
    }
  }

  lemma {:induction false} DerivativeSimilar(a: seq<int>, b: seq<int>, n: int)
    requires n > 0 && Similar(a, b, n)
    ensures Similar(Derivative(a), Derivative(b), n)
  {
    forall i: nat
      ensures Cong(At(Derivative(a), i), At(Derivative(b), i), n)
    {
      AtDerivative(a, i);
      AtDerivative(b, i);
      assert Cong(At(a, i + 1), At(b, i + 1), n);
      CongMul(At(a, i + 1), At(b, i + 1), i + 1, i + 1, n);
    }
  }

  lemma {:induction false} DerivativeNSimilar(a: seq<int>, b: seq<int>, k: nat, n: int)
    requires n > 0 && Similar(a, b, n)
    ensures Similar(DerivativeN(a, k), DerivativeN(b, k), n)
  {
    if k > 0 {
      DerivativeNSimilar(a, b, k - 1, n);
      DerivativeSimilar(DerivativeN(a, k - 1), DerivativeN(b, k - 1), n);
    }
  }

  // ---------------------------------------------------------------- Leibniz rule

  lemma {:induction false} LeibnizTerm(k: int, c: int, d: int, e: int, i: int, ai: int, bi: int, c': int, d': int, e': int)
    requires d + e == (k + 1) * c
    requires c' == c + ai * bi && d' == d + ai * i * bi && e' == e + ai * (bi * (k + 1 - i))
    ensures d' + e' == (k + 1) * c'
  {
    assert ai * i * bi + ai * (bi * (k + 1 - i)) == (k + 1) * (ai * bi);
    Distribute(k + 1, c, ai * bi);
  }

  lemma {:induction false} LeibnizSum(a: seq<int>, b: seq<int>, k: nat, n: nat)
    requires 0 < n <= |a| && |a| >= 2
    ensures ConvSum(Derivative(a), b, k, n - 1) + ConvSum(a, Derivative(b), k, n) == (k + 1) * ConvSum(a, b, k + 1, n)
  {
    if n == 1 {
      LeibnizFirst(a, b, k);
    } else {
      var c, d, e := ConvSum(a, b, k + 1, n - 1), ConvSum(Derivative(a), b, k, n - 2), ConvSum(a, Derivative(b), k, n - 1);
      var c', d', e' := ConvSum(a, b, k + 1, n), ConvSum(Derivative(a), b, k, n - 1), ConvSum(a, Derivative(b), k, n);
      assert d + e == (k + 1) * c by { LeibnizSum(a, b, k, n - 1); }
      var i, x, y := n - 1, a[n - 1], At(b, k + 1 - (n - 1));
      assert c' == c + x * y && d' == d + x * i * y && e' == e + x * (y * (k + 1 - i)) by { LeibnizUnfold(a, b, k, n); }
      LeibnizTerm(k, c, d, e, i, x, y, c', d', e');
    }
  }

  lemma {:induction false} LeibnizFirst(a: seq<int>, b: seq<int>, k: nat)
    requires |a| >= 1
    ensures ConvSum(a, Derivative(b), k, 1) == (k + 1) * ConvSum(a, b, k + 1, 1)
  {
    AtDerivative(b, k);
    assert ConvSum(a, Derivative(b), k, 1) == a[0] * At(Derivative(b), k);
    assert ConvSum(a, b, k + 1, 1) == a[0] * At(b, k + 1);
    Assoc(a[0], At(b, k + 1), k + 1);
  }

  lemma {:induction false} LeibnizUnfold(a: seq<int>, b: seq<int>, k: nat, n: nat)
    requires 2 <= n <= |a|
    ensures ConvSum(Derivative(a), b, k, n - 1)
         == ConvSum(Derivative(a), b, k, n - 2) + a[n - 1] * (n - 1) * At(b, k + 1 - (n - 1))
    ensures ConvSum(a, Derivative(b), k, n)
         == ConvSum(a, Derivative(b), k, n - 1) + a[n - 1] * (At(b, k + 1 - (n - 1)) * (k + 1 - (n - 1)))
    ensures ConvSum(a, b, k + 1, n) == ConvSum(a, b, k + 1, n - 1) + a[n - 1] * At(b, k + 1 - (n - 1))
  {
    var i := n - 1;
    assert Derivative(a)[n - 2] == a[i] * i;
    if k - i >= 0 {
      AtDerivative(b, k - i);
    } else if k + 1 - i == 0 {
      assert At(b, 0) * 0 == 0;
    }
    assert At(Derivative(b), k - i) == At(b, k + 1 - i) * (k + 1 - i);
  }

  // (ab)' = a'b + ab'
  lemma {:induction false} Leibniz(a: seq<int>, b: seq<int>)
    ensures Same(Derivative(Product(a, b)), Sum(Product(Derivative(a), b), Product(a, Derivative(b))))
  {
    forall k: nat
      ensures At(Derivative(Product(a, b)), k) == At(Sum(Product(Derivative(a), b), Product(a, Derivative(b))), k)
    {
      LeibnizAt(a, b, k);
    }
  }

  lemma {:induction false} LeibnizAt(a: seq<int>, b: seq<int>, k: nat)
    ensures At(Derivative(Product(a, b)), k) == At(Product(Derivative(a), b), k) + At(Product(a, Derivative(b)), k)
  {
    AtDerivative(Product(a, b), k);
    AtProduct(a, b, k + 1);
    AtProduct(Derivative(a), b, k);
    AtProduct(a, Derivative(b), k);
    if |a| >= 2 {
      assert |Derivative(a)| == |a| - 1;
      LeibnizSum(a, b, k, |a|);
    } else {
      assert ConvSum(Derivative(a), b, k, 0) == 0;
      assert ConvSum(Derivative(a), b, k, 1) == 0;
      if |a| == 1 { LeibnizFirst(a, b, k); }
    }
  }

  /** The running-power loop: adding the next term and raising the power, both modulo n. */
  lemma {:induction false} RunningPowers(cs: seq<int>, x: int, j: nat, sum: int, xPower: int, n: int)
    requires n > 0 && j < |cs| && Cong(sum, Eval(cs[..j], x), n) && Cong(xPower, Pow(x, j), n)
    ensures Cong(sum + cs[j] * xPower, Eval(cs[..j + 1], x), n)
    ensures Cong((xPower * x) % n, Pow(x, j + 1), n)
  {
    var w, e, c := Pow(x, j), Eval(cs[..j], x), cs[j];
    assert Eval(cs[..j + 1], x) == e + c * w by {
      assert cs[..j + 1] == cs[..j] + [c];
      EvalSnoc(cs[..j], c, x);
    }
    assert Cong(c * xPower, c * w, n) by { CongMul(c, c, xPower, w, n); }
    assert Cong(sum + c * xPower, e + c * w, n) by { CongAdd(sum, e, c * xPower, c * w, n); }
    assert Cong((xPower * x) % n, w * x, n) by {
      CongMul(xPower, w, x, x, n);
      CongMod(xPower * x, n);
    }
    assert Pow(x, j + 1) == x * w == w * x;
  }

  // ---------------------------------------------------------------- multiplicity of roots

  // The polynomial and its first k-1 derivatives vanish at r modulo n.
  ghost predicate VanishesTo(cs: seq<int>, r: int, k: nat, n: int)
    requires n > 0
    decreases k
  {
    k == 0 || (Cong(Eval(cs, r), 0, n) && VanishesTo(Derivative(cs), r, k - 1, n))
  }

  lemma VanishesTail(cs: seq<int>, r: int, k: nat, n: int)
    requires n > 0 && k > 0 && VanishesTo(cs, r, k, n)
    ensures VanishesTo(Derivative(cs), r, k - 1, n)
  {}

  lemma {:induction false} VanishesLess(cs: seq<int>, r: int, k: nat, j: nat, n: int)
    requires n > 0 && VanishesTo(cs, r, k, n) && j <= k
    ensures VanishesTo(cs, r, j, n)
    decreases j
  {
    if j > 0 { VanishesLess(Derivative(cs), r, k - 1, j - 1, n); }
  }

  lemma {:induction false} VanishesSimilar(a: seq<int>, b: seq<int>, r: int, k: nat, n: int)
    requires n > 0 && VanishesTo(a, r, k, n) && Similar(a, b, n)
    ensures VanishesTo(b, r, k, n)
    decreases k
  {
    if k > 0 {
      SimilarEval(a, b, r, r, n);
      DerivativeSimilar(a, b, n);
      VanishesSimilar(Derivative(a), Derivative(b), r, k - 1, n);
    }
  }

  lemma {:induction false} VanishesSum(a: seq<int>, b: seq<int>, r: int, k: nat, n: int)
    requires n > 0 && VanishesTo(a, r, k, n) && VanishesTo(b, r, k, n)
    ensures VanishesTo(Sum(a, b), r, k, n)
    decreases k
  {
    if k > 0 {
      EvalOfSum(a, b, r);
      CongAdd(Eval(a, r), 0, Eval(b, r), 0, n);
      VanishesSum(Derivative(a), Derivative(b), r, k - 1, n);
      DerivativeOfSum(a, b);
      VanishesSimilar(Sum(Derivative(a), Derivative(b)), Derivative(Sum(a, b)), r, k - 1, n);
    }
  }

  lemma {:induction false} DerivativeOfSum(a: seq<int>, b: seq<int>)
    ensures Same(Sum(Derivative(a), Derivative(b)), Derivative(Sum(a, b)))
  {
    forall i: nat
      ensures At(Sum(Derivative(a), Derivative(b)), i) == At(Derivative(Sum(a, b)), i)
    {
      AtDerivative(a, i);
      AtDerivative(b, i);
      AtDerivative(Sum(a, b), i);
      Distribute(i + 1, At(a, i + 1), At(b, i + 1));
    }
  }

  lemma {:induction false} ProductVanishes(a: seq<int>, b: seq<int>, r: int, j: nat, k: nat, n: int)
    requires n > 0 && VanishesTo(a, r, j, n) && VanishesTo(b, r, k, n) && j + k > 0
    ensures Cong(Eval(Product(a, b), r), 0, n)
  {
    var x, y := Eval(a, r), Eval(b, r);
    EvalOfProduct(a, b, r);
    if j > 0 { CongMul(x, 0, y, y, n); } else { CongMul(x, x, y, 0, n); }
  }

  lemma {:induction false} LeibnizVanishes(a: seq<int>, b: seq<int>, r: int, k: nat, n: int)
    requires n > 0 && VanishesTo(Product(Derivative(a), b), r, k, n) && VanishesTo(Product(a, Derivative(b)), r, k, n)
    ensures VanishesTo(Derivative(Product(a, b)), r, k, n)
  {
    VanishesSum(Product(Derivative(a), b), Product(a, Derivative(b)), r, k, n);
    Leibniz(a, b);
    VanishesSimilar(Sum(Product(Derivative(a), b), Product(a, Derivative(b))), Derivative(Product(a, b)), r, k, n);
  }

  // Multiplicities add under multiplication.
  lemma {:induction false} VanishesProduct(a: seq<int>, b: seq<int>, r: int, j: nat, k: nat, n: int)
    requires n > 0 && VanishesTo(a, r, j, n) && VanishesTo(b, r, k, n)
    ensures VanishesTo(Product(a, b), r, j + k, n)
    decreases j + k, 1
  {
    if j + k > 0 {
      VanishesLeft(a, b, r, j, k, n);
      VanishesRight(a, b, r, j, k, n);
      ProductVanishes(a, b, r, j, k, n);
      LeibnizVanishes(a, b, r, j + k - 1, n);
    }
  }

  lemma {:induction false} VanishesLeft(a: seq<int>, b: seq<int>, r: int, j: nat, k: nat, n: int)
    requires n > 0 && VanishesTo(a, r, j, n) && VanishesTo(b, r, k, n) && j + k > 0
    ensures VanishesTo(Product(Derivative(a), b), r, j + k - 1, n)
    decreases j + k, 0
  {
    var a' := Derivative(a);
    if j > 0 {
      VanishesTail(a, r, j, n);
      VanishesProduct(a', b, r, j - 1, k, n);
    } else {
      VanishesLess(b, r, k, k - 1, n);
      VanishesProduct(a', b, r, 0, k - 1, n);
    }
  }

  lemma {:induction false} VanishesRight(a: seq<int>, b: seq<int>, r: int, j: nat, k: nat, n: int)
    requires n > 0 && VanishesTo(a, r, j, n) && VanishesTo(b, r, k, n) && j + k > 0
    ensures VanishesTo(Product(a, Derivative(b)), r, j + k - 1, n)
    decreases j + k, 0
  {
    var b' := Derivative(b);
    if k > 0 {
      VanishesTail(b, r, k, n);
      VanishesProduct(a, b', r, j, k - 1, n);
    } else {
      VanishesLess(a, r, j, j - 1, n);
      VanishesProduct(a, b', r, j - 1, 0, n);
    }
  }

  lemma {:induction false} VanishesDerivativeN(cs: seq<int>, r: int, k: nat, j: nat, n: int)
    requires n > 0 && VanishesTo(cs, r, k, n) && j <= k
    ensures VanishesTo(DerivativeN(cs, j), r, k - j, n)
  {
    if j > 0 { VanishesDerivativeN(cs, r, k, j - 1, n); }
  }

  // ---------------------------------------------------------------- polynomials from roots

  function FromRoots(roots: seq<int>): (r: seq<int>)
    ensures |r| == |roots| + 1
  {
    if |roots| == 0 then [1]
    else Product(FromRoots(roots[..|roots| - 1]), [-roots[|roots| - 1], 1])
  }

  // Product over all roots of (y - root).
  function RootProduct(roots: seq<int>, y: int): int {
    if |roots| == 0 then 1 else RootProduct(roots[..|roots| - 1], y) * (y - roots[|roots| - 1])
  }

  /** The product of differences is zero exactly at the roots. */
  lemma {:induction false} RootProductZero(roots: seq<int>, y: int)
    ensures RootProduct(roots, y) == 0 <==> y in roots
  {
    if |roots| > 0 {
      var front, last := roots[..|roots| - 1], roots[|roots| - 1];
      RootProductZero(front, y);
      assert roots == front + [last];
      var p := RootProduct(front, y);
      assert p * (y - last) == 0 <==> p == 0 || y - last == 0;
    }
  }

  // The polynomial built from the roots is monic.
  lemma {:induction false} FromRootsMonic(roots: seq<int>)
    ensures FromRoots(roots)[|roots|] == 1
  {
    if |roots| > 0 {
      var front, last := roots[..|roots| - 1], roots[|roots| - 1];
      var a, b := FromRoots(front), [-last, 1];
      FromRootsMonic(front);
      ConvSumBeyond(a, b, |a|, |a| - 1);
      AtProduct(a, b, |a|);
      assert At(b, 1) == 1 && ConvSum(a, b, |a|, |a|) == ConvSum(a, b, |a|, |a| - 1) + a[|a| - 1] * At(b, 1);
    }
  }

  /** How often a root occurs is its multiplicity in the list. */
  lemma {:induction false} OccurrencesCount(roots: seq<int>, r: int)
    ensures Occurrences(roots, r) == multiset(roots)[r]
  {
    if |roots| > 0 {
      var front, last := roots[..|roots| - 1], roots[|roots| - 1];
      OccurrencesCount(front, r);
      assert roots == front + [last];
    }
  }

  lemma {:induction false} EvalFromRoots(roots: seq<int>, y: int)
    ensures Eval(FromRoots(roots), y) == RootProduct(roots, y)
  {
    if |roots| > 0 {
      var front, last := roots[..|roots| - 1], roots[|roots| - 1];
      EvalFromRoots(front, y);
      EvalOfProduct(FromRoots(front), [-last, 1], y);
      EvalLinear(last, y);
    } else {
      EvalConstant(1, y);
    }
  }

  // How often r occurs among the roots.
  function Occurrences(roots: seq<int>, r: int): nat {
    if |roots| == 0 then 0
    else Occurrences(roots[..|roots| - 1], r) + if roots[|roots| - 1] == r then 1 else 0
  }

  lemma {:induction false} LinearVanishes(a: int, r: int, m: nat, n: int)
    requires n > 0 && m == if a == r then 1 else 0
    ensures VanishesTo([-a, 1], r, m, n)
  {
    if a == r {
      EvalLinear(a, r);
      assert VanishesTo(Derivative([-a, 1]), r, 0, n);
    }
  }

  /** Multiplicity law: a root that occurs k times makes the first k-1 derivatives vanish too. */
  lemma {:induction false} MultiplicityLaw(roots: seq<int>, r: int, n: int)
    requires n > 0
    ensures VanishesTo(FromRoots(roots), r, Occurrences(roots, r), n)
  {
    if |roots| > 0 {
      var front, last := roots[..|roots| - 1], roots[|roots| - 1];
      MultiplicityLaw(front, r, n);
      RootAdded(FromRoots(front), FromRoots(roots), last, r, Occurrences(front, r), Occurrences(roots, r), n);
    }
  }

  lemma {:induction false} RootAdded(f: seq<int>, next: seq<int>, last: int, r: int, k: nat, k': nat, n: int)
    requires n > 0 && VanishesTo(f, r, k, n)
    requires next == Product(f, [-last, 1]) && k' == k + if last == r then 1 else 0
    ensures VanishesTo(next, r, k', n)
  {
    LinearVanishes(last, r, k' - k, n);
    VanishesProduct(f, [-last, 1], r, k, k' - k, n);
  }

  // Multiplying by (x - r): coefficient k is c[k-1] - r*c[k].
  lemma {:induction false} LinearFactor(cs: seq<int>, r: int, k: int, n: nat)
    requires n <= |cs|
    ensures ConvSum(cs, [-r, 1], k, n) == (if 0 <= k - 1 < n then cs[k - 1] else 0) - r * (if 0 <= k < n then cs[k] else 0)
  {
    if n > 0 {
      LinearFactor(cs, r, k, n - 1);
    }
  }
}
