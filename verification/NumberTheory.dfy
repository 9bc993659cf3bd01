/**
 Modular arithmetic, as the protocols use it through the NTL big-integer library:
 congruences, powers, the Euclidean algorithm and inverses, binomial coefficients,
 Fermat's little theorem and its lift to squares of primes.
 */
module NumberTheory {

  // ---------------------------------------------------------------- rearrangements

  lemma Swap4(a: int, b: int, c: int, d: int)
    ensures (a * b) * (c * d) == (a * c) * (b * d)
  {
  }

  lemma Assoc(a: int, b: int, c: int)
    ensures (a * b) * c == a * (b * c)
  {
  }

  lemma Distribute(a: int, b: int, c: int)
    ensures a * (b + c) == a * b + a * c
    ensures (b + c) * a == b * a + c * a
  {
  }

  lemma {:induction false} MulMono(r: int, a: int, b: int)
    requires r >= 0 && a <= b
    ensures r * a <= r * b
  {
  }

  // A multiple of n > 0 is 0 or at least n in magnitude, with the sign of its factor.
  lemma MulBounds(d: int, n: int)
    requires n > 0
    ensures d >= 1 ==> d * n >= n
    ensures d <= -1 ==> d * n <= -n
  {
  }

  // ---------------------------------------------------------------- congruences

  predicate Cong(a: int, b: int, n: int)
    requires n > 0
  {
    a % n == b % n
  }

  lemma {:induction false} ModUnique(a: int, n: int, q: int, r: int)
    requires 0 <= r < n && a == q * n + r
    ensures a % n == r && a / n == q
  {
    var d := q - a / n;
    assert d * n == a % n - r by {
      assert d * n == q * n - (a / n) * n;
    }
    MulBounds(d, n);
  }

  lemma {:induction false} CongIntro(a: int, b: int, n: int, k: int)
    requires n > 0 && a == b + k * n
    ensures Cong(a, b, n)
  {
    assert a == (b / n + k) * n + b % n;
    ModUnique(a, n, b / n + k, b % n);
  }

  lemma {:induction false} CongElim(a: int, b: int, n: int) returns (k: int)
    requires n > 0 && Cong(a, b, n)
    ensures a == b + k * n
  {
    k := a / n - b / n;
    assert a == (a / n) * n + a % n;
    assert b == (b / n) * n + b % n;
    assert k * n == (a / n) * n - (b / n) * n;
  }

  lemma {:induction false} CongMod(a: int, n: int)
    requires n > 0
    ensures Cong(a % n, a, n)
  {
    ModUnique(a % n, n, 0, a % n);
  }

  lemma {:induction false} CongAdd(a: int, b: int, c: int, d: int, n: int)
    requires n > 0 && Cong(a, b, n) && Cong(c, d, n)
    ensures Cong(a + c, b + d, n)
    ensures Cong(a - c, b - d, n)
  {
    var k := CongElim(a, b, n);
    var l := CongElim(c, d, n);
    assert (k + l) * n == k * n + l * n;
    assert (k - l) * n == k * n - l * n;
    CongIntro(a + c, b + d, n, k + l);
    CongIntro(a - c, b - d, n, k - l);
  }

  lemma {:induction false} CongMul(a: int, b: int, c: int, d: int, n: int)
    requires n > 0 && Cong(a, b, n) && Cong(c, d, n)
    ensures Cong(a * c, b * d, n)
  {
    var k := CongElim(a, b, n);
    var l := CongElim(c, d, n);
    var t := b * l + k * d + k * l * n;
    assert a * c == b * d + t * n by {
      calc {
        a * c;
        (b + k * n) * (d + l * n);
        b * d + b * (l * n) + (k * n) * d + (k * n) * (l * n);
        b * d + (b * l) * n + (k * d) * n + (k * l * n) * n;
        b * d + t * n;
      }
    }
    CongIntro(a * c, b * d, n, t);
  }

  // Congruence modulo n is equality for canonical residues.
  lemma {:induction false} CongSmall(a: int, b: int, n: int)
    requires 0 <= a < n && 0 <= b < n && Cong(a, b, n)
    ensures a == b
  {
    ModUnique(a, n, 0, a);
    ModUnique(b, n, 0, b);
  }

  lemma {:induction false} CongDivisor(a: int, b: int, n: int, m: int)
    requires n > 0 && m > 0 && Cong(a, b, n * m)
    ensures Cong(a, b, n)
  {
    var k := CongElim(a, b, n * m);
    assert k * (n * m) == (k * m) * n;
    CongIntro(a, b, n, k * m);
  }

  // Scaling a congruence by m > 0 scales its modulus.
  lemma {:induction false} CongScale(a: int, b: int, n: int, m: int)
    requires n > 0 && m > 0 && Cong(a, b, n)
    ensures n * m > 0 && Cong(a * m, b * m, n * m)
  {
    var k := CongElim(a, b, n);
    assert a * m == b * m + k * (n * m) by {
      assert (b + k * n) * m == b * m + (k * n) * m;
      assert (k * n) * m == k * (n * m);
    }
    CongIntro(a * m, b * m, n * m, k);
  }

  lemma {:induction false} ModZeroMultiple(k: int, n: int)
    requires n > 0
    ensures (k * n) % n == 0
  {
    ModUnique(k * n, n, k, 0);
  }

  // ---------------------------------------------------------------- powers

  function Pow(b: int, e: nat): int {
    if e == 0 then 1 else b * Pow(b, e - 1)
  }

  lemma {:induction false} PowAdd(b: int, x: nat, y: nat)
    ensures Pow(b, x + y) == Pow(b, x) * Pow(b, y)
  {
    if x > 0 {
      PowAdd(b, x - 1, y);
      calc {
        Pow(b, x + y);
        b * Pow(b, x + y - 1);
        b * (Pow(b, x - 1) * Pow(b, y));
        (b * Pow(b, x - 1)) * Pow(b, y);
      }
    }
  }

  lemma {:induction false} PowMul(b: int, x: nat, y: nat)
    ensures x * y >= 0 && Pow(b, x * y) == Pow(Pow(b, x), y)
    decreases y
  {
    if y > 0 {
      assert x * y == x + x * (y - 1);
      PowMul(b, x, y - 1);
      PowAdd(b, x, x * (y - 1));
    }
  }

  lemma {:induction false} PowProduct(a: int, b: int, e: nat)
    ensures Pow(a * b, e) == Pow(a, e) * Pow(b, e)
  {
    if e > 0 {
      PowProduct(a, b, e - 1);
      Swap4(a, b, Pow(a, e - 1), Pow(b, e - 1));
    }
  }

  lemma {:induction false} PowPositive(b: nat, e: nat)
    requires b > 0
    ensures Pow(b, e) > 0
  {
    if e > 0 { PowPositive(b, e - 1); }
  }

  lemma {:induction false} PowOne(e: nat)
    ensures Pow(1, e) == 1
  {
    if e > 0 { PowOne(e - 1); }
  }

  lemma {:induction false} CongPow(a: int, b: int, e: nat, n: int)
    requires n > 0 && Cong(a, b, n)
    ensures Cong(Pow(a, e), Pow(b, e), n)
  {
    if e > 0 {
      CongPow(a, b, e - 1, n);
      CongMul(a, b, Pow(a, e - 1), Pow(b, e - 1), n);
    }
  }

  // If b^t = 1 mod n, exponents matter only modulo t.
  lemma {:induction false} PowPeriodic(b: int, x: nat, y: nat, t: nat, n: int)
    requires n > 0 && t > 0 && Cong(Pow(b, t), 1, n) && Cong(x, y, t)
    ensures Cong(Pow(b, x), Pow(b, y), n)
    decreases x < y
  {
    if x < y {
      PowPeriodic(b, y, x, t, n);
    } else {
      var k := CongElim(x, y, t);
      MulBounds(k, t);
      assert x == y + t * k;
      PowAdd(b, y, t * k);
      PowMul(b, t, k);
      CongPow(Pow(b, t), 1, k, n);
      PowOne(k);
      CongMul(Pow(b, y), Pow(b, y), Pow(b, t * k), 1, n);
    }
  }

  // (1+y)^e = 1 + e*y + y^2*q for some q.
  lemma {:induction false} BinomialLinear(y: int, e: nat) returns (q: int)
    ensures Pow(1 + y, e) == 1 + e * y + q * (y * y)
  {
    if e == 0 {
      q := 0;
    } else {
      var q' := BinomialLinear(y, e - 1);
      q := q' + (e - 1) + q' * y;
      BinomialStep(y, e - 1, q', y * y, Pow(1 + y, e - 1));
    }
  }

  lemma {:induction false} BinomialStep(y: int, d: int, q: int, s: int, w: int)
    requires w == 1 + d * y + q * s && s == y * y
    ensures (1 + y) * w == 1 + (d + 1) * y + (q + d + q * y) * s
  {
    OnePlus(y, w);
    Distribute(y, 1 + d * y, q * s);
    Distribute(y, 1, d * y);
    assert y * (d * y) == d * s by { Assoc(y, d, y); Assoc(d, y, y); }
    assert y * (q * s) == (q * y) * s by { Assoc(y, q, s); }
    Distribute(s, q + d, q * y);
    Distribute(s, q, d);
    Distribute(y, d, 1);
  }

  lemma OnePlus(y: int, w: int)
    ensures (1 + y) * w == w + y * w
  {
  }

  // ---------------------------------------------------------------- Euclid

  datatype Egcd = Egcd(g: nat, x: int, y: int)

  function ExtGcd(a: nat, b: nat): (r: Egcd)
    ensures r.g == a * r.x + b * r.y
    ensures a > 0 || b > 0 ==> r.g > 0 && a % r.g == 0 && b % r.g == 0
    decreases b
  {
    if b == 0 then
      assert a > 0 ==> a % a == 0 by { if a > 0 { ModZeroMultiple(1, a); } }
      assert a > 0 ==> 0 % a == 0 by { if a > 0 { ModZeroMultiple(0, a); } }
      Egcd(a, 1, 0)
    else
      var r := ExtGcd(b, a % b);
      EuclidStep(a, b, r);
      Egcd(r.g, r.y, r.x - (a / b) * r.y)
  }

  lemma {:induction false} EuclidStep(a: nat, b: nat, r: Egcd)
    requires b > 0 && r.g > 0
    requires r.g == b * r.x + (a % b) * r.y
    requires b % r.g == 0 && (a % b) % r.g == 0
    ensures r.g == a * r.y + b * (r.x - (a / b) * r.y)
    ensures a % r.g == 0
  {
    var q := a / b;
    assert a == q * b + a % b;
    calc {
      a * r.y + b * (r.x - q * r.y);
      (q * b + a % b) * r.y + b * r.x - b * (q * r.y);
      (q * b) * r.y + (a % b) * r.y + b * r.x - (q * b) * r.y;
      r.g;
    }
    var g := r.g;
    ModZeroMultiple(0, g);
    CongMul(q, q, b, 0, g);
    CongAdd(q * b, q * 0, a % b, 0, g);
  }

  predicate Coprime(a: nat, b: nat) {
    ExtGcd(a, b).g == 1
  }

  // A unit modulo n: an element with a multiplicative inverse.
  ghost predicate Unit(a: int, n: int)
    requires n > 0
  {
    exists x: int :: Cong(a * x, 1, n)
  }

  lemma {:induction false} CoprimeIsUnit(a: nat, n: nat)
    requires n > 0 && Coprime(a, n)
    ensures Unit(a, n)
  {
    var r := ExtGcd(a, n);
    CongIntro(a * r.x, 1, n, -r.y);
  }

  lemma {:induction false} UnitIsCoprime(a: nat, n: nat)
    requires n > 0 && Unit(a, n)
    ensures Coprime(a, n)
  {
    var x :| Cong(a * x, 1, n);
    var g := ExtGcd(a, n).g;
    var k := CongElim(a * x, 1, n);
    ModZeroMultiple(0, g);
    CongMul(a, 0, x, x, g);
    CongMul(k, k, n, 0, g);
    CongAdd(a * x, 0, k * n, 0, g);
    assert 1 % g == 0;
    if g > 1 { ModUnique(1, g, 0, 1); }
  }

  lemma {:induction false} UnitProduct(a: int, b: int, n: int)
    requires n > 0 && Unit(a, n) && Unit(b, n)
    ensures Unit(a * b, n)
  {
    var x :| Cong(a * x, 1, n);
    var y :| Cong(b * y, 1, n);
    CongMul(a * x, 1, b * y, 1, n);
    assert (a * x) * (b * y) == (a * b) * (x * y);
    assert Cong((a * b) * (x * y), 1, n);
  }

  lemma {:induction false} UnitCong(a: int, b: int, n: int)
    requires n > 0 && Unit(a, n) && Cong(a, b, n)
    ensures Unit(b, n)
  {
    var x :| Cong(a * x, 1, n);
    CongMul(a, b, x, x, n);
    assert Cong(b * x, 1, n);
  }

  lemma {:induction false} UnitPow(a: int, e: nat, n: int)
    requires n > 0 && Unit(a, n)
    ensures Unit(Pow(a, e), n)
  {
    if e == 0 {
      assert Cong(1 * 1, 1, n);
    } else {
      UnitPow(a, e - 1, n);
      UnitProduct(a, Pow(a, e - 1), n);
    }
  }

  lemma {:induction false} UnitDivisor(a: int, n: int, m: int)
    requires n > 0 && m > 0 && n * m > 0 && Unit(a, n * m)
    ensures Unit(a, n)
  {
    var x :| Cong(a * x, 1, n * m);
    CongDivisor(a * x, 1, n, m);
  }

  // Units cancel.
  lemma {:induction false} UnitCancel(a: int, x: int, y: int, n: int)
    requires n > 0 && Unit(a, n) && Cong(a * x, a * y, n)
    ensures Cong(x, y, n)
  {
    var u :| Cong(a * u, 1, n);
    CongMul(u, u, a * x, a * y, n);
    CongMul(a * u, 1, x, x, n);
    CongMul(a * u, 1, y, y, n);
    assert u * (a * x) == (a * u) * x && u * (a * y) == (a * u) * y;
  }

  // Two congruences combine when one modulus is a unit modulo the other.
  lemma {:induction false} CongCombine(a: int, b: int, m: int, p: int)
    requires m > 0 && p > 0 && Unit(m, p) && Cong(a, b, m) && Cong(a, b, p)
    ensures m * p > 0 && Cong(a, b, m * p)
  {
    var k := CongElim(a, b, m);
    CongAdd(a, b, b, b, p);
    assert a - b == m * k && m * 0 == 0;
    UnitCancel(m, k, 0, p);
    var l := CongElim(k, 0, p);
    assert k == l * p;
    assert a - b == l * (m * p) by { Assoc(m, l, p); }
    CongIntro(a, b, m * p, l);
  }

  // A unit modulo n and modulo m is a unit modulo n * m.
  lemma {:induction false} UnitBoth(a: int, n: int, m: int)
    requires n > 0 && m > 0 && Unit(a, n) && Unit(a, m)
    ensures n * m > 0 && Unit(a, n * m)
  {
    var x :| Cong(a * x, 1, n);
    var y :| Cong(a * y, 1, m);
    var k := CongElim(a * x, 1, n);
    var l := CongElim(a * y, 1, m);
    var z := x + (y - a * (x * y));
    // 1 - a z = (1 - a x)(1 - a y)
    assert a * z == a * x + a * y - (a * x) * (a * y) by {
      Distribute(a, x, y - a * (x * y));
      Distribute(a, y, -(a * (x * y)));
      Swap4(a, a, x, y);
      Assoc(a, a, x * y);
    }
    OnePlusProduct(k * n, l * m);
    Swap4(k, n, l, m);
    assert n * m > 0 by { MulBounds(n, m); }
    CongIntro(a * z, 1, n * m, -(k * l));
  }

  lemma OnePlusProduct(s: int, t: int)
    ensures (1 + s) * (1 + t) == 1 + s + t + s * t
  {
  }

  // The modular inverse NTL computes with InvMod, or None when there is none.
  datatype Option<T> = None | Some(value: T)

  function InvMod(a: int, n: nat): (r: Option<nat>)
    requires n > 0
    ensures r.Some? <==> Unit(a, n)
    ensures r.Some? ==> r.value < n && Cong(a * r.value, 1, n)
  {
    var e := ExtGcd(a % n, n);
    CongMod(a, n);
    if e.g == 1 then
      CoprimeIsUnit(a % n, n);
      UnitCong(a % n, a, n);
      InvModSome(a, n, e);
      Some(e.x % n)
    else
      assert !Unit(a, n) by {
        if Unit(a, n) { UnitCong(a, a % n, n); UnitIsCoprime(a % n, n); }
      }
      None
  }

  lemma {:induction false} InvModSome(a: int, n: nat, e: Egcd)
    requires n > 0 && e.g == 1 && 1 == (a % n) * e.x + n * e.y
    ensures Cong(a * (e.x % n), 1, n)
  {
    CongMod(a, n);
    CongMod(e.x, n);
    CongMul(a, a % n, e.x % n, e.x, n);
    CongIntro((a % n) * e.x, 1, n, -e.y);
  }

  lemma {:induction false} InverseUnique(a: int, x: int, y: int, n: int)
    requires n > 0 && Cong(a * x, 1, n) && Cong(a * y, 1, n)
    ensures Cong(x, y, n)
  {
    assert Unit(a, n);
    UnitCancel(a, x, y, n);
  }

  // ---------------------------------------------------------------- primes

  ghost predicate Prime(p: int) {
    p >= 2 && forall d :: 2 <= d < p ==> p % d != 0
  }

  lemma {:induction false} PrimeUnit(p: nat, a: int)
    requires Prime(p) && a % p != 0
    ensures Unit(a, p)
  {
    var b: nat := a % p;
    var g := ExtGcd(b, p).g;
    if g > b { ModUnique(b, g, 0, b); }
    assert g == 1;
    CoprimeIsUnit(b, p);
    CongMod(a, p);
    UnitCong(b, a, p);
  }

  lemma {:induction false} Euclid(p: nat, a: int, b: int)
    requires Prime(p) && (a * b) % p == 0 && a % p != 0
    ensures b % p == 0
  {
    PrimeUnit(p, a);
    ModZeroMultiple(0, p);
    assert a * 0 == 0;
    UnitCancel(a, b, 0, p);
  }

  // ---------------------------------------------------------------- binomials

  function Choose(n: nat, k: nat): nat {
    if k == 0 then 1 else if n == 0 then 0 else Choose(n - 1, k - 1) + Choose(n - 1, k)
  }

  function Factorial(n: nat): (r: nat)
    ensures r > 0
  {
    if n == 0 then 1 else n * Factorial(n - 1)
  }

  lemma {:induction false} ChooseBeyond(n: nat, k: nat)
    requires k > n
    ensures Choose(n, k) == 0
  {
    if n > 0 { ChooseBeyond(n - 1, k - 1); ChooseBeyond(n - 1, k); }
  }

  lemma {:induction false} ChooseAll(n: nat)
    ensures Choose(n, n) == 1
  {
    if n > 0 { ChooseAll(n - 1); ChooseBeyond(n - 1, n); }
  }

  lemma {:induction false} ChoosePositive(n: nat, k: nat)
    requires k <= n
    ensures Choose(n, k) > 0
  {
    if n > 0 && k > 0 { ChoosePositive(n - 1, k - 1); }
  }

  lemma {:induction false} AbsorbStep(n: int, k: int, x: int, y: int, u: int, v: int)
    requires (k - 1) * x == (n - 1) * u && k * y == (n - 1) * v && x == u + v
    ensures k * (x + y) == n * x
  {
    assert k * (x + y) == (k - 1) * x + x + k * y;
    assert (n - 1) * u + (n - 1) * v == (n - 1) * (u + v);
  }

  // k * C(n,k) = n * C(n-1,k-1)
  lemma {:induction false} ChooseAbsorb(n: nat, k: nat)
    requires n >= 1 && k >= 1
    ensures k * Choose(n, k) == n * Choose(n - 1, k - 1)
  {
    if n == 1 {
      if k > 1 { ChooseBeyond(1, k); ChooseBeyond(0, k - 1); }
    } else if k == 1 {
      ChooseAbsorb(n - 1, 1);
    } else {
      ChooseAbsorb(n - 1, k - 1);
      ChooseAbsorb(n - 1, k);
      AbsorbStep(n, k, Choose(n - 1, k - 1), Choose(n - 1, k), Choose(n - 2, k - 2), Choose(n - 2, k - 1));
    }
  }

  // (k+1) * C(n,k+1) = (n-k) * C(n,k)
  lemma {:induction false} ChooseStep(n: nat, k: nat)
    requires k <= n
    ensures (k + 1) * Choose(n, k + 1) == (n - k) * Choose(n, k)
  {
    if n == 0 {
      ChooseBeyond(0, 1);
    } else {
      ChooseAbsorb(n, k + 1);
      if k > 0 {
        ChooseAbsorb(n, k);
        var c, d, e := Choose(n, k), Choose(n - 1, k - 1), Choose(n - 1, k);
        assert c == d + e;
        Distribute(c, n, 0 - k);
        Distribute(n, d, e);
      }
    }
  }

  lemma {:induction false} FactorialTerm(n: int, k: int, c: int, c': int, f: int, g: int)
    requires k * c == n * c'
    ensures c * ((k * f) * g) == n * (c' * (f * g))
  {
    Assoc(k, f, g);
    Assoc(c, k, f * g);
    Assoc(n, c', f * g);
  }

  // n! = C(n,k) * k! * (n-k)!
  lemma {:induction false} ChooseFactorial(n: nat, k: nat)
    requires k <= n
    ensures Choose(n, k) * (Factorial(k) * Factorial(n - k)) == Factorial(n)
  {
    if k > 0 {
      ChooseFactorial(n - 1, k - 1);
      ChooseAbsorb(n, k);
      FactorialTerm(n, k, Choose(n, k), Choose(n - 1, k - 1), Factorial(k - 1), Factorial(n - k));
    }
  }

  lemma {:induction false} FactorialDivides(k: nat, n: nat) returns (q: nat)
    requires k <= n
    ensures Factorial(n) == q * Factorial(k) && q > 0
  {
    if k == n {
      q := 1;
    } else {
      var q' := FactorialDivides(k, n - 1);
      q := n * q';
      Assoc(n, q', Factorial(k));
    }
  }

  // ---------------------------------------------------------------- Fermat

  // Sum of C(n,j) * a^j for j < k.
  function BinomialSum(n: nat, a: int, k: nat): int {
    if k == 0 then 0 else BinomialSum(n, a, k - 1) + Choose(n, k - 1) * Pow(a, k - 1)
  }

  lemma PascalTerm(c: int, d: int, a: int, w: int, s: int)
    ensures (c + d) * (a * w) == d * (a * w) + a * (c * w)
    ensures a * (s + c * w) == a * s + a * (c * w)
  {
  }

  lemma {:induction false} BinomialSumPascal(n: nat, a: int, k: nat)
    ensures BinomialSum(n + 1, a, k + 1) == BinomialSum(n, a, k + 1) + a * BinomialSum(n, a, k)
  {
    if k > 0 {
      BinomialSumPascal(n, a, k - 1);
      var c, d, w := Choose(n, k - 1), Choose(n, k), Pow(a, k - 1);
      PascalTerm(c, d, a, w, BinomialSum(n, a, k - 1));
    }
  }

  lemma {:induction false} BinomialTheorem(n: nat, a: int)
    ensures Pow(a + 1, n) == BinomialSum(n, a, n + 1)
  {
    if n > 0 {
      BinomialTheorem(n - 1, a);
      BinomialSumPascal(n - 1, a, n);
      ChooseBeyond(n - 1, n);
      assert BinomialSum(n - 1, a, n + 1) == BinomialSum(n - 1, a, n);
    }
  }

  lemma {:induction false} PrimeDividesChoose(p: nat, j: nat)
    requires Prime(p) && 1 <= j < p
    ensures Choose(p, j) % p == 0
  {
    var c, d := Choose(p, j), Choose(p - 1, j - 1);
    assert j * c == d * p by { ChooseAbsorb(p, j); }
    ModZeroMultiple(d, p);
    ModUnique(j, p, 0, j);
    Euclid(p, j, c);
  }

  lemma {:induction false} MiddleTermsVanish(p: nat, a: int, k: nat)
    requires Prime(p) && 1 <= k <= p
    ensures Cong(BinomialSum(p, a, k), 1, p)
  {
    if k > 1 {
      MiddleTermsVanish(p, a, k - 1);
      var j := k - 1;
      var c, w, sum := Choose(p, j), Pow(a, j), BinomialSum(p, a, k - 1);
      assert c % p == 0 by { PrimeDividesChoose(p, j); }
      ModZeroMultiple(0, p);
      CongMul(c, 0, w, w, p);
      CongAdd(sum, 1, c * w, 0, p);
    }
  }

  lemma {:induction false} FermatNat(p: nat, a: nat)
    requires Prime(p)
    ensures Cong(Pow(a, p), a, p)
  {
    if a == 0 {
      assert Pow(0, p) == 0;
    } else {
      FermatNat(p, a - 1);
      BinomialTheorem(p, a - 1);
      MiddleTermsVanish(p, a - 1, p);
      ChooseAll(p);
      assert Pow(a, p) == BinomialSum(p, a - 1, p) + Pow(a - 1, p);
      CongAdd(BinomialSum(p, a - 1, p), 1, Pow(a - 1, p), a - 1, p);
    }
  }

  // Fermat's little theorem for units.
  lemma {:induction false} Fermat(p: nat, a: int)
    requires Prime(p) && Unit(a, p)
    ensures Cong(Pow(a, p - 1), 1, p)
  {
    var b := a % p;
    CongMod(a, p);
    FermatNat(p, b);
    CongPow(b, a, p, p);
    assert Cong(a * Pow(a, p - 1), a * 1, p);
    UnitCancel(a, Pow(a, p - 1), 1, p);
  }

  lemma {:induction false} LiftTerm(k: int, p: int, q: int)
    ensures p * (k * p) + q * ((k * p) * (k * p)) == (k + q * (k * k)) * (p * p)
  {
    Swap4(k, p, k, p);
    Assoc(q, k * k, p * p);
    Distribute(p * p, k, q * (k * k));
    Assoc(k, p, p);
  }

  // x = 1 mod p lifts to x^p = 1 mod p^2.
  lemma {:induction false} LiftToSquare(x: int, p: nat)
    requires p > 0 && Cong(x, 1, p)
    ensures p * p > 0 && Cong(Pow(x, p), 1, p * p)
  {
    var k := CongElim(x, 1, p);
    var y := k * p;
    var q := BinomialLinear(y, p);
    assert x == 1 + y;
    LiftTerm(k, p, q);
    CongIntro(Pow(x, p), 1, p * p, k + q * (k * k));
  }

  // Every unit modulo p^2 is killed by p(p-1).
  lemma {:induction false} OrderModSquare(p: nat, a: int)
    requires Prime(p) && Unit(a, p)
    ensures (p - 1) * p >= 0 && p * p > 0 && Cong(Pow(a, (p - 1) * p), 1, p * p)
  {
    Fermat(p, a);
    LiftToSquare(Pow(a, p - 1), p);
    PowMul(a, p - 1, p);
  }

  // Two distinct primes: a congruence modulo p^2 and modulo q^2 holds modulo (pq)^2.
  lemma {:induction false} PrimeNotDividing(p: nat, q: nat)
    requires Prime(p) && Prime(q) && p != q
    ensures p % q != 0
  {
    if p % q == 0 {
      if q < p {
        assert false;
      } else {
        ModUnique(p, q, 0, p);
      }
    }
  }

  lemma {:induction false} CancelFactor(p: int, k: int, l: int, q: int)
    requires q > 0 && p * (p * (k * q)) == (l * q) * q
    ensures p * (p * k) == l * q
  {
    Assoc(p, k, q);
    Assoc(p, p * k, q);
    var x, y := p * (p * k), l * q;
    assert x * q == y * q;
    assert (x - y) * q == 0;
  }

  lemma {:induction false} SquareFactor(k: int, p: int, q: int)
    ensures ((k * q) * q) * (p * p) == k * ((p * q) * (p * q))
  {
    Assoc(k, q, q);
    Assoc(k, q * q, p * p);
    Swap4(p, q, p, q);
  }

  lemma {:induction false} SquareMultiples(k: int, l: int, p: int, q: int, d: int)
    requires d == k * (p * p) && d == l * (q * q)
    ensures p * (p * k) == (l * q) * q
  {
    Assoc(p, p, k);
    Assoc(l, q, q);
  }

  lemma {:induction false} CombineSquares(a: int, b: int, p: nat, q: nat)
    requires Prime(p) && Prime(q) && p != q
    requires Cong(a, b, p * p) && Cong(a, b, q * q)
    ensures (p * q) * (p * q) > 0 && Cong(a, b, (p * q) * (p * q))
  {
    var k := CongElim(a, b, p * p);
    var l := CongElim(a, b, q * q);
    PrimeNotDividing(p, q);
    // q divides p*(p*k), hence p*k, hence k
    SquareMultiples(k, l, p, q, a - b);
    var k1 := StripPrime(p, q, k, l * q);
    // k = k1*q, so q divides p*(p*k1)
    CancelFactor(p, k1, l, q);
    var k2 := StripPrime(p, q, k1, l);
    SquareFactor(k2, p, q);
    CongIntro(a, b, (p * q) * (p * q), k2);
  }

  lemma {:induction false} StripPrime(p: nat, q: nat, k: int, m: int) returns (k': int)
    requires Prime(p) && Prime(q) && p % q != 0 && p * (p * k) == m * q
    ensures k == k' * q
  {
    ModZeroMultiple(m, q);
    Euclid(q, p, p * k);
    Euclid(q, p, k);
    k' := k / q;
    assert k == (k / q) * q + k % q;
  }

  lemma {:induction false} OrderFactors(p: int, q: int, pp: int, qq: int)
    ensures 2 * (p * q) * (pp * qq) == ((2 * pp) * p) * (q * qq)
    ensures 2 * (p * q) * (pp * qq) == ((2 * qq) * q) * (p * pp)
  {
    Swap4(p, q, pp, qq);
  }

  /** The exponent of the unit group modulo (pq)^2 for safe primes p = 2p'+1, q = 2q'+1:
      every unit satisfies u^(2 * pq * p'q') = 1. */
  lemma {:induction false} UnitOrder(pp: nat, qq: nat, u: int)
    requires Prime(2 * pp + 1) && Prime(2 * qq + 1) && pp != qq
    requires Unit(u, (2 * pp + 1) * (2 * qq + 1))
    ensures var n := (2 * pp + 1) * (2 * qq + 1);
            n * n > 0 && 2 * n * (pp * qq) >= 0 && Cong(Pow(u, 2 * n * (pp * qq)), 1, n * n)
  {
    var p, q := 2 * pp + 1, 2 * qq + 1;
    var n := p * q;
    var t := 2 * n * (pp * qq);
    UnitDivisor(u, p, q);
    assert p * q == q * p;
    UnitDivisor(u, q, p);
    OrderFactors(p, q, pp, qq);
    KilledBy(p, u, q * qq, t);
    KilledBy(q, u, p * pp, t);
    CombineSquares(Pow(u, t), 1, p, q);
  }

  lemma {:induction false} KilledBy(p: nat, u: int, f: nat, t: nat)
    requires Prime(p) && Unit(u, p) && t == ((p - 1) * p) * f
    ensures Cong(Pow(u, t), 1, p * p)
  {
    OrderModSquare(p, u);
    PowMul(u, (p - 1) * p, f);
    CongPow(Pow(u, (p - 1) * p), 1, f, p * p);
    PowOne(f);
  }
}
