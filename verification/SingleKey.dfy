/**
 Paillier with one key holder: the key is lcm(p - 1, q - 1), and decryption divides by what the key
 makes of the generator.
 */
module SingleKey {
  import opened NumberTheory
  import opened Paillier
  import opened FusionCorrectness

  // The two primes a key generation draws, both of l bits.
  ghost predicate GoodPrimes(p: nat, q: nat, l: nat) {
    && Prime(p) && Prime(q) && p != q
    && l > 0 && Pow(2, l - 1) <= p < Pow(2, l) && Pow(2, l - 1) <= q < Pow(2, l)
  }

  function Lcm(a: nat, b: nat): int
    requires a > 0
  {
    (a / ExtGcd(a, b).g) * b
  }

  function KeyGen(p: nat, q: nat): (r: (PubKey, int))
    requires p > 1 && q > 1
  {
    var n := p * q;
    PositiveModulus(p, q);
    (PubKey(n, n * n, n + 1, 0, 0), Lcm(p - 1, q - 1))
  }

  lemma PositiveModulus(p: nat, q: nat)
    requires p > 1 && q > 1
    ensures p * q > 2
  {
  }

  // Both prime orders divide the key, and the key divides their product.
  lemma {:induction false} LcmFactors(a: nat, b: nat) returns (i: nat, j: nat, g: nat)
    requires a > 0 && b > 0
    ensures Lcm(a, b) == i * a == j * b && Lcm(a, b) * g == a * b
  {
    var e := ExtGcd(a, b);
    g := e.g;
    j := a / g;
    i := b / g;
    assert a == j * g && b == i * g;
    assert i * a == i * (j * g) && j * b == j * (i * g);
    Assoc(i, j, g);
    Assoc(j, i, g);
    assert j * b * g == a * b by { Assoc(j, b, g); Assoc(j, g, b); }
  }

  // ---------------------------------------------------------------- decryption

  function Dec(c: int, pk: PubKey, s: nat): Result<int>
    requires pk.n > 0
  {
    if !ValidCiphertext(c, pk) then Err("ciphertext out of valid range (0, n^2)")
    else
      var l := FloorDiv(Pow(c, s) % pk.n2 - 1, pk.n);
      var lg := FloorDiv(Pow(pk.g, s) % pk.n2 - 1, pk.n);
      match InvMod(lg % pk.n, pk.n)
      case None => Result<int>.Err("InvMod: inverse undefined")
      case Some(mu) => Result<int>.Ok(Signed((l * mu) % pk.n, pk.n))
  }

  // Every unit has order n * lcm modulo n^2.
  lemma {:induction false} KeyOrder(p: nat, q: nat, r: int)
    requires Prime(p) && Prime(q) && p != q && Unit(r, p * q)
    ensures Lcm(p - 1, q - 1) >= 0 && (p * q) * Lcm(p - 1, q - 1) >= 0 && (p * q) * (p * q) > 0
    ensures Cong(Pow(r, (p * q) * Lcm(p - 1, q - 1)), 1, (p * q) * (p * q))
  {
    var i, j, g := LcmFactors(p - 1, q - 1);
    var s := Lcm(p - 1, q - 1);
    OrderSplit(p, q, i, p - 1, s);
    OrderSplit(q, p, j, q - 1, s);
    assert p * q == q * p;
    UnitDivisor(r, p, q);
    UnitDivisor(r, q, p);
    KilledBy(p, r, q * i, (p * q) * s);
    KilledBy(q, r, p * j, (p * q) * s);
    CombineSquares(Pow(r, (p * q) * s), 1, p, q);
  }

  lemma {:induction false} OrderSplit(p: nat, q: nat, i: nat, a: nat, s: int)
    requires s == i * a
    ensures s >= 0 && (p * q) * s == (a * p) * (q * i) >= 0
  {
    Swap4(p, q, a, i);
    assert i * a == a * i && p * a == a * p;
  }

  /** Single-key decryption: it succeeds exactly when the key is invertible modulo n, and then returns
      the representative of the message around zero. */
  lemma {:induction false} DecCorrect(p: nat, q: nat, c: int, m: int)
    requires Prime(p) && Prime(q) && p != q && Encrypts(c, m, p * q)
    ensures var (pk, s) := KeyGen(p, q);
      && pk.n > 0 && s >= 0
      && (Dec(c, pk, s).Ok? <==> Unit(s, pk.n))
      && (Dec(c, pk, s).Ok? ==> Dec(c, pk, s) == Ok(Signed(m % pk.n, pk.n)))
  {
    var (pk, s) := KeyGen(p, q);
    var n := pk.n;
    PositiveModulus(p, q);
    var r: int :| EncryptsWith(c, m, r, n);
    KeyOrder(p, q, r);
    MessageSurvives(c, m, r, n, s, n * s, 1);
    CongMod(Pow(c, s), n * n);
    ReadMessage(Pow(c, s) % pk.n2, s * m, n);
    PowLinear(1, s, n);
    CongMod(Pow(pk.g, s), n * n);
    ReadMessage(Pow(pk.g, s) % pk.n2, s, n);
    CongMod(s, n);
    var lg := (s % n) % n;
    if Unit(s, n) {
      UnitCong(s, s % n, n);
      UnscaleMessage(s, m, lg, InvMod(lg, n).value, n);
    } else if Unit(lg, n) {
      UnitCong(lg, s, n);
      assert false;
    }
  }

  // ---------------------------------------------------------------- when the key is invertible

  lemma {:induction false} QuotientOne(p: nat, a: nat, k: int)
    requires a == k * p && 0 < a < 2 * p
    ensures k == 1
  {
    MulBounds(k, p);
    if k >= 2 {
      MulMono(p, 2, k);
    }
  }

  lemma EvenNext(p: nat)
    ensures p % 2 != 0 ==> (p + 1) % 2 == 0
  {}

  lemma {:induction false} NeighbouringPrimes(p: nat, q: nat)
    requires Prime(p) && Prime(q) && q == p + 1
    ensures p == 2
  {
    if p > 2 {
      EvenNext(p);
    }
  }

  lemma {:induction false} SameLength(p: nat, q: nat, l: nat)
    requires GoodPrimes(p, q, l) && p > 2 && q > 2
    ensures (q - 1) % p != 0
  {
    assert Pow(2, l) == 2 * Pow(2, l - 1);
    if (q - 1) % p == 0 {
      QuotientOne(p, q - 1, (q - 1) / p);
      NeighbouringPrimes(p, q);
    }
  }

  lemma {:induction false} FactorUnit(a: int, g: int, p: nat)
    requires p > 0 && Unit(a * g, p)
    ensures Unit(a, p)
  {
    var x :| Cong((a * g) * x, 1, p);
    Assoc(a, g, x);
  }

  lemma {:induction false} UnitModPrime(p: nat, q: nat, s: int, g: int)
    requires Prime(p) && q > 1 && (q - 1) % p != 0 && s * g == (p - 1) * (q - 1)
    ensures Unit(s, p)
  {
    ModUnique(p - 1, p, 0, p - 1);
    PrimeUnit(p, p - 1);
    PrimeUnit(p, q - 1);
    UnitProduct(p - 1, q - 1, p);
    FactorUnit(s, g, p);
  }

  lemma {:induction false} ThreeBits(p: nat, q: nat, l: nat)
    requires GoodPrimes(p, q, l)
    ensures l != 2 ==> p > 2 && q > 2
    ensures l == 2 ==> (p == 2 && q == 3) || (p == 3 && q == 2)
  {
    assert Pow(2, 0) == 1 && Pow(2, 1) == 2 * Pow(2, 0) && Pow(2, 2) == 2 * Pow(2, 1);
    if l >= 3 {
      PowAdd(2, 2, l - 3);
      PowPositive(2, l - 3);
    }
  }

  lemma {:induction false} SmallKey()
    ensures !Unit(2, 6)
  {
    forall x: int
      ensures !Cong(2 * x, 1, 6)
    {
      if Cong(2 * x, 1, 6) {
        var k := CongElim(2 * x, 1, 6);
      }
    }
  }

  lemma {:induction false} GcdWithOne(a: nat, b: nat)
    requires a == 1 || b == 1
    ensures ExtGcd(a, b).g == 1
  {
    var g := ExtGcd(a, b).g;
    if g > 1 {
      ModUnique(1, g, 0, 1);
    }
  }

  lemma {:induction false} LcmWithOne(a: nat, b: nat)
    requires a > 0 && (a == 1 || b == 1)
    ensures Lcm(a, b) == a * b
  {
    GcdWithOne(a, b);
    var g := ExtGcd(a, b).g;
    ModUnique(a, g, a, 0);
  }

  lemma {:induction false} LongKey(p: nat, q: nat, l: nat)
    requires GoodPrimes(p, q, l) && p > 2 && q > 2
    ensures p * q > 0 && Unit(Lcm(p - 1, q - 1), p * q)
  {
    var s := Lcm(p - 1, q - 1);
    var i, j, g := LcmFactors(p - 1, q - 1);
    SameLength(p, q, l);
    SameLength(q, p, l);
    UnitModPrime(p, q, s, g);
    assert (p - 1) * (q - 1) == (q - 1) * (p - 1);
    UnitModPrime(q, p, s, g);
    UnitBoth(s, p, q);
  }

  lemma {:induction false} ShortKeyFails(p: nat, q: nat, s: int, n: int)
    requires (p == 2 && q == 3) || (p == 3 && q == 2)
    requires s == (p - 1) * (q - 1) && n == p * q
    ensures n > 0 && !Unit(s, n)
  {
    SmallKey();
  }

  /** With two different primes of l bits the key is invertible modulo n exactly when l is not 2, where
      the only two primes are 2 and 3. */
  lemma {:induction false} KeyInvertible(p: nat, q: nat, l: nat)
    requires GoodPrimes(p, q, l)
    ensures p * q > 0 && (Unit(Lcm(p - 1, q - 1), p * q) <==> l != 2)
  {
    ThreeBits(p, q, l);
    if l != 2 {
      LongKey(p, q, l);
    } else {
      LcmWithOne(p - 1, q - 1);
      ShortKeyFails(p, q, Lcm(p - 1, q - 1), p * q);
    }
  }

  /** The single-key round trip: what was encrypted comes back, for every message in range and every
      randomness, exactly when the primes have more than two bits. */
  lemma {:induction false} RoundTrip(p: nat, q: nat, l: nat, m: int, r: nat)
    requires GoodPrimes(p, q, l) && PlainRange(m, p * q) && CoprimeDraw(r, p * q)
    ensures var (pk, s) := KeyGen(p, q);
      && pk.n > 0 && pk.n2 > 0 && s >= 0 && Enc(m, pk, r).Ok?
      && (l != 2 ==> Dec(Enc(m, pk, r).value, pk, s) == Ok(Signed(m % pk.n, pk.n)))
      && (l == 2 ==> Dec(Enc(m, pk, r).value, pk, s).Err?)
  {
    var (pk, s) := KeyGen(p, q);
    PositiveModulus(p, q);
    SquareGreater(pk.n);
    EncCorrect(m, pk, r);
    DecCorrect(p, q, Enc(m, pk, r).value, m);
    KeyInvertible(p, q, l);
  }
}
