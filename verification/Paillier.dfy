/**
 n-of-n threshold Paillier encryption: key dealing with Shamir shares modulo N*m,
 encryption, the homomorphic operations, partial decryption, and the fusion of all
 partial decryptions with integer Lagrange coefficients scaled by n!.

 Random draws are parameters; a C++ exception is an Err value.
 */
module Paillier {
  import opened NumberTheory
  import opened Polynomials

  datatype Result<+T> = Ok(value: T) | Err(reason: string) {
    predicate IsFailure() { Err? }
    function PropagateFailure<U>(): Result<U>
      requires Err?
    {
      Err(reason)
    }
    function Extract(): T
      requires Ok?
    {
      value
    }
  }

  datatype PubKey = PubKey(n: nat, n2: nat, g: nat, theta: nat, delta: nat)

  // ---------------------------------------------------------------- arithmetic the library provides

  // NTL's integer division rounds towards minus infinity.
  function FloorDiv(a: int, b: int): int
    requires b != 0
  {
    if b > 0 then a / b else (-a) / (-b)
  }

  function PowerMod(a: int, e: int, n: nat): Option<nat>
    requires n > 0
  {
    if e >= 0 then Some(Pow(a, e) % n)
    else match InvMod(a, n)
      case None => None
      case Some(inv) => Some(Pow(inv, -e) % n)
  }

  // What randCoprime can return.
  predicate CoprimeDraw(r: nat, n: nat) {
    1 < r < n && Coprime(r, n)
  }

  // The representative of m in the signed range around zero.
  function Signed(m: nat, n: nat): int {
    if m > n / 2 then m - n else m
  }

  // ---------------------------------------------------------------- encryption and homomorphic operations

  function Normalize(m: int, n: nat): int {
    if m >= 0 then m else n + m
  }

  // The scalars and plaintexts that normalize into [0, n).
  predicate PlainRange(m: int, n: int) {
    -n <= m < n
  }

  predicate ValidCiphertext(c: int, pk: PubKey) {
    0 < c < pk.n2
  }

  function Enc(m: int, pk: PubKey, r: nat): Result<nat>
    requires pk.n2 > 0
  {
    var mm := Normalize(m, pk.n);
    if mm < 0 || mm >= pk.n then Err("plaintext out of valid range")
    else Ok(((Pow(pk.g, mm) % pk.n2) * (Pow(r, pk.n) % pk.n2)) % pk.n2)
  }

  function Add(c1: int, c2: int, pk: PubKey): Result<nat> {
    if !ValidCiphertext(c1, pk) || !ValidCiphertext(c2, pk) then Err("ciphertext out of valid range")
    else Ok((c1 * c2) % pk.n2)
  }

  function Sub(c1: int, c2: int, pk: PubKey): Result<nat> {
    if !ValidCiphertext(c1, pk) || !ValidCiphertext(c2, pk) then Err("ciphertext out of valid range")
    else match InvMod(c2, pk.n2)
      case None => Err("InvMod: inverse undefined")
      case Some(inv) => Ok((c1 * inv) % pk.n2)
  }

  function Mul(c: int, k: int, pk: PubKey): Result<nat> {
    if !ValidCiphertext(c, pk) then Err("ciphertext out of valid range")
    else
      var kk := Normalize(k, pk.n);
      if kk < 0 || kk >= pk.n then Result<nat>.Err("scalar out of valid range after normalization")
      else Ok(Pow(c, kk) % pk.n2)
  }

  function Rerand(c: int, pk: PubKey, r: nat): Result<nat> {
    if !ValidCiphertext(c, pk) then Err("ciphertext out of valid range")
    else Ok((c * (Pow(r, pk.n) % pk.n2)) % pk.n2)
  }

  function PartialDec(c: int, pk: PubKey, s: nat): Result<nat> {
    if !ValidCiphertext(c, pk) then Err("ciphertext out of valid range")
    else Ok(Pow(c, 2 * pk.delta * s) % pk.n2)
  }

  // ---------------------------------------------------------------- what a ciphertext encrypts

  // c is a ciphertext of m with randomness r: c = (1 + m*N) * r^N mod N^2.
  ghost predicate EncryptsWith(c: int, m: int, r: int, n: nat) {
    n > 1 && 0 < c < n * n && Unit(r, n) && Cong(c, (1 + m * n) * Pow(r, n), n * n)
  }

  ghost predicate Encrypts(c: int, m: int, n: nat) {
    exists r: int :: EncryptsWith(c, m, r, n)
  }

  ghost predicate PublicKeyShape(pk: PubKey) {
    pk.n > 2 && pk.n2 == pk.n * pk.n > 0 && pk.g == pk.n + 1
  }

  lemma SquareGreater(n: nat)
    requires n > 1
    ensures n * n > n
  {
  }

  // (1+n)^e = 1 + e*n mod n^2, more generally for 1 + m*n.
  lemma {:induction false} PowLinear(m: int, e: nat, n: nat)
    requires n > 0
    ensures n * n > 0 && Cong(Pow(1 + m * n, e), 1 + (e * m) * n, n * n)
  {
    var q := BinomialLinear(m * n, e);
    Swap4(m, n, m, n);
    Assoc(q, m * m, n * n);
    Assoc(e, m, n);
    CongIntro(Pow(1 + m * n, e), 1 + (e * m) * n, n * n, q * (m * m));
  }

  // The message part depends on m only modulo n.
  lemma {:induction false} MessageCong(m: int, m': int, n: nat)
    requires n > 0 && Cong(m, m', n)
    ensures n * n > 0 && Cong(1 + m * n, 1 + m' * n, n * n)
  {
    CongScale(m, m', n, n);
    CongAdd(1, 1, m * n, m' * n, n * n);
  }

  lemma {:induction false} MessageProduct(m: int, m': int, n: nat)
    requires n > 0
    ensures n * n > 0 && Cong((1 + m * n) * (1 + m' * n), 1 + (m + m') * n, n * n)
  {
    Swap4(m, n, m', n);
    assert (1 + m * n) * (1 + m' * n) == 1 + (m + m') * n + (m * n) * (m' * n);
    CongIntro((1 + m * n) * (1 + m' * n), 1 + (m + m') * n, n * n, m * m');
  }

  // A unit modulo n^2 has a non-zero residue.
  lemma {:induction false} UnitResidue(c: int, k: int)
    requires k > 1 && Unit(c, k)
    ensures 0 < c % k < k
  {
    if c % k == 0 {
      ModZeroMultiple(0, k);
      UnitCong(c, 0, k);
      var x :| Cong(0 * x, 1, k);
      ModUnique(1, k, 0, 1);
      assert false;
    }
  }

  lemma {:induction false} MessageUnit(m: int, n: nat)
    requires n > 0
    ensures n * n > 0 && Unit(1 + m * n, n * n)
  {
    MessageProduct(m, -m, n);
    assert 1 + (m + -m) * n == 1;
    assert Cong((1 + m * n) * (1 + -m * n), 1, n * n);
  }

  lemma {:induction false} CiphertextUnit(c: int, m: int, r: int, n: nat)
    requires n > 1 && Unit(r, n) && n * n > 0 && Cong(c, (1 + m * n) * Pow(r, n), n * n)
    ensures Unit(c, n * n) && 0 < c % (n * n) < n * n
  {
    SquareGreater(n);
    UnitBoth(r, n, n);
    UnitPow(r, n, n * n);
    MessageUnit(m, n);
    UnitProduct(1 + m * n, Pow(r, n), n * n);
    UnitCong((1 + m * n) * Pow(r, n), c, n * n);
    UnitResidue(c, n * n);
  }

  // Reducing anything congruent to (1+mn) r^n yields a ciphertext of m.
  lemma {:induction false} MakeCiphertext(v: int, m: int, r: int, n: nat)
    requires n > 1 && Unit(r, n) && n * n > 0 && Cong(v, (1 + m * n) * Pow(r, n), n * n)
    ensures EncryptsWith(v % (n * n), m, r, n) && Encrypts(v % (n * n), m, n)
  {
    CiphertextUnit(v, m, r, n);
    ReducedCong(v, (1 + m * n) * Pow(r, n), n * n);
    assert EncryptsWith(v % (n * n), m, r, n);
  }

  lemma {:induction false} ReducedCong(v: int, x: int, q: int)
    requires q > 0 && Cong(v, x, q)
    ensures Cong(v % q, x, q)
  {
    CongMod(v, q);
  }

  lemma {:induction false} WithResidue(c: int, m: int, m': int, r: int, n: nat)
    requires EncryptsWith(c, m, r, n) && Cong(m, m', n)
    ensures EncryptsWith(c, m', r, n)
  {
    MessageCong(m, m', n);
    CongMul(1 + m * n, 1 + m' * n, Pow(r, n), Pow(r, n), n * n);
  }

  lemma {:induction false} EncryptsResidue(c: int, m: int, m': int, n: nat)
    requires Encrypts(c, m, n) && n > 0 && Cong(m, m', n)
    ensures Encrypts(c, m', n)
  {
    var r :| EncryptsWith(c, m, r, n);
    WithResidue(c, m, m', r, n);
  }

  /** Encryption succeeds exactly for messages from -N to N - 1, and computes (1 + mN) r^N modulo N^2 from
      the message and the draw. */
  lemma {:induction false} EncCorrect(m: int, pk: PubKey, r: nat)
    requires PublicKeyShape(pk) && CoprimeDraw(r, pk.n)
    ensures Enc(m, pk, r).Ok? <==> -(pk.n as int) <= m < pk.n
    ensures Enc(m, pk, r).Ok? ==> Encrypts(Enc(m, pk, r).value, m, pk.n) && EncryptsWith(Enc(m, pk, r).value, m, r, pk.n)
    ensures Enc(m, pk, r).Ok? ==> Enc(m, pk, r).value < pk.n2 && Cong(Enc(m, pk, r).value, (1 + m * pk.n) * Pow(r, pk.n), pk.n * pk.n)
  {
    var n := pk.n;
    if PlainRange(m, n) {
      var mm := Normalize(m, n);
      NormalizeCong(1, m, n);
      CoprimeIsUnit(r, n);
      PowLinear(1, mm, n);
      assert pk.g == 1 + 1 * n;
      CongMod(Pow(pk.g, mm), pk.n2);
      CongMod(Pow(r, n), pk.n2);
      MessageCong(mm, m, n);
      CongMul(Pow(pk.g, mm) % pk.n2, 1 + m * n, Pow(r, n) % pk.n2, Pow(r, n), pk.n2);
      MakeCiphertext((Pow(pk.g, mm) % pk.n2) * (Pow(r, n) % pk.n2), m, r, n);
    }
  }

  /** Two draws give the same ciphertext of a message exactly when their N-th powers agree modulo N^2. */
  lemma {:induction false} SameCiphertext(m: int, pk: PubKey, r: nat, s: nat)
    requires PublicKeyShape(pk) && CoprimeDraw(r, pk.n) && CoprimeDraw(s, pk.n) && -(pk.n as int) <= m < pk.n
    ensures Enc(m, pk, r) == Enc(m, pk, s) <==> Cong(Pow(r, pk.n), Pow(s, pk.n), pk.n * pk.n)
  {
    var n, a := pk.n, 1 + m * pk.n;
    EncCorrect(m, pk, r);
    EncCorrect(m, pk, s);
    var c, d := Enc(m, pk, r).value, Enc(m, pk, s).value;
    if Cong(Pow(r, n), Pow(s, n), n * n) {
      CongMul(a, a, Pow(r, n), Pow(s, n), n * n);
      ModUnique(c, n * n, 0, c);
      ModUnique(d, n * n, 0, d);
    }
    if c == d {
      MessageUnit(m, n);
      UnitCancel(a, Pow(r, n), Pow(s, n), n * n);
    }
  }

  // 1 is a ciphertext of 0: the padding value of encrypted polynomials.
  lemma {:induction false} OneEncryptsZero(n: nat)
    requires n > 1
    ensures Encrypts(1, 0, n)
  {
    SquareGreater(n);
    PowOne(n);
    assert Cong(1 * 1, 1, n);
    assert EncryptsWith(1, 0, 1, n);
  }

  /** Adding ciphertexts adds the messages and multiplies the randomness. */
  lemma {:induction false} AddWith(c1: int, m1: int, r1: int, c2: int, m2: int, r2: int, pk: PubKey)
    requires PublicKeyShape(pk) && EncryptsWith(c1, m1, r1, pk.n) && EncryptsWith(c2, m2, r2, pk.n)
    ensures Add(c1, c2, pk).Ok? && EncryptsWith(Add(c1, c2, pk).value, m1 + m2, r1 * r2, pk.n)
  {
    var n := pk.n;
    var a1, a2 := 1 + m1 * n, 1 + m2 * n;
    CongMul(c1, a1 * Pow(r1, n), c2, a2 * Pow(r2, n), n * n);
    Swap4(a1, Pow(r1, n), a2, Pow(r2, n));
    PowProduct(r1, r2, n);
    MessageProduct(m1, m2, n);
    CongMul(a1 * a2, 1 + (m1 + m2) * n, Pow(r1 * r2, n), Pow(r1 * r2, n), n * n);
    UnitProduct(r1, r2, n);
    MakeCiphertext(c1 * c2, m1 + m2, r1 * r2, n);
  }

  lemma {:induction false} AddCorrect(c1: int, m1: int, c2: int, m2: int, pk: PubKey)
    requires PublicKeyShape(pk) && Encrypts(c1, m1, pk.n) && Encrypts(c2, m2, pk.n)
    ensures Add(c1, c2, pk).Ok? && Encrypts(Add(c1, c2, pk).value, m1 + m2, pk.n)
  {
    var r1 :| EncryptsWith(c1, m1, r1, pk.n);
    var r2 :| EncryptsWith(c2, m2, r2, pk.n);
    AddWith(c1, m1, r1, c2, m2, r2, pk);
  }

  // The inverse of a ciphertext of m is a ciphertext of -m, with inverse randomness.
  lemma {:induction false} InverseCiphertext(c: int, m: int, r: int, x: int, n: nat) returns (inv: nat)
    requires EncryptsWith(c, m, r, n) && Cong(r * x, 1, n)
    ensures n * n > 0 && InvMod(c, n * n) == Some(inv) && EncryptsWith(inv, -m, x, n)
  {
    var a, b, rn, xn := 1 + m * n, 1 + -m * n, Pow(r, n), Pow(x, n);
    var w := b * xn;
    CongMul(c, a * rn, w, w, n * n);
    Swap4(a, rn, b, xn);
    PowProduct(r, x, n);
    LiftToSquare(r * x, n);
    MessageProduct(m, -m, n);
    CongMul(a * b, 1, rn * xn, 1, n * n);
    assert Cong(c * w, 1, n * n);
    inv := InvMod(c, n * n).value;
    InverseUnique(c, inv, w, n * n);
    assert Cong(x * r, 1, n);
    MakeCiphertext(inv, -m, x, n);
    ModUnique(inv, n * n, 0, inv);
  }

  /** Subtracting ciphertexts subtracts the messages and multiplies with the inverse randomness. */
  lemma {:induction false} SubWith(c1: int, m1: int, r1: int, c2: int, m2: int, r2: int, x: int, pk: PubKey)
    requires PublicKeyShape(pk) && EncryptsWith(c1, m1, r1, pk.n) && EncryptsWith(c2, m2, r2, pk.n) && Cong(r2 * x, 1, pk.n)
    ensures Sub(c1, c2, pk).Ok? && EncryptsWith(Sub(c1, c2, pk).value, m1 - m2, r1 * x, pk.n)
  {
    var inv := InverseCiphertext(c2, m2, r2, x, pk.n);
    AddWith(c1, m1, r1, inv, -m2, x, pk);
  }

  lemma {:induction false} SubCorrect(c1: int, m1: int, c2: int, m2: int, pk: PubKey)
    requires PublicKeyShape(pk) && Encrypts(c1, m1, pk.n) && Encrypts(c2, m2, pk.n)
    ensures Sub(c1, c2, pk).Ok? && Encrypts(Sub(c1, c2, pk).value, m1 - m2, pk.n)
  {
    var r1 :| EncryptsWith(c1, m1, r1, pk.n);
    var r2 :| EncryptsWith(c2, m2, r2, pk.n);
    var x :| Cong(r2 * x, 1, pk.n);
    SubWith(c1, m1, r1, c2, m2, r2, x, pk);
  }

  lemma {:induction false} PowCiphertext(c: int, m: int, r: int, k: nat, n: nat)
    requires EncryptsWith(c, m, r, n)
    ensures n * n > 0 && EncryptsWith(Pow(c, k) % (n * n), k * m, Pow(r, k), n)
  {
    var a := 1 + m * n;
    CongPow(c, a * Pow(r, n), k, n * n);
    PowProduct(a, Pow(r, n), k);
    PowLinear(m, k, n);
    PowSwap(r, n, k);
    CongMul(Pow(a, k), 1 + (k * m) * n, Pow(Pow(r, n), k), Pow(Pow(r, k), n), n * n);
    UnitPow(r, k, n);
    MakeCiphertext(Pow(c, k), k * m, Pow(r, k), n);
  }

  lemma {:induction false} PowSwap(r: int, x: nat, y: nat)
    ensures Pow(Pow(r, x), y) == Pow(Pow(r, y), x)
  {
    PowMul(r, x, y);
    PowMul(r, y, x);
    assert x * y == y * x;
  }

  lemma {:induction false} NormalizeCong(m: int, k: int, n: nat)
    requires n > 0
    ensures Cong(Normalize(k, n), k, n)
    ensures Cong(Normalize(k, n) * m, m * k, n)
  {
    var kk := Normalize(k, n);
    CongIntro(kk, k, n, if k >= 0 then 0 else 1);
    CongMul(kk, k, m, m, n);
  }

  lemma CiphertextRange(c: int, m: int, n: nat)
    requires Encrypts(c, m, n)
    ensures 0 < c < n * n
  {
  }

  /** Multiplying by a scalar multiplies the message and takes the randomness to that power; a negative scalar
      counts from N. */
  lemma {:induction false} MulWith(c: int, m: int, r: int, k: int, pk: PubKey)
    requires PublicKeyShape(pk) && EncryptsWith(c, m, r, pk.n) && -(pk.n as int) <= k < pk.n
    ensures Mul(c, k, pk).Ok? && EncryptsWith(Mul(c, k, pk).value, m * k, Pow(r, if k >= 0 then k else pk.n + k), pk.n)
  {
    var n, kk := pk.n, Normalize(k, pk.n);
    PowCiphertext(c, m, r, kk, n);
    NormalizeCong(m, k, n);
    WithResidue(Pow(c, kk) % (n * n), kk * m, m * k, Pow(r, kk), n);
  }

  lemma {:induction false} MulCorrect(c: int, m: int, k: int, pk: PubKey)
    requires PublicKeyShape(pk) && Encrypts(c, m, pk.n)
    ensures Mul(c, k, pk).Ok? <==> -(pk.n as int) <= k < pk.n
    ensures Mul(c, k, pk).Ok? ==> Encrypts(Mul(c, k, pk).value, m * k, pk.n)
  {
    CiphertextRange(c, m, pk.n);
    if PlainRange(k, pk.n) {
      var r :| EncryptsWith(c, m, r, pk.n);
      MulWith(c, m, r, k, pk);
    }
  }

  /** Re-randomising multiplies the randomness with the draw and keeps the message. */
  lemma {:induction false} RerandWith(c: int, m: int, x: int, r: nat, pk: PubKey)
    requires PublicKeyShape(pk) && EncryptsWith(c, m, x, pk.n) && CoprimeDraw(r, pk.n)
    ensures Rerand(c, pk, r).Ok? && EncryptsWith(Rerand(c, pk, r).value, m, x * r, pk.n)
  {
    var n := pk.n;
    CoprimeIsUnit(r, n);
    assert (1 + 0 * n) * Pow(r, n) == Pow(r, n);
    MakeCiphertext(Pow(r, n), 0, r, n);
    AddWith(c, m, x, Pow(r, n) % pk.n2, 0, r, pk);
  }

  lemma {:induction false} RerandCorrect(c: int, m: int, r: nat, pk: PubKey)
    requires PublicKeyShape(pk) && Encrypts(c, m, pk.n) && CoprimeDraw(r, pk.n)
    ensures Rerand(c, pk, r).Ok? && Encrypts(Rerand(c, pk, r).value, m, pk.n)
  {
    var x :| EncryptsWith(c, m, x, pk.n);
    RerandWith(c, m, x, r, pk);
  }

  /** A partial decryption with share s is a ciphertext of 2 delta s times the message, with the randomness to
      that power. */
  lemma {:induction false} PartialDecWith(c: int, m: int, r: int, s: nat, pk: PubKey)
    requires PublicKeyShape(pk) && EncryptsWith(c, m, r, pk.n)
    ensures PartialDec(c, pk, s).Ok?
    ensures EncryptsWith(PartialDec(c, pk, s).value, 2 * pk.delta * s * m, Pow(r, 2 * pk.delta * s), pk.n)
  {
    PowCiphertext(c, m, r, 2 * pk.delta * s, pk.n);
  }

  /** What the operations refuse: numbers outside (0, N^2), divisors without an inverse, scalars out of range. */
  lemma {:induction false} RangesChecked(c1: int, c2: int, k: int, r: nat, s: nat, pk: PubKey)
    requires PublicKeyShape(pk)
    ensures Add(c1, c2, pk).Ok? <==> 0 < c1 < pk.n2 && 0 < c2 < pk.n2
    ensures Sub(c1, c2, pk).Ok? <==> 0 < c1 < pk.n2 && 0 < c2 < pk.n2 && Unit(c2, pk.n2)
    ensures Mul(c1, k, pk).Ok? <==> 0 < c1 < pk.n2 && -(pk.n as int) <= k < pk.n
    ensures Rerand(c1, pk, r).Ok? <==> 0 < c1 < pk.n2
    ensures PartialDec(c1, pk, s).Ok? <==> 0 < c1 < pk.n2
  {
  }
}
