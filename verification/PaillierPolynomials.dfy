/**
 The PaillierPolynomial struct: polynomials whose coefficients are ciphertexts. Every in-place
 operation refines the plaintext operation on what the coefficients encrypt, kept in `plain`.
 */
module PaillierPolynomials {
  import opened NumberTheory
  import opened Polynomials
  import opened PolynomialStruct
  import opened Paillier

  // Ciphertext i encrypts message i.
  ghost predicate EncryptsAll(cs: seq<nat>, ms: seq<int>, n: nat) {
    |cs| == |ms| && forall i :: 0 <= i < |cs| ==> Encrypts(cs[i], ms[i], n)
  }

  predicate AllInRange(q: seq<int>, n: int) {
    forall i :: 0 <= i < |q| ==> PlainRange(q[i], n)
  }

  predicate AllDraws(draws: seq<nat>, n: nat) {
    forall i :: 0 <= i < |draws| ==> CoprimeDraw(draws[i], n)
  }

  // Encrypting coefficient by coefficient; draws[i] randomizes coefficient i.
  method EncryptCoefficients(poly: seq<int>, pk: PubKey, draws: seq<nat>) returns (r: Result<seq<nat>>)
    requires PublicKeyShape(pk) && |draws| == |poly| && AllDraws(draws, pk.n)
    ensures r.Ok? <==> forall i :: 0 <= i < |poly| ==> -(pk.n as int) <= poly[i] < pk.n
    ensures r.Ok? ==> EncryptsAll(r.value, poly, pk.n)
    ensures r.Ok? ==> forall i :: 0 <= i < |poly| ==> Encrypts(r.value[i], poly[i], pk.n) && Enc(poly[i], pk, draws[i]) == Ok(r.value[i])
  {
    var cs: seq<nat> := [];
    for i := 0 to |poly|
      invariant |cs| == i && forall k :: 0 <= k < i ==> Enc(poly[k], pk, draws[k]) == Ok(cs[k])
      invariant AllInRange(poly[..i], pk.n) && EncryptsAll(cs, poly[..i], pk.n)
    {
      EncCorrect(poly[i], pk, draws[i]);
      var c := Enc(poly[i], pk, draws[i]);
      if c.Err? {
        return Err(c.reason);
      }
      cs := cs + [c.value];
    }
    assert poly[..|poly|] == poly;
    r := Ok(cs);
  }

  class PaillierPolynomial {
    var coefficients: seq<nat>
    const publicKey: PubKey
    ghost var plain: seq<int>

    ghost predicate Valid()
      reads this
    {
      PublicKeyShape(publicKey) && EncryptsAll(coefficients, plain, publicKey.n)
    }

    constructor (coeffs: seq<nat>, pk: PubKey, ghost ms: seq<int>)
      requires PublicKeyShape(pk) && EncryptsAll(coeffs, ms, pk.n)
      ensures Valid() && coefficients == coeffs && plain == ms && publicKey == pk
    {
      coefficients := coeffs;
      publicKey := pk;
      plain := ms;
    }

    function Degree(): nat
      reads this
    {
      if |coefficients| == 0 then 0 else |coefficients| - 1
    }

    // The encrypted value at a public point: running power, starting from 1 = E(0).
    method EvaluateAt(y: nat) returns (result: nat)
      requires Valid() && y < publicKey.n
      ensures Encrypts(result, Eval(plain, y), publicKey.n)
    {
      var n := publicKey.n;
      result := 1;
      var yPower: nat := 1;
      OneEncryptsZero(n);
      CongMod(1, n);
      for i := 0 to |coefficients|
        invariant Encrypts(result, Eval(plain[..i], y), n)
        invariant yPower < n && Cong(yPower, Pow(y, i), n)
      {
        MulCorrect(coefficients[i], plain[i], yPower, publicKey);
        var term := Mul(coefficients[i], yPower, publicKey).value;
        AddCorrect(result, Eval(plain[..i], y), term, plain[i] * yPower, publicKey);
        result := Add(result, term, publicKey).value;
        RunningPowers(plain, y, i, Eval(plain[..i], y), yPower, n);
        EncryptsResidue(result, Eval(plain[..i], y) + plain[i] * yPower, Eval(plain[..i + 1], y), n);
        yPower := (yPower * y) % n;
      }
      assert plain[..|coefficients|] == plain;
    }

    // Missing coefficients of the shorter polynomial are padded with 1, an encryption of 0.
    method AddPoly(other: PaillierPolynomial)
      requires Valid() && other.Valid() && other.publicKey == publicKey
      modifies this
      ensures Valid() && plain == Sum(old(plain), old(other.plain))
    {
      var n := publicKey.n;
      ghost var ms, os := plain, other.plain;
      var extra := |other.coefficients| - |coefficients|;
      if extra > 0 {
        coefficients := coefficients + seq(extra, _ => 1);
      }
      OneEncryptsZero(n);
      var count := |other.coefficients|;
      for i := 0 to count
        invariant |coefficients| == Max(|ms|, |os|) && |other.coefficients| >= count == |os|
        invariant other != this ==> other.coefficients == old(other.coefficients)
        invariant forall k :: 0 <= k < |coefficients| ==>
          Encrypts(coefficients[k], At(ms, k) + (if k < i then os[k] else 0), n)
        invariant forall k :: i <= k < count ==> Encrypts(other.coefficients[k], os[k], n)
      {
        AddCorrect(coefficients[i], At(ms, i), other.coefficients[i], os[i], publicKey);
        coefficients := coefficients[i := Add(coefficients[i], other.coefficients[i], publicKey).value];
      }
      plain := Sum(ms, os);
    }

    // Multiplication by a plaintext polynomial; a coefficient outside [-n, n) throws.
    method MulPoly(other: Polynomial, r: nat) returns (ok: bool)
      requires Valid() && CoprimeDraw(r, publicKey.n)
      modifies this
      ensures ok <==> old(|coefficients|) == 0 || forall i :: 0 <= i < |other.coefficients| ==>
        -(publicKey.n as int) <= other.coefficients[i] < publicKey.n
      ensures Valid() && plain == if ok then Product(old(plain), other.coefficients) else old(plain)
    {
      if |coefficients| == 0 || |other.coefficients| == 0 {
        EncCorrect(0, publicKey, r);
        coefficients := [Enc(0, publicKey, r).value];
        plain := [0];
        return true;
      }
      var result := CipherProduct(coefficients, other.coefficients, publicKey, plain);
      if result.Err? {
        return false;
      }
      coefficients := result.value;
      plain := Product(plain, other.coefficients);
      ok := true;
    }

    // The scalars are 1, 2, ..., degree.
    method Derive(r: nat) returns (ok: bool)
      requires Valid() && CoprimeDraw(r, publicKey.n)
      modifies this
      ensures ok <==> old(|coefficients|) <= publicKey.n
      ensures Valid() && plain == if ok then Derivative(old(plain)) else old(plain)
    {
      if |coefficients| <= 1 {
        EncCorrect(0, publicKey, r);
        coefficients := [Enc(0, publicKey, r).value];
        plain := [0];
        return true;
      }
      var result: seq<nat> := [];
      for i := 0 to |coefficients| - 1
        invariant coefficients == old(coefficients) && plain == old(plain)
        invariant |result| == i
        invariant forall k :: 0 <= k < i ==> Encrypts(result[k], plain[k + 1] * (k + 1), publicKey.n)
        invariant i < publicKey.n
      {
        MulCorrect(coefficients[i + 1], plain[i + 1], i + 1, publicKey);
        var term := Mul(coefficients[i + 1], i + 1, publicKey);
        if term.Err? { return false; }
        result := result + [term.value];
      }
      coefficients := result;
      plain := Derivative(plain);
      ok := true;
    }
  }

  // The double loop of PaillierPolynomial::mulPoly.
  method CipherProduct(a: seq<nat>, b: seq<int>, pk: PubKey, ghost ms: seq<int>) returns (r: Result<seq<nat>>)
    requires PublicKeyShape(pk) && EncryptsAll(a, ms, pk.n) && |a| > 0 && |b| > 0
    ensures r.Ok? <==> AllInRange(b, pk.n)
    ensures r.Ok? ==> EncryptsAll(r.value, Product(ms, b), pk.n)
  {
    var n := pk.n;
    var result: seq<nat> := seq(|a| + |b| - 1, _ => 1);
    OneEncryptsZero(n);
    for i := 0 to |a|
      invariant |result| == |a| + |b| - 1 && (i > 0 ==> AllInRange(b, n))
      invariant forall k :: 0 <= k < |result| ==> Encrypts(result[k], ConvSum(ms, b, k, i), n)
    {
      for j := 0 to |b|
        invariant |result| == |a| + |b| - 1 && AllInRange(b[..j], n)
        invariant forall k :: 0 <= k < |result| ==> Encrypts(result[k], ConvPart(ms, b, k, i, j), n)
      {
        MulCorrect(a[i], ms[i], b[j], pk);
        var term := Mul(a[i], b[j], pk);
        if term.Err? { return Err(term.reason); }
        AddCorrect(result[i + j], ConvPart(ms, b, i + j, i, j), term.value, ms[i] * b[j], pk);
        result := result[i + j := Add(result[i + j], term.value, pk).value];
      }
      assert b[..|b|] == b;
    }
    r := Ok(result);
  }
}
