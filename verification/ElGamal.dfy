/**
 Threshold ElGamal of XZH26 over an abstract group: the public key is the sum of all parties' key
 parts, and a ciphertext opens when every party contributes its partial decryption.
 */
module ElGamal {
  import opened NumberTheory
  import opened BitPositions
  import opened Groups

  datatype Cipher = Cipher(c1: Point, c2: Point)

  predicate ValidCipher(g: Group, ct: Cipher) {
    g.valid(ct.c1) && g.valid(ct.c2)
  }

  // scalar_negate
  function Negate(g: Group, a: nat): (r: nat)
    requires g.order > 0
    ensures r < g.order
  {
    (g.order - a % g.order) % g.order
  }

  lemma {:induction false} NegateCancels(g: Group, a: nat)
    requires g.order > 0
    ensures Cong(a + Negate(g, a), 0, g.order)
  {
    var l, r := g.order, a % g.order;
    CongMod(a, l);
    CongMod(l - r, l);
    CongAdd(a, r, Negate(g, a), l - r, l);
    ModZeroMultiple(1, l);
    ModZeroMultiple(0, l);
  }

  // The plaintext a ciphertext has under the joint secret.
  function PlainOf(g: Group, secret: nat, ct: Cipher): Point
    requires g.order > 0
  {
    g.add(ct.c2, Times(g, Negate(g, secret), ct.c1))
  }

  // ---------------------------------------------------------------- operations

  /** Encryption hides the plaintext behind the r-fold public key: under every secret that belongs to
      the key the result opens to the plaintext. */
  method Encrypt(g: Group, plaintext: Point, publicKey: Point, r: nat) returns (cipher: Cipher)
    requires IsGroup(g) && g.valid(plaintext)
    ensures cipher.c1 == Times(g, r, g.base)
    ensures forall secret: nat :: publicKey == Times(g, secret, g.base) ==>
      ValidCipher(g, cipher) && PlainOf(g, secret, cipher) == plaintext
  {
    var temp := Times(g, r, publicKey);
    cipher := Cipher(Times(g, r, g.base), g.add(temp, plaintext));
    forall secret: nat | publicKey == Times(g, secret, g.base)
      ensures ValidCipher(g, cipher) && PlainOf(g, secret, cipher) == plaintext
    {
      EncryptOpens(g, secret, plaintext, r, cipher);
    }
  }

  // Homo_Add
  function HomoAdd(g: Group, a: Cipher, b: Cipher): Cipher {
    Cipher(g.add(a.c1, b.c1), g.add(a.c2, b.c2))
  }

  function PartialDecrypt(g: Group, c1: Point, a: nat): Point
    requires g.order > 0
  {
    Times(g, Negate(g, a), c1)
  }

  function SumPoints(g: Group, ps: seq<Point>): Point {
    if |ps| == 0 then ZERO_POINT else g.add(SumPoints(g, ps[..|ps| - 1]), ps[|ps| - 1])
  }

  // Both sums start at nothing and grow by one summand.
  lemma {:induction false} SumsGrow(g: Group, ps: seq<Point>, p: Point, secrets: seq<nat>, a: nat)
    ensures SumPoints(g, []) == ZERO_POINT && SumPoints(g, ps + [p]) == g.add(SumPoints(g, ps), p)
    ensures SumScalars([]) == 0 && SumScalars(secrets + [a]) == SumScalars(secrets) + a
  {
    assert (ps + [p])[..|ps|] == ps && (secrets + [a])[..|secrets|] == secrets;
  }

  /** A partial decryption cancels the secret's multiple of the first component. */
  lemma {:induction false} PartCancels(g: Group, c1: Point, a: nat)
    requires IsGroup(g) && g.valid(c1)
    ensures g.add(PartialDecrypt(g, c1, a), Times(g, a, c1)) == ZERO_POINT
  {
    TimesAdd(g, Negate(g, a), a, c1);
    NegateCancels(g, a);
    TimesCong(g, Negate(g, a) + a, 0, c1);
  }

  lemma {:induction false} SumPointsValid(g: Group, ps: seq<Point>)
    requires Laws(g) && forall i :: 0 <= i < |ps| ==> g.valid(ps[i])
    ensures g.valid(SumPoints(g, ps))
  {
    if |ps| > 0 {
      SumPointsValid(g, ps[..|ps| - 1]);
      AddValid(g, SumPoints(g, ps[..|ps| - 1]), ps[|ps| - 1]);
    }
  }

  // FullyDecrypt: all shares are added to the second component.
  method FullyDecrypt(g: Group, shares: seq<Point>, c2: Point) returns (plaintext: Point)
    requires Laws(g) && g.valid(c2) && forall i :: 0 <= i < |shares| ==> g.valid(shares[i])
    ensures plaintext == g.add(c2, SumPoints(g, shares))
  {
    plaintext := c2;
    AddZero(g, c2);
    for i := 0 to |shares|
      invariant plaintext == g.add(c2, SumPoints(g, shares[..i]))
    {
      SumPointsValid(g, shares[..i]);
      assert shares[..i + 1][..i] == shares[..i];
      AddAssoc(g, c2, SumPoints(g, shares[..i]), shares[i]);
      plaintext := g.add(plaintext, shares[i]);
    }
    assert shares[..|shares|] == shares;
  }

  // ---------------------------------------------------------------- key generation

  function SumScalars(secrets: seq<nat>): nat {
    if |secrets| == 0 then 0 else SumScalars(secrets[..|secrets| - 1]) + secrets[|secrets| - 1]
  }

  /** The joint key: the leader starts with its own part and adds every client's; the result is the
      public key of the sum of all secrets. */
  method JointKey(g: Group, leaderSecret: nat, clientSecrets: seq<nat>) returns (beta: Point)
    requires Laws(g)
    ensures beta == Times(g, SumScalars([leaderSecret] + clientSecrets), g.base)
  {
    beta := Times(g, leaderSecret, g.base);
    assert SumScalars([leaderSecret]) == SumScalars([]) + leaderSecret by { assert [leaderSecret][..0] == []; }
    for i := 0 to |clientSecrets|
      invariant beta == Times(g, SumScalars([leaderSecret] + clientSecrets[..i]), g.base)
    {
      var betaPart := Times(g, clientSecrets[i], g.base);
      ghost var all := [leaderSecret] + clientSecrets[..i + 1];
      assert all[..|all| - 1] == [leaderSecret] + clientSecrets[..i];
      TimesAdd(g, SumScalars([leaderSecret] + clientSecrets[..i]), clientSecrets[i], g.base);
      beta := g.add(beta, betaPart);
    }
    assert clientSecrets[..|clientSecrets|] == clientSecrets;
  }

  // ---------------------------------------------------------------- correctness

  lemma {:induction false} PlainValid(g: Group, secret: nat, ct: Cipher)
    requires Laws(g) && g.order > 0 && ValidCipher(g, ct)
    ensures g.valid(PlainOf(g, secret, ct))
  {
    TimesValid(g, Negate(g, secret), ct.c1);
    AddValid(g, ct.c2, Times(g, Negate(g, secret), ct.c1));
  }

  // r (A B) + (-A) (r B) = 0
  lemma {:induction false} MaskCancels(g: Group, secret: nat, r: nat, p: Point)
    requires IsGroup(g) && g.valid(p)
    ensures g.add(Times(g, r, Times(g, secret, p)), Times(g, Negate(g, secret), Times(g, r, p))) == ZERO_POINT
  {
    var n := Negate(g, secret);
    TimesTimes(g, r, secret, p);
    TimesTimes(g, n, r, p);
    TimesAdd(g, r * secret, n * r, p);
    Distribute(r, secret, n);
    NegateCancels(g, secret);
    CongMul(r, r, secret + n, 0, g.order);
    TimesCong(g, r * secret + n * r, 0, p);
  }

  /** Encryption under the joint key opens to the plaintext. */
  lemma {:induction false} EncryptOpens(g: Group, secret: nat, plaintext: Point, r: nat, ct: Cipher)
    requires IsGroup(g) && g.valid(plaintext)
    requires ct == Cipher(Times(g, r, g.base), g.add(Times(g, r, Times(g, secret, g.base)), plaintext))
    ensures ValidCipher(g, ct) && PlainOf(g, secret, ct) == plaintext
  {
    var x := Times(g, r, Times(g, secret, g.base));
    var y := Times(g, Negate(g, secret), ct.c1);
    TimesValid(g, secret, g.base);
    TimesValid(g, r, Times(g, secret, g.base));
    TimesValid(g, r, g.base);
    TimesValid(g, Negate(g, secret), ct.c1);
    AddValid(g, x, plaintext);
    AddComm(g, x, plaintext);
    AddAssoc(g, plaintext, x, y);
    MaskCancels(g, secret, r, g.base);
    AddZero(g, plaintext);
  }

  /** Adding ciphertexts adds plaintexts. */
  lemma {:induction false} HomoAddOpens(g: Group, secret: nat, a: Cipher, b: Cipher)
    requires Laws(g) && g.order > 0 && ValidCipher(g, a) && ValidCipher(g, b)
    ensures ValidCipher(g, HomoAdd(g, a, b)) && HomoAdd(g, a, b).c1 == g.add(a.c1, b.c1)
    ensures PlainOf(g, secret, HomoAdd(g, a, b)) == g.add(PlainOf(g, secret, a), PlainOf(g, secret, b))
  {
    var n := Negate(g, secret);
    AddValid(g, a.c1, b.c1);
    AddValid(g, a.c2, b.c2);
    TimesOfSum(g, n, a.c1, b.c1);
    TimesValid(g, n, a.c1);
    TimesValid(g, n, b.c1);
    Interchange(g, a.c2, b.c2, Times(g, n, a.c1), Times(g, n, b.c1));
  }

  // All partial decryptions of one ciphertext.
  function Shares(g: Group, secrets: seq<nat>, c1: Point): (r: seq<Point>)
    requires g.order > 0
    ensures |r| == |secrets|
  {
    seq<Point>(|secrets|, i requires 0 <= i < |secrets| => PartialDecrypt(g, c1, secrets[i]))
  }

  lemma {:induction false} SharesSum(g: Group, secrets: seq<nat>, c1: Point)
    requires IsGroup(g) && g.valid(c1)
    ensures forall i :: 0 <= i < |secrets| ==> g.valid(Shares(g, secrets, c1)[i])
    ensures SumPoints(g, Shares(g, secrets, c1)) == Times(g, Negate(g, SumScalars(secrets)), c1)
  {
    if |secrets| == 0 {
      ModZeroMultiple(1, g.order);
      ModZeroMultiple(0, g.order);
    } else {
      var front, a := secrets[..|secrets| - 1], secrets[|secrets| - 1];
      var s := SumScalars(front);
      SharesSum(g, front, c1);
      assert Shares(g, secrets, c1)[..|front|] == Shares(g, front, c1);
      TimesValid(g, Negate(g, a), c1);
      TimesAdd(g, Negate(g, s), Negate(g, a), c1);
      NegateSum(g, s, a);
      TimesCong(g, Negate(g, s) + Negate(g, a), Negate(g, s + a), c1);
    }
  }

  lemma {:induction false} NegateSum(g: Group, s: nat, a: nat)
    requires g.order > 0
    ensures Cong(Negate(g, s) + Negate(g, a), Negate(g, s + a), g.order)
  {
    var l, x, y, z := g.order, Negate(g, s), Negate(g, a), Negate(g, s + a);
    NegateCancels(g, s);
    NegateCancels(g, a);
    NegateCancels(g, s + a);
    CongAdd(s + x, 0, a + y, 0, l);
    SameInverse(s + a, x + y, z, l);
  }

  lemma {:induction false} SameInverse(t: int, u: int, v: int, n: int)
    requires n > 0 && Cong(t + u, 0, n) && Cong(t + v, 0, n)
    ensures Cong(u, v, n)
  {
    CongAdd(t + u, 0, v, v, n);
    CongAdd(t + v, 0, u, u, n);
  }

  /** Threshold decryption: adding everyone's partial decryptions opens the ciphertext. */
  lemma {:induction false} JointlyOpens(g: Group, secrets: seq<nat>, ct: Cipher)
    requires IsGroup(g) && ValidCipher(g, ct)
    ensures g.add(ct.c2, SumPoints(g, Shares(g, secrets, ct.c1))) == PlainOf(g, SumScalars(secrets), ct)
  {
    SharesSum(g, secrets, ct.c1);
  }
}
