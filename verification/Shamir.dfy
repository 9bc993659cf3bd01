/**
 Shamir sharing of YYH26 modulo a prime: dealing shares and zero-constant updates, and Lagrange
 interpolation at zero as the source computes it.
 */
module Shamir {
  import opened NumberTheory
  import opened Polynomials

  // ---------------------------------------------------------------- dealing

  // The value of a polynomial at the points 1..count, modulo p.
  method EvaluateAtPoints(cs: seq<int>, count: nat, p: nat) returns (values: seq<nat>)
    requires p > 0
    ensures |values| == count && forall i :: 0 <= i < count ==> values[i] == Eval(cs, i + 1) % p
  {
    values := [];
    for i := 0 to count
      invariant |values| == i && forall k :: 0 <= k < i ==> values[k] == Eval(cs, k + 1) % p
    {
      values := values + [Eval(cs, i + 1) % p];
    }
  }

  // The points of some parties, and what the parties hold.
  function PointsOf(sel: seq<nat>): (xs: seq<int>)
    ensures |xs| == |sel| && forall i :: 0 <= i < |sel| ==> xs[i] == sel[i] + 1
  {
    seq(|sel|, i requires 0 <= i < |sel| => sel[i] + 1)
  }

  function Picked(values: seq<nat>, sel: seq<nat>): (ys: seq<int>)
    requires forall i :: 0 <= i < |sel| ==> sel[i] < |values|
    ensures |ys| == |sel| && forall i :: 0 <= i < |sel| ==> ys[i] == values[sel[i]]
  {
    seq(|sel|, i requires 0 <= i < |sel| => values[sel[i]])
  }

  // Some of the parties, at least `threshold` and at least one.
  predicate Enough(sel: seq<nat>, count: nat, threshold: nat) {
    0 < |sel| && threshold <= |sel| && forall i :: 0 <= i < |sel| ==> sel[i] < count
  }

  // The values of enough parties always lie on a polynomial with the secret as constant term.
  ghost predicate Dealt(values: seq<nat>, threshold: nat, p: nat, secret: nat)
    requires p > 0
  {
    forall sel :: Enough(sel, |values|, threshold) ==> Fits(PointsOf(sel), Picked(values, sel), p, secret)
  }

  /** ShareSecret, with `higher` the threshold - 1 random coefficients: any `threshold` shares lie on a
      polynomial with the reduced secret as constant term. */
  method ShareSecret(secret: nat, numShares: nat, threshold: nat, p: nat, higher: seq<int>) returns (shares: seq<nat>)
    requires p > 0 && |higher| == (if threshold == 0 then 0 else threshold - 1)
    ensures |shares| == numShares && Dealt(shares, threshold, p, secret)
    ensures forall i :: 0 <= i < numShares ==> shares[i] == Eval([secret % p] + higher, i + 1) % p
  {
    shares := EvaluateAtPoints([secret % p] + higher, numShares, p);
    CongMod(secret, p);
    ValuesDealt([secret % p] + higher, shares, threshold, p, secret);
  }

  /** GenerateUpdateValues: any `threshold` updates lie on a polynomial with constant term zero. */
  method GenerateUpdateValues(numShares: nat, threshold: nat, p: nat, higher: seq<int>) returns (updates: seq<nat>)
    requires p > 0 && |higher| == (if threshold == 0 then 0 else threshold - 1)
    ensures |updates| == numShares && Dealt(updates, threshold, p, 0)
    ensures forall j :: 0 <= j < numShares ==> updates[j] == Eval([0] + higher, j + 1) % p
  {
    updates := EvaluateAtPoints([0] + higher, numShares, p);
    ValuesDealt([0] + higher, updates, threshold, p, 0);
  }

  lemma {:induction false} ConstantTerm(cs: seq<int>)
    requires |cs| > 0
    ensures Eval(cs, 0) == cs[0]
  {
  }

  lemma {:induction false} ValuesDealt(cs: seq<int>, values: seq<nat>, threshold: nat, p: nat, secret: nat)
    requires p > 0 && 0 < |cs| && |cs| <= (if threshold == 0 then 1 else threshold) && Cong(cs[0], secret, p)
    requires forall i :: 0 <= i < |values| ==> values[i] == Eval(cs, i + 1) % p
    ensures Dealt(values, threshold, p, secret)
  {
    ConstantTerm(cs);
    forall sel | Enough(sel, |values|, threshold)
      ensures Fits(PointsOf(sel), Picked(values, sel), p, secret)
    {
      var xs, ys := PointsOf(sel), Picked(values, sel);
      forall i | 0 <= i < |xs|
        ensures Cong(ys[i], Eval(cs, xs[i]), p)
      {
        CongMod(Eval(cs, sel[i] + 1), p);
      }
      assert Interpolates(cs, xs, ys, p);
    }
  }

  // ---------------------------------------------------------------- polynomials with too many roots

  function ScaleBy(a: int, cs: seq<int>): (r: seq<int>)
    ensures |r| == |cs|
  {
    seq(|cs|, i requires 0 <= i < |cs| => a * cs[i])
  }

  lemma {:induction false} EvalScale(a: int, cs: seq<int>, x: int)
    ensures Eval(ScaleBy(a, cs), x) == a * Eval(cs, x)
  {
    if |cs| > 0 {
      assert ScaleBy(a, cs)[1..] == ScaleBy(a, cs[1..]);
      EvalScale(a, cs[1..], x);
      var e := Eval(cs[1..], x);
      Distribute(a, cs[0], x * e);
      Assoc(a, x, e);
      Assoc(x, a, e);
    }
  }

  // Synthetic division of f(x) - f(a) by x - a.
  function Quotient(cs: seq<int>, a: int): (r: seq<int>)
    ensures |r| == if |cs| == 0 then 0 else |cs| - 1
  {
    if |cs| <= 1 then [] else Sum(cs[1..], ScaleBy(a, Quotient(cs[1..], a)))
  }

  lemma {:induction false} QuotientLaw(cs: seq<int>, a: int, x: int)
    ensures Eval(cs, x) - Eval(cs, a) == (x - a) * Eval(Quotient(cs, a), x)
  {
    if |cs| == 1 {
      assert Eval(cs[1..], x) == 0 && Eval(cs[1..], a) == 0;
    } else if |cs| > 1 {
      var h := cs[1..];
      QuotientLaw(h, a, x);
      EvalOfSum(h, ScaleBy(a, Quotient(h, a)), x);
      EvalScale(a, Quotient(h, a), x);
      QuotientAlgebra(x, a, Eval(h, x), Eval(h, a), Eval(Quotient(h, a), x));
    }
  }

  lemma {:induction false} QuotientAlgebra(x: int, a: int, hx: int, ha: int, q: int)
    requires hx - ha == (x - a) * q
    ensures x * hx - a * ha == (x - a) * (hx + a * q)
  {
    assert a * (hx - ha) == a * ((x - a) * q);
    assert (x - a) * (a * q) == a * ((x - a) * q);
  }

  ghost predicate DistinctPoints(xs: seq<int>, p: int)
    requires p > 0
  {
    forall i, j :: 0 <= i < j < |xs| ==> !Cong(xs[i], xs[j], p)
  }

  // Modulo a prime, fewer coefficients than roots means the polynomial vanishes everywhere.
  lemma {:induction false} TooManyRoots(cs: seq<int>, xs: seq<int>, y: int, p: nat)
    requires Prime(p) && |cs| <= |xs| && DistinctPoints(xs, p)
    requires forall i :: 0 <= i < |xs| ==> Cong(Eval(cs, xs[i]), 0, p)
    ensures Cong(Eval(cs, y), 0, p)
    decreases |cs|
  {
    if |cs| > 0 {
      var a, q, rest := xs[0], Quotient(cs, xs[0]), xs[1..];
      forall i | 0 <= i < |rest|
        ensures Cong(Eval(q, rest[i]), 0, p)
      {
        assert rest[i] == xs[i + 1];
        RootOfQuotient(cs, a, rest[i], p);
      }
      TooManyRoots(q, rest, y, p);
      QuotientLaw(cs, a, y);
      CongMul(y - a, y - a, Eval(q, y), 0, p);
      CongAdd(Eval(cs, a), 0, (y - a) * Eval(q, y), 0, p);
    }
  }

  lemma {:induction false} RootOfQuotient(cs: seq<int>, a: int, x: int, p: nat)
    requires Prime(p) && !Cong(a, x, p) && Cong(Eval(cs, a), 0, p) && Cong(Eval(cs, x), 0, p)
    ensures Cong(Eval(Quotient(cs, a), x), 0, p)
  {
    var q := Eval(Quotient(cs, a), x);
    QuotientLaw(cs, a, x);
    CongAdd(Eval(cs, x), 0, Eval(cs, a), 0, p);
    ModZeroMultiple(0, p);
    if (x - a) % p == 0 {
      CongAdd(x - a, 0, a, a, p);
      assert false;
    }
    Euclid(p, x - a, q);
  }

  // ---------------------------------------------------------------- interpolation

  // Product over j < k, j != i, of (y - xs[j]).
  function BasisEval(xs: seq<int>, i: nat, y: int, k: nat): int
    requires k <= |xs|
  {
    if k == 0 then 1
    else if k - 1 == i then BasisEval(xs, i, y, k - 1)
    else BasisEval(xs, i, y, k - 1) * (y - xs[k - 1])
  }

  function Basis(xs: seq<int>, i: nat, k: nat): (r: seq<int>)
    requires k <= |xs|
    ensures |r| == if k > i then k else k + 1
  {
    if k == 0 then [1]
    else if k - 1 == i then Basis(xs, i, k - 1)
    else Product(Basis(xs, i, k - 1), [-xs[k - 1], 1])
  }

  lemma {:induction false} EvalBasis(xs: seq<int>, i: nat, y: int, k: nat)
    requires k <= |xs|
    ensures Eval(Basis(xs, i, k), y) == BasisEval(xs, i, y, k)
  {
    if k == 0 {
      EvalConstant(1, y);
    } else {
      EvalBasis(xs, i, y, k - 1);
      if k - 1 != i {
        EvalOfProduct(Basis(xs, i, k - 1), [-xs[k - 1], 1], y);
        EvalLinear(xs[k - 1], y);
      }
    }
  }

  // At another point of the set the basis polynomial is zero.
  lemma {:induction false} BasisVanishes(xs: seq<int>, i: nat, j: nat, k: nat)
    requires j < k <= |xs| && i != j
    ensures BasisEval(xs, i, xs[j], k) == 0
  {
    if k - 1 == j {
    } else {
      BasisVanishes(xs, i, j, k - 1);
    }
  }

  // At its own point it is a unit.
  lemma {:induction false} BasisUnit(xs: seq<int>, i: nat, k: nat, p: nat)
    requires Prime(p) && i < |xs| && k <= |xs| && DistinctPoints(xs, p)
    ensures Unit(BasisEval(xs, i, xs[i], k), p)
  {
    if k == 0 {
      assert Cong(1 * 1, 1, p);
    } else {
      BasisUnit(xs, i, k - 1, p);
      if k - 1 != i {
        var d := xs[i] - xs[k - 1];
        if d % p == 0 {
          ModZeroMultiple(0, p);
          CongAdd(d, 0, xs[k - 1], xs[k - 1], p);
          assert false;
        }
        PrimeUnit(p, d);
        UnitProduct(BasisEval(xs, i, xs[i], k - 1), d, p);
      }
    }
  }

  // The interpolating polynomial: sum over i < k of ys[i] * inv[i] * basis_i.
  function Interpolant(xs: seq<int>, ys: seq<int>, inv: seq<int>, k: nat): (r: seq<int>)
    requires k <= |xs| == |ys| == |inv|
    ensures |r| <= |xs|
  {
    if k == 0 then [] else Sum(Interpolant(xs, ys, inv, k - 1), ScaleBy(ys[k - 1] * inv[k - 1], Basis(xs, k - 1, |xs|)))
  }

  function InterpolantEval(xs: seq<int>, ys: seq<int>, inv: seq<int>, y: int, k: nat): int
    requires k <= |xs| == |ys| == |inv|
  {
    if k == 0 then 0
    else InterpolantEval(xs, ys, inv, y, k - 1) + ys[k - 1] * inv[k - 1] * BasisEval(xs, k - 1, y, |xs|)
  }

  lemma {:induction false} EvalInterpolant(xs: seq<int>, ys: seq<int>, inv: seq<int>, y: int, k: nat)
    requires k <= |xs| == |ys| == |inv|
    ensures Eval(Interpolant(xs, ys, inv, k), y) == InterpolantEval(xs, ys, inv, y, k)
  {
    if k > 0 {
      EvalInterpolant(xs, ys, inv, y, k - 1);
      var s, b := ys[k - 1] * inv[k - 1], Basis(xs, k - 1, |xs|);
      EvalOfSum(Interpolant(xs, ys, inv, k - 1), ScaleBy(s, b), y);
      EvalScale(s, b, y);
      EvalBasis(xs, k - 1, y, |xs|);
    }
  }

  // The inverses lagrange_interpolation computes.
  ghost predicate BasisInverses(xs: seq<int>, inv: seq<int>, p: nat)
    requires p > 0
  {
    |inv| == |xs| && forall i :: 0 <= i < |xs| ==> Cong(BasisEval(xs, i, xs[i], |xs|) * inv[i], 1, p)
  }

  lemma {:induction false} HitStep(sum: int, y: int, v: int, b: int, p: nat)
    requires p > 0 && Cong(sum, 0, p) && Cong(b * v, 1, p)
    ensures Cong(sum + y * v * b, y, p)
  {
    assert y * v * b == y * (b * v) by { Assoc(y, v, b); }
    CongMul(y, y, b * v, 1, p);
    CongAdd(sum, 0, y * v * b, y, p);
  }

  // The interpolant takes the prescribed values.
  lemma {:induction false} InterpolantHits(xs: seq<int>, ys: seq<int>, inv: seq<int>, j: nat, k: nat, p: nat)
    requires p > 0 && k <= |xs| == |ys| && BasisInverses(xs, inv, p) && j < |xs|
    ensures Cong(InterpolantEval(xs, ys, inv, xs[j], k), if j < k then ys[j] else 0, p)
  {
    if k > 0 {
      InterpolantHits(xs, ys, inv, j, k - 1, p);
      var i := k - 1;
      var sum, y, v, b := InterpolantEval(xs, ys, inv, xs[j], i), ys[i], inv[i], BasisEval(xs, i, xs[j], |xs|);
      if i == j {
        HitStep(sum, y, v, b, p);
      } else {
        BasisVanishes(xs, i, j, |xs|);
      }
    }
  }

  /** Interpolation is determined by the points: any polynomial with at most |xs| coefficients
      through the points agrees with the interpolant at every argument, modulo p. */
  lemma {:induction false} InterpolationUnique(cs: seq<int>, xs: seq<int>, ys: seq<int>, inv: seq<int>, y: int, p: nat)
    requires Prime(p) && |cs| <= |xs| == |ys| && DistinctPoints(xs, p) && BasisInverses(xs, inv, p)
    requires forall i :: 0 <= i < |xs| ==> Cong(ys[i], Eval(cs, xs[i]), p)
    ensures Cong(InterpolantEval(xs, ys, inv, y, |xs|), Eval(cs, y), p)
  {
    var g := Interpolant(xs, ys, inv, |xs|);
    var diff := Sum(g, ScaleBy(-1, cs));
    forall i | 0 <= i < |xs|
      ensures Cong(Eval(diff, xs[i]), 0, p)
    {
      DifferenceEval(g, cs, xs[i]);
      EvalInterpolant(xs, ys, inv, xs[i], |xs|);
      InterpolantHits(xs, ys, inv, i, |xs|, p);
      CongAdd(Eval(g, xs[i]), Eval(cs, xs[i]), Eval(cs, xs[i]), Eval(cs, xs[i]), p);
    }
    TooManyRoots(diff, xs, y, p);
    DifferenceEval(g, cs, y);
    EvalInterpolant(xs, ys, inv, y, |xs|);
    CongAdd(Eval(diff, y), 0, Eval(cs, y), Eval(cs, y), p);
  }

  lemma {:induction false} DifferenceEval(g: seq<int>, cs: seq<int>, y: int)
    ensures Eval(Sum(g, ScaleBy(-1, cs)), y) == Eval(g, y) - Eval(cs, y)
  {
    EvalOfSum(g, ScaleBy(-1, cs), y);
    EvalScale(-1, cs, y);
  }

  // ---------------------------------------------------------------- lagrange_interpolation

  function SubMod(a: int, b: int, n: int): int {
    if a - b < 0 then a - b + n else a - b
  }

  lemma {:induction false} SubModCong(a: int, b: int, n: int)
    requires n > 0
    ensures Cong(SubMod(a, b, n), a - b, n)
  {
    CongIntro(SubMod(a, b, n), a - b, n, if a - b < 0 then 1 else 0);
  }

  // Step 2: the product of all differences from point i.
  method Denominator(xs: seq<int>, i: nat, mod: nat) returns (denominator: nat)
    requires mod > 1 && i < |xs|
    ensures Cong(denominator, BasisEval(xs, i, xs[i], |xs|), mod)
  {
    denominator := 1;
    for j := 0 to |xs|
      invariant Cong(denominator, BasisEval(xs, i, xs[i], j), mod)
    {
      if i != j {
        var diff := SubMod(xs[i], xs[j], mod);
        SubModCong(xs[i], xs[j], mod);
        CongMul(denominator, BasisEval(xs, i, xs[i], j), diff, xs[i] - xs[j], mod);
        CongMod(denominator * diff, mod);
        denominator := (denominator * diff) % mod;
      }
    }
  }

  // Step 3: inverse times the negated other points.
  method Coefficient(inverse: nat, negX: seq<int>, i: nat, mod: nat, ghost xs: seq<int>) returns (li: nat)
    requires mod > 1 && |negX| == |xs| && forall j :: 0 <= j < |xs| ==> Cong(negX[j], 0 - xs[j], mod)
    ensures Cong(li, inverse * BasisEval(xs, i, 0, |xs|), mod)
  {
    li := inverse;
    for j := 0 to |negX|
      invariant Cong(li, inverse * BasisEval(xs, i, 0, j), mod)
    {
      if i != j {
        CongMul(li, inverse * BasisEval(xs, i, 0, j), negX[j], 0 - xs[j], mod);
        Assoc(inverse, BasisEval(xs, i, 0, j), 0 - xs[j]);
        CongMod(li * negX[j], mod);
        li := (li * negX[j]) % mod;
      }
    }
  }

  method Inverses(xs: seq<int>, mod: nat) returns (r: Option<seq<nat>>)
    requires mod > 1
    ensures r.Some? ==> BasisInverses(xs, r.value, mod)
    ensures Prime(mod) && DistinctPoints(xs, mod) ==> r.Some?
  {
    var inverses: seq<nat> := [];
    for i := 0 to |xs|
      invariant |inverses| == i
      invariant forall k :: 0 <= k < i ==> Cong(BasisEval(xs, k, xs[k], |xs|) * inverses[k], 1, mod)
    {
      var denominator := Denominator(xs, i, mod);
      ghost var b := BasisEval(xs, i, xs[i], |xs|);
      var inv := InvMod(denominator, mod);
      if inv.None? {
        if Prime(mod) && DistinctPoints(xs, mod) {
          BasisUnit(xs, i, |xs|, mod);
          UnitCong(b, denominator, mod);
          assert false;
        }
        return None;
      }
      CongMul(denominator, b, inv.value, inv.value, mod);
      inverses := inverses + [inv.value];
    }
    r := Some(inverses);
  }

  /** lagrange_interpolation: whenever it returns for points of a polynomial with at most as many
      coefficients as points, it returns the polynomial's constant term; for distinct points
      modulo a prime it always returns. */
  method LagrangeInterpolation(xs: seq<int>, ys: seq<int>, mod: nat) returns (r: Option<nat>)
    requires mod > 1 && |ys| == |xs|
    ensures Prime(mod) && DistinctPoints(xs, mod) ==> r.Some?
    ensures r.Some? ==> r.value < mod
    ensures forall cs :: Prime(mod) && DistinctPoints(xs, mod) && Interpolates(cs, xs, ys, mod) ==>
      r.Some? && r.value == Eval(cs, 0) % mod
    ensures r.Some? ==> exists cs :: Interpolates(cs, xs, ys, mod) && r.value == Eval(cs, 0) % mod
  {
    var negX: seq<int> := [];
    for j := 0 to |xs|
      invariant |negX| == j && forall k :: 0 <= k < j ==> Cong(negX[k], 0 - xs[k], mod)
    {
      SubModCong(mod, xs[j], mod);
      CongIntro(mod - xs[j], 0 - xs[j], mod, 1);
      negX := negX + [SubMod(mod, xs[j], mod)];
    }
    var inverses := Inverses(xs, mod);
    if inverses.None? {
      return None;
    }
    var inv := inverses.value;
    var secret := 0;
    ModUnique(0, mod, 0, 0);
    for i := 0 to |xs|
      invariant 0 <= secret < mod && Cong(secret, InterpolantEval(xs, ys, inv, 0, i), mod)
    {
      var li := Coefficient(inv[i], negX, i, mod, xs);
      AddTerm(secret, li, xs, ys, inv, i, mod);
      secret := (secret + (ys[i] * li) % mod) % mod;
    }
    forall cs | Prime(mod) && DistinctPoints(xs, mod) && Interpolates(cs, xs, ys, mod)
      ensures secret == Eval(cs, 0) % mod
    {
      InterpolationUnique(cs, xs, ys, inv, 0, mod);
      ModUnique(secret, mod, 0, secret);
    }
    InterpolantFits(xs, ys, inv, secret, mod);
    r := Some(secret);
  }

  // The value computed is that of a polynomial through the points.
  lemma {:induction false} InterpolantFits(xs: seq<int>, ys: seq<int>, inv: seq<int>, secret: int, mod: nat)
    requires mod > 0 && |xs| == |ys| == |inv| && BasisInverses(xs, inv, mod)
    requires 0 <= secret < mod && Cong(secret, InterpolantEval(xs, ys, inv, 0, |xs|), mod)
    ensures exists cs :: Interpolates(cs, xs, ys, mod) && secret == Eval(cs, 0) % mod
  {
    var cs := Interpolant(xs, ys, inv, |xs|);
    forall i | 0 <= i < |xs|
      ensures Cong(ys[i], Eval(cs, xs[i]), mod)
    {
      EvalInterpolant(xs, ys, inv, xs[i], |xs|);
      InterpolantHits(xs, ys, inv, i, |xs|, mod);
    }
    EvalInterpolant(xs, ys, inv, 0, |xs|);
    ModUnique(secret, mod, 0, secret);
    assert Interpolates(cs, xs, ys, mod);
  }

  // Some polynomial with no more coefficients than points goes through them and has this constant term.
  ghost predicate Fits(xs: seq<int>, ys: seq<int>, p: nat, secret: int)
    requires p > 0 && |ys| == |xs|
  {
    exists cs :: Interpolates(cs, xs, ys, p) && Cong(Eval(cs, 0), secret, p)
  }

  /** Points that are different modulo a prime determine the secret: at most one residue fits. */
  lemma {:induction false} FitsDetermines(xs: seq<int>, ys: seq<int>, p: nat, a: int, b: int)
    requires Prime(p) && |ys| == |xs| && DistinctPoints(xs, p)
    requires Fits(xs, ys, p, a) && Fits(xs, ys, p, b)
    ensures Cong(a, b, p)
  {
    var f :| Interpolates(f, xs, ys, p) && Cong(Eval(f, 0), a, p);
    var g :| Interpolates(g, xs, ys, p) && Cong(Eval(g, 0), b, p);
    var diff := Sum(f, ScaleBy(-1, g));
    forall i | 0 <= i < |xs|
      ensures Cong(Eval(diff, xs[i]), 0, p)
    {
      DifferenceEval(f, g, xs[i]);
      CongAdd(Eval(f, xs[i]), Eval(g, xs[i]), Eval(g, xs[i]), Eval(g, xs[i]), p);
    }
    TooManyRoots(diff, xs, 0, p);
    DifferenceEval(f, g, 0);
    CongAdd(Eval(diff, 0), 0, Eval(g, 0), Eval(g, 0), p);
  }

  /** Enough shares determine the secret they were dealt for: it is the one residue that fits. */
  lemma {:induction false} DealtDetermines(values: seq<nat>, threshold: nat, p: nat, secret: nat, sel: seq<nat>, v: int)
    requires Prime(p) && Dealt(values, threshold, p, secret) && Enough(sel, |values|, threshold)
    requires DistinctPoints(PointsOf(sel), p)
    ensures Fits(PointsOf(sel), Picked(values, sel), p, v) <==> Cong(v, secret, p)
  {
    var xs, ys := PointsOf(sel), Picked(values, sel);
    assert Fits(xs, ys, p, secret);
    if Fits(xs, ys, p, v) {
      FitsDetermines(xs, ys, p, v, secret);
    }
    if Cong(v, secret, p) {
      var cs :| Interpolates(cs, xs, ys, p) && Cong(Eval(cs, 0), secret, p);
      assert Cong(Eval(cs, 0), v, p);
    }
  }

  // Inverses of all denominators exist for points that are different modulo a prime.
  lemma {:induction false} SomeInverses(xs: seq<int>, upto: nat, p: nat) returns (inv: seq<int>)
    requires Prime(p) && DistinctPoints(xs, p) && upto <= |xs|
    ensures |inv| == upto && forall i :: 0 <= i < upto ==> Cong(BasisEval(xs, i, xs[i], |xs|) * inv[i], 1, p)
  {
    if upto == 0 {
      inv := [];
    } else {
      var front := SomeInverses(xs, upto - 1, p);
      BasisUnit(xs, upto - 1, |xs|, p);
      var v :| Cong(BasisEval(xs, upto - 1, xs[upto - 1], |xs|) * v, 1, p);
      inv := front + [v];
    }
  }

  // Points that are different modulo a prime always lie on a polynomial with no more coefficients.
  lemma {:induction false} SomeInterpolates(xs: seq<int>, ys: seq<int>, p: nat) returns (cs: seq<int>)
    requires Prime(p) && |ys| == |xs| && DistinctPoints(xs, p)
    ensures Interpolates(cs, xs, ys, p)
  {
    var inv := SomeInverses(xs, |xs|, p);
    cs := Interpolant(xs, ys, inv, |xs|);
    forall i | 0 <= i < |xs|
      ensures Cong(ys[i], Eval(cs, xs[i]), p)
    {
      EvalInterpolant(xs, ys, inv, xs[i], |xs|);
      InterpolantHits(xs, ys, inv, i, |xs|, p);
    }
  }

  /** For points that are different modulo a prime a secret fits exactly when every polynomial through the points,
      with no more coefficients than points, has it as constant term. */
  lemma {:induction false} FitsIff(xs: seq<int>, ys: seq<int>, p: nat, secret: int)
    requires Prime(p) && |ys| == |xs| && DistinctPoints(xs, p)
    ensures Fits(xs, ys, p, secret) <==> forall cs :: Interpolates(cs, xs, ys, p) ==> Eval(cs, 0) % p == secret % p
  {
    if Fits(xs, ys, p, secret) {
      forall cs | Interpolates(cs, xs, ys, p)
        ensures Eval(cs, 0) % p == secret % p
      {
        assert Fits(xs, ys, p, Eval(cs, 0));
        FitsDetermines(xs, ys, p, Eval(cs, 0), secret);
      }
    } else {
      var cs := SomeInterpolates(xs, ys, p);
    }
  }

  // Some polynomial of at most t coefficients goes through the points and has this constant term.
  ghost predicate Consistent(xs: seq<int>, ys: seq<int>, t: nat, p: nat, secret: int)
    requires p > 0 && |ys| == |xs|
  {
    exists cs :: |cs| <= t && Cong(Eval(cs, 0), secret, p) && Through(cs, xs, ys, p)
  }

  /** One share fewer than the threshold determines nothing: values at any t - 1 points that are different
      from each other and from zero modulo a prime are consistent with every secret. */
  lemma {:induction false} FewerFitEverySecret(xs: seq<int>, ys: seq<int>, p: nat, secret: int)
    requires Prime(p) && |ys| == |xs| && DistinctPoints([0] + xs, p)
    ensures Consistent(xs, ys, |xs| + 1, p, secret)
  {
    var all, values := [0] + xs, [secret] + ys;
    var cs := SomeInterpolates(all, values, p);
    assert all[0] == 0 && values[0] == secret && Cong(values[0], Eval(cs, all[0]), p);
    forall i | 0 <= i < |xs|
      ensures Cong(ys[i], Eval(cs, xs[i]), p)
    {
      assert all[i + 1] == xs[i] && values[i + 1] == ys[i];
    }
    assert Through(cs, xs, ys, p);
  }

  // ---------------------------------------------------------------- refreshing

  function SumInts(xs: seq<int>): int {
    if |xs| == 0 then 0 else SumInts(xs[..|xs| - 1]) + xs[|xs| - 1]
  }

  function SumPolys(gs: seq<seq<int>>): (r: seq<int>)
  {
    if |gs| == 0 then [] else Sum(SumPolys(gs[..|gs| - 1]), gs[|gs| - 1])
  }

  lemma {:induction false} SumPolysLength(gs: seq<seq<int>>, t: nat)
    requires forall j :: 0 <= j < |gs| ==> |gs[j]| <= t
    ensures |SumPolys(gs)| <= t
  {
    if |gs| > 0 {
      SumPolysLength(gs[..|gs| - 1], t);
    }
  }

  lemma {:induction false} EvalSumPolys(gs: seq<seq<int>>, values: seq<int>, x: int, p: nat)
    requires p > 0 && |values| == |gs| && forall j :: 0 <= j < |gs| ==> Cong(values[j], Eval(gs[j], x), p)
    ensures Cong(SumInts(values), Eval(SumPolys(gs), x), p)
  {
    if |gs| > 0 {
      var n := |gs| - 1;
      EvalSumPolys(gs[..n], values[..n], x, p);
      EvalOfSum(SumPolys(gs[..n]), gs[n], x);
      CongAdd(SumInts(values[..n]), Eval(SumPolys(gs[..n]), x), values[n], Eval(gs[n], x), p);
    }
  }

  lemma {:induction false} ZeroConstants(gs: seq<seq<int>>)
    requires forall j :: 0 <= j < |gs| ==> Eval(gs[j], 0) == 0
    ensures Eval(SumPolys(gs), 0) == 0
  {
    if |gs| > 0 {
      var n := |gs| - 1;
      ZeroConstants(gs[..n]);
      EvalOfSum(SumPolys(gs[..n]), gs[n], 0);
    }
  }

  /** Shares refreshed with zero-constant updates still lie on a polynomial of the same length with the
      same secret: at least as many of them as coefficients determine the secret. */
  lemma {:induction false} RefreshFits(cs: seq<int>, gs: seq<seq<int>>, xs: seq<int>, ys: seq<int>, t: nat, p: nat, secret: int)
    requires p > 0 && |xs| == |ys| && t <= |xs| && |cs| <= t && Cong(Eval(cs, 0), secret, p)
    requires forall j :: 0 <= j < |gs| ==> |gs[j]| <= t && Eval(gs[j], 0) == 0
    requires forall i :: 0 <= i < |xs| ==> Cong(ys[i], Eval(cs, xs[i]) + Eval(SumPolys(gs), xs[i]), p)
    ensures Fits(xs, ys, p, secret)
  {
    var all := Sum(cs, SumPolys(gs));
    SumPolysLength(gs, t);
    ZeroConstants(gs);
    EvalOfSum(cs, SumPolys(gs), 0);
    forall i | 0 <= i < |xs|
      ensures Cong(ys[i], Eval(all, xs[i]), p)
    {
      EvalOfSum(cs, SumPolys(gs), xs[i]);
    }
    assert Interpolates(all, xs, ys, p);
  }

  lemma {:induction false} AddTerm(secret: int, li: int, xs: seq<int>, ys: seq<int>, inv: seq<nat>, i: nat, mod: nat)
    requires mod > 0 && |xs| == |ys| == |inv| && i < |xs|
    requires Cong(secret, InterpolantEval(xs, ys, inv, 0, i), mod)
    requires Cong(li, inv[i] * BasisEval(xs, i, 0, |xs|), mod)
    ensures Cong((secret + (ys[i] * li) % mod) % mod, InterpolantEval(xs, ys, inv, 0, i + 1), mod)
  {
    var b := BasisEval(xs, i, 0, |xs|);
    CongMul(ys[i], ys[i], li, inv[i] * b, mod);
    Assoc(ys[i], inv[i], b);
    CongMod(ys[i] * li, mod);
    CongAdd(secret, InterpolantEval(xs, ys, inv, 0, i), (ys[i] * li) % mod, ys[i] * inv[i] * b, mod);
    CongMod(secret + (ys[i] * li) % mod, mod);
  }

  // The polynomial takes these values at these points.
  ghost predicate Through(cs: seq<int>, xs: seq<int>, ys: seq<int>, p: nat)
    requires p > 0 && |ys| == |xs|
  {
    forall i :: 0 <= i < |xs| ==> Cong(ys[i], Eval(cs, xs[i]), p)
  }

  // The points lie on a polynomial with no more coefficients than points.
  ghost predicate Interpolates(cs: seq<int>, xs: seq<int>, ys: seq<int>, p: nat)
    requires p > 0 && |ys| == |xs|
  {
    |cs| <= |xs| && Through(cs, xs, ys, p)
  }

  // Which polynomials go through the points.
  lemma InterpolatesIff(cs: seq<int>, xs: seq<int>, ys: seq<int>, p: nat)
    requires p > 0 && |ys| == |xs|
    ensures Interpolates(cs, xs, ys, p) <==> |cs| <= |xs| && forall i :: 0 <= i < |xs| ==> ys[i] % p == Eval(cs, xs[i]) % p
  {
  }
}
