/**
 reconstruct_secret of YYH26: interpolation modulo each of the four primes, and why enough refreshed
 shares always reconstruct.
 */
module Reconstruction {
  import opened NumberTheory
  import opened Polynomials
  import opened Shamir
  import opened Lanes
  import opened Moduli
  import opened Combinations
  import opened OleRefresh
  import opened RefreshDelivery

  ghost predicate PrimeLanes(ms: seq<nat>) {
    LaneModuli(ms) && forall k :: 0 <= k < 4 ==> Prime(ms[k])
  }

  /** The four moduli of the source are primes that fit their lanes. */
  lemma {:induction false} FourModuli()
    ensures PrimeLanes(FOUR_MODULO) && FOUR_MODULO == [4293230593, 4293836801, 4293918721, 4294475777]
  {
    PrimeModuli(0);
    PrimeModuli(1);
    PrimeModuli(2);
    PrimeModuli(3);
  }

  // The lane-k values of the selected parties.
  function ValuesOf(sel: seq<nat>, words: seq<nat>, k: nat, m: nat): (ys: seq<int>)
    requires k < 4 && m > 0 && forall i :: 0 <= i < |sel| ==> sel[i] < |words|
    ensures |ys| == |sel| && forall i :: 0 <= i < |sel| ==> ys[i] == Lane(words[sel[i]], k) % m
  {
    seq(|sel|, i requires 0 <= i < |sel| => Lane(words[sel[i]], k) % m)
  }

  // The selected shares lie, modulo every prime, on a polynomial with the element as constant term.
  ghost predicate FitsAll(sel: seq<nat>, words: seq<nat>, ms: seq<nat>, secret: nat)
    requires LaneModuli(ms) && forall i :: 0 <= i < |sel| ==> sel[i] < |words|
  {
    forall k :: 0 <= k < 4 ==> Fits(PointsOf(sel), ValuesOf(sel, words, k, ms[k]), ms[k], secret)
  }

  lemma {:induction false} PointsDistinct(sel: seq<nat>, n: nat, m: nat)
    requires Combination(sel, n, |sel|) && n < m
    ensures DistinctPoints(PointsOf(sel), m)
  {
    var xs := PointsOf(sel);
    forall i, j | 0 <= i < j < |xs|
      ensures !Cong(xs[i], xs[j], m)
    {
      if Cong(xs[i], xs[j], m) {
        CongSmall(xs[i], xs[j], m);
      }
    }
  }

  /** The selected shares fit an element exactly when, modulo each of the four primes, every polynomial through
      them with no more coefficients than shares has the element as constant term. */
  lemma {:induction false} FitsAllIff(sel: seq<nat>, words: seq<nat>, ms: seq<nat>, secret: nat)
    requires PrimeLanes(ms) && Combination(sel, |words|, |sel|) && forall k :: 0 <= k < 4 ==> |words| < ms[k]
    ensures FitsAll(sel, words, ms, secret) <==> forall k :: 0 <= k < 4 ==>
      forall cs :: Interpolates(cs, PointsOf(sel), ValuesOf(sel, words, k, ms[k]), ms[k]) ==> Eval(cs, 0) % ms[k] == secret % ms[k]
  {
    forall k | 0 <= k < 4
      ensures Fits(PointsOf(sel), ValuesOf(sel, words, k, ms[k]), ms[k], secret) <==>
        forall cs :: Interpolates(cs, PointsOf(sel), ValuesOf(sel, words, k, ms[k]), ms[k]) ==> Eval(cs, 0) % ms[k] == secret % ms[k]
    {
      PointsDistinct(sel, |words|, ms[k]);
      FitsIff(PointsOf(sel), ValuesOf(sel, words, k, ms[k]), ms[k], secret);
    }
  }

  /** Two elements the same shares fit are congruent modulo the product of the four primes. */
  lemma {:induction false} OneElementFits(sel: seq<nat>, words: seq<nat>, ms: seq<nat>, x: nat, y: nat, product: nat)
    requires PrimeLanes(ms) && Combination(sel, |words|, |sel|) && forall k :: 0 <= k < 4 ==> |words| < ms[k]
    requires forall k, l :: 0 <= k < l < 4 ==> ms[k] != ms[l]
    requires product == ms[0] * ms[1] * ms[2] * ms[3] && FitsAll(sel, words, ms, x) && FitsAll(sel, words, ms, y)
    ensures product > 0 && Cong(x, y, product)
    ensures x < product && y < product ==> x == y
  {
    forall k | 0 <= k < 4
      ensures Cong(x, y, ms[k])
    {
      PointsDistinct(sel, |words|, ms[k]);
      FitsDetermines(PointsOf(sel), ValuesOf(sel, words, k, ms[k]), ms[k], x, y);
    }
    FourCombine(x, y, ms[0], ms[1], ms[2], ms[3]);
  }

  lemma {:induction false} FourCombine(x: nat, y: nat, a: nat, b: nat, c: nat, d: nat)
    requires Prime(a) && Prime(b) && Prime(c) && Prime(d) && a != b && a != c && a != d && b != c && b != d && c != d
    requires Cong(x, y, a) && Cong(x, y, b) && Cong(x, y, c) && Cong(x, y, d)
    ensures a * b * c * d > 0 && Cong(x, y, a * b * c * d)
    ensures x < a * b * c * d && y < a * b * c * d ==> x == y
  {
    OtherPrime(a, b);
    CongCombine(x, y, a, b);
    OtherPrime(a, c);
    OtherPrime(b, c);
    UnitProduct(a, b, c);
    CongCombine(x, y, a * b, c);
    OtherPrime(a, d);
    OtherPrime(b, d);
    OtherPrime(c, d);
    UnitProduct(a, b, d);
    UnitProduct(a * b, c, d);
    CongCombine(x, y, a * b * c, d);
    if x < a * b * c * d && y < a * b * c * d {
      ModUnique(x, a * b * c * d, 0, x);
      ModUnique(y, a * b * c * d, 0, y);
    }
  }

  lemma {:induction false} OtherPrime(p: nat, q: nat)
    requires Prime(p) && Prime(q) && p != q
    ensures Unit(p, q)
  {
    PrimeNotDividing(p, q);
    PrimeUnit(q, p);
  }

  /** reconstruct_secret: succeeds exactly when, modulo each of the four primes, the selected shares determine the
      element. */
  method Reconstruct(sel: seq<nat>, words: seq<nat>, ms: seq<nat>, secret: nat) returns (flag: bool)
    requires PrimeLanes(ms) && Combination(sel, |words|, |sel|)
    requires forall k :: 0 <= k < 4 ==> |words| < ms[k]
    ensures flag <==> FitsAll(sel, words, ms, secret)
    ensures flag <==> forall k :: 0 <= k < 4 ==>
      forall cs :: Interpolates(cs, PointsOf(sel), ValuesOf(sel, words, k, ms[k]), ms[k]) ==> Eval(cs, 0) % ms[k] == secret % ms[k]
  {
    FitsAllIff(sel, words, ms, secret);
    flag := CheckLanes(sel, words, ms, secret);
  }

  // The loop over the four moduli.
  method CheckLanes(sel: seq<nat>, words: seq<nat>, ms: seq<nat>, secret: nat) returns (flag: bool)
    requires PrimeLanes(ms) && Combination(sel, |words|, |sel|)
    requires forall k :: 0 <= k < 4 ==> |words| < ms[k]
    ensures flag <==> FitsAll(sel, words, ms, secret)
  {
    flag := true;
    for k := 0 to 4
      invariant flag <==> forall j :: 0 <= j < k ==> Fits(PointsOf(sel), ValuesOf(sel, words, j, ms[j]), ms[j], secret)
    {
      var m := ms[k];
      var xs, ys := PointsOf(sel), ValuesOf(sel, words, k, m);
      PointsDistinct(sel, |words|, m);
      var secretMod := LagrangeInterpolation(xs, ys, m);
      SecretIff(xs, ys, m, secret, secretMod.value);
      if secretMod.value != secret % m {
        flag := false;
      }
    }
  }

  lemma {:induction false} SecretIff(xs: seq<int>, ys: seq<int>, m: nat, secret: nat, v: nat)
    requires m > 0 && |ys| == |xs| && v < m
    requires exists cs :: Interpolates(cs, xs, ys, m) && v == Eval(cs, 0) % m
    requires forall cs :: Interpolates(cs, xs, ys, m) ==> v == Eval(cs, 0) % m
    ensures v == secret % m <==> Fits(xs, ys, m, secret)
  {
    var cs :| Interpolates(cs, xs, ys, m) && v == Eval(cs, 0) % m;
    if v == secret % m {
      assert Cong(Eval(cs, 0), secret, m);
    }
  }

  // ---------------------------------------------------------------- refreshed shares fit

  // The update polynomials of all clients for lane k and bin b.
  function UpdatePolys(ds: seq<Draws>, k: nat, b: nat): (r: seq<seq<int>>)
    ensures |r| == |ds|
  {
    seq(|ds|, j requires 0 <= j < |ds| => [0] + ds[j].higher(k, b))
  }

  // The sum of the updates for a party is the sum of the polynomials at its point.
  lemma {:induction false} UpdateSumPoly(ds: seq<Draws>, k: nat, b: nat, i: nat)
    ensures UpdateSum(ds, k, b, i) == Eval(SumPolys(UpdatePolys(ds, k, b)), i + 1)
  {
    if |ds| > 0 {
      var n := |ds| - 1;
      var gs := UpdatePolys(ds, k, b);
      UpdateSumPoly(ds[..n], k, b, i);
      assert gs[..n] == UpdatePolys(ds[..n], k, b);
      EvalOfSum(SumPolys(gs[..n]), gs[n], i + 1);
    }
  }

  lemma {:induction false} RefreshedValue(word: nat, share: int, higher: seq<int>, secret: nat, ds: seq<Draws>, b: nat, i: nat,
                                          ms: seq<nat>, k: nat)
    requires LaneModuli(ms) && k < 4 && share == Eval([secret % ms[k]] + higher, i + 1) % ms[k]
    requires RefreshedLane(word, share, ds, b, i, ms, k)
    ensures Cong(Lane(word, k) % ms[k], Eval([secret % ms[k]] + higher, i + 1) + Eval(SumPolys(UpdatePolys(ds, k, b)), i + 1), ms[k])
  {
    var m, v, u := ms[k], Eval([secret % ms[k]] + higher, i + 1), UpdateSum(ds, k, b, i);
    UpdateSumPoly(ds, k, b, i);
    CongMod(v, m);
    CongAdd(share, v, u, u, m);
    CongMod(Lane(word, k), m);
  }

  /** Any `threshold` refreshed shares of one sharing lie on a polynomial with the secret as constant
      term, whatever the sharing's and the updates' higher coefficients are. */
  lemma {:induction false} RefreshedFits(sel: seq<nat>, words: seq<nat>, ms: seq<nat>, k: nat, ds: seq<Draws>, b: nat, t: nat,
                                         higher: seq<int>, secret: nat)
    requires LaneModuli(ms) && k < 4 && |sel| == t > 0 && |higher| == t - 1
    requires forall i :: 0 <= i < |sel| ==> sel[i] < |words|
    requires forall j :: 0 <= j < |ds| ==> ValidDraws(ds[j], t)
    requires forall i :: 0 <= i < |sel| ==>
      RefreshedLane(words[sel[i]], Eval([secret % ms[k]] + higher, sel[i] + 1) % ms[k], ds, b, sel[i], ms, k)
    ensures Fits(PointsOf(sel), ValuesOf(sel, words, k, ms[k]), ms[k], secret)
  {
    var m := ms[k];
    var cs, gs, xs, ys := [secret % m] + higher, UpdatePolys(ds, k, b), PointsOf(sel), ValuesOf(sel, words, k, m);
    forall i | 0 <= i < |xs|
      ensures Cong(ys[i], Eval(cs, xs[i]) + Eval(SumPolys(gs), xs[i]), m)
    {
      RefreshedValue(words[sel[i]], Eval(cs, sel[i] + 1) % m, higher, secret, ds, b, sel[i], ms, k);
    }
    forall j | 0 <= j < |gs|
      ensures |gs[j]| <= t && Eval(gs[j], 0) == 0
    {
      assert ValidDraws(ds[j], t) && |ds[j].higher(k, b)| == t - 1;
      ConstantTerm([0] + ds[j].higher(k, b));
    }
    ConstantTerm(cs);
    CongMod(secret, m);
    RefreshFits(cs, gs, xs, ys, t, m, secret);
  }
}
