/**
 The Polynomial struct: a mutable coefficient vector with in-place addition, multiplication
 and differentiation, Horner evaluation modulo p, and the encoding of a set as the monic
 polynomial with the set's elements as roots.
 */
module PolynomialStruct {
  import opened NumberTheory
  import opened Polynomials

  // One coefficient of a product after i full rounds and j steps of round i.
  function ConvPart(a: seq<int>, b: seq<int>, k: int, i: nat, j: nat): int
    requires i < |a|
  {
    ConvSum(a, b, k, i) + (if 0 <= k - i < j then a[i] * At(b, k - i) else 0)
  }

  class Polynomial {
    var coefficients: seq<int>

    constructor (coeffs: seq<int>)
      ensures coefficients == coeffs
    {
      coefficients := coeffs;
    }

    function Degree(): nat
      reads this
    {
      if |coefficients| == 0 then 0 else |coefficients| - 1
    }

    // Horner's rule, reducing at every step.
    method EvaluateAt(y: int, p: int) returns (result: int)
      requires p > 0
      ensures result == Eval(coefficients, y) % p
    {
      if |coefficients| == 0 {
        assert Eval(coefficients, y) == 0;
        ModUnique(0, p, 0, 0);
        return 0;
      }
      var reduced := y % p;
      CongMod(y, p);
      result := 0;
      var i := |coefficients|;
      while i > 0
        invariant 0 <= i <= |coefficients|
        invariant 0 <= result < p && Cong(result, Eval(coefficients[i..], y), p)
      {
        i := i - 1;
        var cs := coefficients[i..];
        assert cs[1..] == coefficients[i + 1..];
        CongMul(reduced, y, result, Eval(cs[1..], y), p);
        CongMod(result * reduced, p);
        CongMod(coefficients[i], p);
        result := (result * reduced) % p;
        var c := coefficients[i] % p;
        CongAdd(c, cs[0], result, y * Eval(cs[1..], y), p);
        CongMod(result + c, p);
        result := (result + c) % p;
      }
      assert coefficients[0..] == coefficients;
      ModUnique(result, p, 0, result);
    }

    method AddPoly(other: Polynomial)
      modifies this
      ensures coefficients == Sum(old(coefficients), old(other.coefficients))
    {
      var extra := |other.coefficients| - |coefficients|;
      if extra > 0 {
        coefficients := coefficients + seq(extra, _ => 0);
      }
      var i := 0;
      var count := |other.coefficients|;
      while i < count
        invariant 0 <= i <= count && count <= |coefficients| == Max(|old(coefficients)|, |old(other.coefficients)|)
        invariant other != this ==> other.coefficients == old(other.coefficients)
        invariant count == |old(other.coefficients)| == |other.coefficients|
        invariant forall k :: 0 <= k < |coefficients| ==>
          coefficients[k] == At(old(coefficients), k) + (if k < i then old(other.coefficients)[k] else 0)
      {
        coefficients := coefficients[i := coefficients[i] + other.coefficients[i]];
        i := i + 1;
      }
      assert coefficients == Sum(old(coefficients), old(other.coefficients));
    }

    method MulPoly(other: Polynomial)
      modifies this
      ensures coefficients == Product(old(coefficients), old(other.coefficients))
    {
      if |coefficients| == 0 || |other.coefficients| == 0 {
        coefficients := [0];
        return;
      }
      var a, b := coefficients, other.coefficients;
      var result := seq(|a| + |b| - 1, _ => 0);
      var i := 0;
      while i < |a|
        invariant 0 <= i <= |a| && |result| == |a| + |b| - 1
        invariant forall k :: 0 <= k < |result| ==> result[k] == ConvSum(a, b, k, i)
      {
        var j := 0;
        while j < |b|
          invariant 0 <= j <= |b| && |result| == |a| + |b| - 1
          invariant forall k :: 0 <= k < |result| ==> result[k] == ConvPart(a, b, k, i, j)
        {
          result := result[i + j := result[i + j] + a[i] * b[j]];
          j := j + 1;
        }
        i := i + 1;
      }
      coefficients := result;
    }

    method Derive()
      modifies this
      ensures coefficients == Derivative(old(coefficients))
    {
      if |coefficients| <= 1 {
        coefficients := [0];
        return;
      }
      var result := seq(|coefficients| - 1, _ => 0);
      var i := 1;
      while i < |coefficients|
        invariant 1 <= i <= |coefficients| && |result| == |coefficients| - 1
        invariant coefficients == old(coefficients)
        invariant forall k :: 0 <= k < i - 1 ==> result[k] == coefficients[k + 1] * (k + 1)
      {
        result := result[i - 1 := coefficients[i] * i];
        i := i + 1;
      }
      coefficients := result;
    }
  }

  ghost predicate Residues(cs: seq<int>, n: int) {
    forall i :: 0 <= i < |cs| ==> 0 <= cs[i] < n
  }

  // Partial product of cs with (x - r): the terms contributed by cs[..j].
  function LinearPart(cs: seq<int>, r: int, k: int, j: nat): int
    requires j <= |cs|
  {
    ConvSum(cs, [-r, 1], k, j)
  }

  // The product with (x - r) after the first j coefficients were folded in, modulo n.
  ghost predicate Folded(next: seq<int>, poly: seq<int>, r: int, j: nat, n: int)
    requires n > 0 && j <= |poly|
  {
    |next| == |poly| + 1 && forall k :: 0 <= k < |next| ==> Cong(next[k], LinearPart(poly, r, k, j), n)
  }

  // One round of encodeAsPolynomial: poly * (x - r), reduced modulo n.
  method MultiplyByRoot(poly: seq<int>, r: int, n: int) returns (next: seq<int>)
    requires n > 1
    ensures Residues(next, n) && Folded(next, poly, r, |poly|, n)
  {
    next := seq(|poly| + 1, _ => 0);
    var j := 0;
    while j < |poly|
      invariant 0 <= j <= |poly| && Folded(next, poly, r, j, n)
    {
      EncodeStep(poly, r, j, next, n);
      next := next[j + 1 := (next[j + 1] + poly[j]) % n];
      next := next[j := (next[j] - (r * poly[j]) % n) % n];
      j := j + 1;
    }
    next := ReduceAll(next, n, poly, r);
  }

  method ReduceAll(coefficients: seq<int>, n: int, ghost poly: seq<int>, ghost r: int) returns (next: seq<int>)
    requires n > 1 && Folded(coefficients, poly, r, |poly|, n)
    ensures Residues(next, n) && Folded(next, poly, r, |poly|, n)
  {
    next := coefficients;
    var k := 0;
    while k < |next|
      invariant 0 <= k <= |next| && Folded(next, poly, r, |poly|, n)
      invariant forall l :: 0 <= l < k ==> 0 <= next[l] < n
    {
      CongMod(next[k], n);
      next := next[k := next[k] % n];
      k := k + 1;
    }
  }

  /** encodeAsPolynomial: coefficients modulo n of the monic polynomial with the given roots. */
  method EncodeAsPolynomial(roots: seq<int>, n: int) returns (poly: seq<int>)
    requires n > 1
    ensures |poly| == |roots| + 1 && Residues(poly, n)
    ensures forall i :: 0 <= i < |poly| ==> 0 <= poly[i] < n && Cong(poly[i], FromRoots(roots)[i], n)
    ensures Similar(poly, FromRoots(roots), n)
  {
    if |roots| == 0 {
      return [1];
    }
    poly := [(-roots[0]) % n, 1];
    FirstRoot(roots, n);
    var i := 1;
    while i < |roots|
      invariant 1 <= i <= |roots| && |poly| == i + 1 && Residues(poly, n)
      invariant Similar(poly, FromRoots(roots[..i]), n)
    {
      var next := MultiplyByRoot(poly, roots[i], n);
      EncodeRound(poly, roots[i], next, roots, i, n);
      poly := next;
      i := i + 1;
    }
    assert roots[..i] == roots;
    assert forall k: nat :: k < |poly| ==> At(poly, k) == poly[k] && At(FromRoots(roots), k) == FromRoots(roots)[k];
  }

  lemma {:induction false} FirstRoot(roots: seq<int>, n: int)
    requires n > 1 && |roots| > 0
    ensures Similar([(-roots[0]) % n, 1], FromRoots(roots[..1]), n)
    ensures 0 <= (-roots[0]) % n < n
  {
    var r := roots[0];
    assert roots[..1][..0] == [] && roots[..1][0] == r && |roots[..1]| == 1;
    assert FromRoots([]) == [1];
    var p := FromRoots(roots[..1]);
    assert p == Product([1], [-r, 1]);
    assert ConvSum([1], [-r, 1], 0, 1) == 1 * At([-r, 1], 0) == -r;
    assert ConvSum([1], [-r, 1], 1, 1) == 1 * At([-r, 1], 1) == 1;
    CongMod(-r, n);
  }

  lemma {:induction false} EncodeStep(poly: seq<int>, r: int, j: nat, next: seq<int>, n: int)
    requires n > 1 && j < |poly| && Folded(next, poly, r, j, n)
    ensures var up := (next[j + 1] + poly[j]) % n;
            var down := (next[j] - (r * poly[j]) % n) % n;
            var next' := next[j + 1 := up][j := down];
            Folded(next', poly, r, j + 1, n)
  {
    var c := poly[j];
    CongAdd(next[j + 1], LinearPart(poly, r, j + 1, j), c, c, n);
    CongMod(next[j + 1] + c, n);
    CongMod(r * c, n);
    CongAdd(next[j], LinearPart(poly, r, j, j), (r * c) % n, r * c, n);
    CongMod(next[j] - (r * c) % n, n);
    assert At([-r, 1], 0) == -r && At([-r, 1], 1) == 1;
    assert LinearPart(poly, r, j, j + 1) == LinearPart(poly, r, j, j) - r * c;
    assert LinearPart(poly, r, j + 1, j + 1) == LinearPart(poly, r, j + 1, j) + c;
  }

  lemma {:induction false} EncodeRound(poly: seq<int>, r: int, next: seq<int>, roots: seq<int>, i: nat, n: int)
    requires n > 1 && 1 <= i < |roots| && r == roots[i] && |poly| == i + 1
    requires Folded(next, poly, r, |poly|, n) && Similar(poly, FromRoots(roots[..i]), n)
    ensures Similar(next, FromRoots(roots[..i + 1]), n)
  {
    assert roots[..i + 1][..i] == roots[..i];
    var p := FromRoots(roots[..i]);
    ProductSimilar(poly, p, [-r, 1], [-r, 1], n);
    forall k: nat
      ensures Cong(At(next, k), At(Product(p, [-r, 1]), k), n)
    {
      AtProduct(poly, [-r, 1], k);
      if k >= |next| {
        ConvSumBeyond(poly, [-r, 1], k, |poly|);
      }
      assert Cong(At(Product(poly, [-r, 1]), k), At(Product(p, [-r, 1]), k), n);
    }
  }

  /** Evaluating the encoding at y gives the product of the differences y - root modulo n. */
  lemma {:induction false} EncodingEvaluates(poly: seq<int>, roots: seq<int>, y: int, n: int)
    requires n > 0 && Similar(poly, FromRoots(roots), n)
    ensures Cong(Eval(poly, y), RootProduct(roots, y), n)
  {
    SimilarEval(poly, FromRoots(roots), y, y, n);
    EvalFromRoots(roots, y);
  }

  /** The encoding inherits every root with its multiplicity. */
  lemma {:induction false} EncodingMultiplicity(poly: seq<int>, roots: seq<int>, r: int, n: int)
    requires n > 0 && Similar(poly, FromRoots(roots), n)
    ensures VanishesTo(poly, r, Occurrences(roots, r), n)
  {
    MultiplicityLaw(roots, r, n);
    forall i: nat ensures Cong(At(FromRoots(roots), i), At(poly, i), n) {
      assert Cong(At(poly, i), At(FromRoots(roots), i), n);
    }
    VanishesSimilar(FromRoots(roots), poly, r, Occurrences(roots, r), n);
  }
}
