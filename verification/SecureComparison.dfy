/**
 The secure comparison of BEH21 in the clear: the leader scales and offsets a difference, every
 hop rescales and offsets it again, may negate it and, if so, swaps the two candidate answers.
 The draw r' = RandomBnd(r - 1) + 1 is below r except that r = 1 gives r' = 1; the module proves
 exactly which draws can make the comparison go wrong.
 */
module SecureComparison {
  import opened NumberTheory
  import opened Selection

  const RANDOM_BOUND: nat := 128

  // r and r' of one party; flip is the member's coin b_i (the leader has none).
  datatype Draw = Draw(flip: bool, r: nat, rPrime: nat) {
    // r = RandomBnd(127) + 1 and r' = RandomBnd(r - 1) + 1, where RandomBnd(0) is 0.
    predicate Valid() {
      1 <= r < RANDOM_BOUND && 1 <= rPrime && (if r == 1 then rPrime == 1 else rPrime < r)
    }

    function SignOf(): int {
      if flip then -1 else 1
    }
  }

  predicate ValidDraws(hops: seq<Draw>) {
    forall i :: 0 <= i < |hops| ==> hops[i].Valid()
  }

  // The value under encryption after k hops.
  function Compared(d: int, lead: Draw, hops: seq<Draw>, k: nat): int
    requires k <= |hops|
  {
    if k == 0 then d * lead.r - lead.rPrime
    else
      var h := hops[k - 1];
      Compared(d, lead, hops, k - 1) * (h.SignOf() * h.r) + h.SignOf() * h.rPrime
  }

  // Have the two candidates been swapped an odd number of times?
  function Swapped(hops: seq<Draw>, k: nat): bool
    requires k <= |hops|
  {
    if k == 0 then false else Swapped(hops, k - 1) != hops[k - 1].flip
  }

  function SwapSign(hops: seq<Draw>, k: nat): int
    requires k <= |hops|
  {
    if Swapped(hops, k) then -1 else 1
  }

  // The compared value with all negations undone.
  function Unflipped(d: int, lead: Draw, hops: seq<Draw>, k: nat): int
    requires k <= |hops|
  {
    SwapSign(hops, k) * Compared(d, lead, hops, k)
  }

  // First candidate 1, second 0, swapped along; the leader keeps the first when the value is <= 0.
  function Selected(d: int, lead: Draw, hops: seq<Draw>): int {
    var first := if Swapped(hops, |hops|) then 0 else 1;
    if Compared(d, lead, hops, |hops|) <= 0 then first else 1 - first
  }

  /** What the hops do to the value: the leader scales and offsets the difference, a hop scales and offsets
      what it gets and negates the result if its coin says so. */
  lemma {:induction false} ComparedStep(d: int, lead: Draw, hops: seq<Draw>, k: nat)
    requires k < |hops|
    ensures Compared(d, lead, hops, 0) == d * lead.r - lead.rPrime
    ensures var v := Compared(d, lead, hops, k) * hops[k].r + hops[k].rPrime;
      Compared(d, lead, hops, k + 1) == if hops[k].flip then -v else v
  {
    var c, r := Compared(d, lead, hops, k), hops[k].r;
    assert c * (-1 * r) == -(c * r);
  }

  // The coins of the hops.
  function Coins(hops: seq<Draw>): (r: seq<bool>)
    ensures |r| == |hops| && forall i :: 0 <= i < |r| ==> r[i] == hops[i].flip
  {
    seq(|hops|, i requires 0 <= i < |hops| => hops[i].flip)
  }

  /** The candidates are swapped when an odd number of coins said so. */
  lemma {:induction false} SwappedIsOdd(hops: seq<Draw>, k: nat)
    requires k <= |hops|
    ensures Swapped(hops, k) <==> |Flagged(Coins(hops), k)| % 2 == 1
  {
    if k == 0 {
      assert Flagged(Coins(hops), 0) == {};
    } else {
      SwappedIsOdd(hops, k - 1);
      FlaggedNext(Coins(hops), k - 1);
      ParityNext(|Flagged(Coins(hops), k - 1)|, |Flagged(Coins(hops), k)|, hops[k - 1].flip);
    }
  }

  lemma ParityNext(count: nat, next: nat, hit: bool)
    requires next == count + if hit then 1 else 0
    ensures next % 2 == 1 <==> (count % 2 == 1) != hit
  {
  }

  lemma {:induction false} UnflippedStep(d: int, lead: Draw, hops: seq<Draw>, k: nat)
    requires k < |hops|
    ensures Unflipped(d, lead, hops, k + 1)
         == hops[k].r * Unflipped(d, lead, hops, k) + SwapSign(hops, k) * hops[k].rPrime
  {
    var h, c, s := hops[k], Compared(d, lead, hops, k), SwapSign(hops, k);
    assert SwapSign(hops, k + 1) == s * h.SignOf();
    SignAlgebra(s, h.SignOf(), c, h.r, h.rPrime);
  }

  lemma {:induction false} SignAlgebra(s: int, g: int, c: int, r: int, p: int)
    requires g == 1 || g == -1
    ensures (s * g) * (c * (g * r) + g * p) == r * (s * c) + s * p
  {
    if g == 1 {
      assert s * (c * r + p) == r * (s * c) + s * p;
    } else {
      assert (-s) * (c * -r - p) == r * (s * c) + s * p;
    }
  }

  // ---------------------------------------------------------------- margins

  /** The smallest magnitude the value can shrink to after k hops, over all coins, when the
      difference is <= 0; computable from the draws alone. */
  function LowMargin(lead: Draw, hops: seq<Draw>, k: nat): int
    requires k <= |hops|
  {
    if k == 0 then lead.rPrime else hops[k - 1].r * LowMargin(lead, hops, k - 1) - hops[k - 1].rPrime
  }

  // The same for a difference >= 1; the first hop always adds its offset.
  function HighMargin(lead: Draw, hops: seq<Draw>, k: nat): int
    requires k <= |hops|
  {
    if k == 0 then lead.r - lead.rPrime
    else if k == 1 then hops[0].r * HighMargin(lead, hops, 0) + hops[0].rPrime
    else hops[k - 1].r * HighMargin(lead, hops, k - 1) - hops[k - 1].rPrime
  }

  // No margin is used up.
  predicate Safe(lead: Draw, hops: seq<Draw>) {
    forall k :: 1 <= k <= |hops| ==> LowMargin(lead, hops, k) >= 1 && HighMargin(lead, hops, k) >= 1
  }

  lemma {:induction false} LowStep(r: int, u: int, m: int, s: int, p: int)
    requires r >= 0 && p >= 0 && (s == 1 || s == -1) && u <= -m
    ensures r * u + s * p <= -(r * m - p)
  {
    MulMono(r, u, -m);
    Assoc(r, m, -1);
    assert s * p <= p by {
      if s == 1 { assert s * p == p; } else { assert s * p == -p; }
    }
  }

  lemma {:induction false} LowBound(d: int, lead: Draw, hops: seq<Draw>, k: nat)
    requires lead.Valid() && ValidDraws(hops) && k <= |hops| && d <= 0
    ensures Unflipped(d, lead, hops, k) <= -LowMargin(lead, hops, k)
  {
    if k == 0 {
      MulMono(lead.r, d, 0);
      assert Unflipped(d, lead, hops, 0) == d * lead.r - lead.rPrime;
    } else {
      LowBound(d, lead, hops, k - 1);
      UnflippedStep(d, lead, hops, k - 1);
      LowStep(hops[k - 1].r, Unflipped(d, lead, hops, k - 1), LowMargin(lead, hops, k - 1),
              SwapSign(hops, k - 1), hops[k - 1].rPrime);
    }
  }

  lemma {:induction false} HighBound(d: int, lead: Draw, hops: seq<Draw>, k: nat)
    requires lead.Valid() && ValidDraws(hops) && k <= |hops| && d >= 1
    ensures Unflipped(d, lead, hops, k) >= HighMargin(lead, hops, k)
  {
    if k == 0 {
      MulMono(lead.r, 1, d);
    } else {
      HighBound(d, lead, hops, k - 1);
      UnflippedStep(d, lead, hops, k - 1);
      MulMono(hops[k - 1].r, HighMargin(lead, hops, k - 1), Unflipped(d, lead, hops, k - 1));
    }
  }

  /** With safe draws every difference is compared correctly, whatever the coins. */
  lemma {:induction false} SafeDecides(d: int, lead: Draw, hops: seq<Draw>)
    requires lead.Valid() && ValidDraws(hops) && |hops| >= 1 && Safe(lead, hops)
    ensures Selected(d, lead, hops) == if d <= 0 then 1 else 0
    ensures Compared(d, lead, hops, |hops|) != 0
  {
    var h := |hops|;
    if d <= 0 { LowBound(d, lead, hops, h); } else { HighBound(d, lead, hops, h); }
    assert LowMargin(lead, hops, h) >= 1 && HighMargin(lead, hops, h) >= 1;
  }

  // r >= 2 everywhere is enough, since then r' < r.
  lemma {:induction false} LargeDrawsAreSafe(lead: Draw, hops: seq<Draw>)
    requires lead.Valid() && ValidDraws(hops) && forall i :: 0 <= i < |hops| ==> hops[i].r >= 2
    ensures Safe(lead, hops)
  {
    forall k | 1 <= k <= |hops|
      ensures LowMargin(lead, hops, k) >= 1 && HighMargin(lead, hops, k) >= 1
    {
      LargeMargins(lead, hops, k);
    }
  }

  lemma {:induction false} LargeMargins(lead: Draw, hops: seq<Draw>, k: nat)
    requires lead.Valid() && ValidDraws(hops) && k <= |hops|
    requires forall i :: 0 <= i < |hops| ==> hops[i].r >= 2
    ensures LowMargin(lead, hops, k) >= 1 && (k >= 1 ==> HighMargin(lead, hops, k) >= 1) && HighMargin(lead, hops, k) >= 0
  {
    if k > 0 {
      LargeMargins(lead, hops, k - 1);
      MulMono(hops[k - 1].r, 1, LowMargin(lead, hops, k - 1));
      if k > 1 {
        MulMono(hops[k - 1].r, 1, HighMargin(lead, hops, k - 1));
      } else {
        MulMono(hops[0].r, 0, HighMargin(lead, hops, 0));
      }
    }
  }

  // ---------------------------------------------------------------- unsafe draws

  // The same draws with other coins.
  predicate SameScales(hops: seq<Draw>, hops': seq<Draw>) {
    |hops| == |hops'| && forall i :: 0 <= i < |hops| ==> hops'[i].r == hops[i].r && hops'[i].rPrime == hops[i].rPrime
  }

  function WithCoins(hops: seq<Draw>, coins: seq<bool>): (r: seq<Draw>)
    requires |coins| == |hops|
    ensures SameScales(hops, r) && forall i :: 0 <= i < |hops| ==> r[i].flip == coins[i]
  {
    seq(|hops|, i requires 0 <= i < |hops| => hops[i].(flip := coins[i]))
  }

  lemma {:induction false} MarginsIgnoreCoins(lead: Draw, hops: seq<Draw>, hops': seq<Draw>, k: nat)
    requires SameScales(hops, hops') && k <= |hops|
    ensures LowMargin(lead, hops', k) == LowMargin(lead, hops, k)
    ensures HighMargin(lead, hops', k) == HighMargin(lead, hops, k)
  {
    if k > 0 { MarginsIgnoreCoins(lead, hops, hops', k - 1); }
  }

  // Without swaps a difference of 0 stays exactly on its margin.
  lemma {:induction false} LowExact(lead: Draw, hops: seq<Draw>, k: nat)
    requires k <= |hops| && forall i :: 0 <= i < k - 1 ==> !hops[i].flip
    ensures k >= 1 ==> !Swapped(hops, k - 1)
    ensures Unflipped(0, lead, hops, k) == -LowMargin(lead, hops, k)
  {
    if k > 0 {
      LowExact(lead, hops, k - 1);
      UnflippedStep(0, lead, hops, k - 1);
      if k > 1 { assert Swapped(hops, k - 1) == (Swapped(hops, k - 2) != hops[k - 2].flip); }
      assert !Swapped(hops, k - 1);
      var r, m := hops[k - 1].r, LowMargin(lead, hops, k - 1);
      assert r * -m == -(r * m);
    }
  }

  // Swapping at the first hop only keeps a difference of 1 exactly on its margin.
  lemma {:induction false} HighExact(lead: Draw, hops: seq<Draw>, k: nat)
    requires k <= |hops| && (k >= 2 ==> hops[0].flip) && forall i :: 1 <= i < k - 1 ==> !hops[i].flip
    ensures k >= 2 ==> Swapped(hops, k - 1)
    ensures Unflipped(1, lead, hops, k) == HighMargin(lead, hops, k)
  {
    if k > 0 {
      HighExact(lead, hops, k - 1);
      UnflippedStep(1, lead, hops, k - 1);
      if k >= 2 {
        assert Swapped(hops, k - 1) == (Swapped(hops, k - 2) != hops[k - 2].flip);
        if k == 2 { assert !Swapped(hops, 0); }
      }
    }
  }

  // Once the value has the sign of the swaps' offset, hops without a swap keep it there.
  lemma {:induction false} SignPersists(d: int, lead: Draw, hops: seq<Draw>, j: nat, k: nat, s: int)
    requires ValidDraws(hops) && j <= k <= |hops| && (s == 1 || s == -1)
    requires SwapSign(hops, j) == s && s * Unflipped(d, lead, hops, j) >= 0
    requires forall i :: j <= i < k ==> !hops[i].flip
    ensures SwapSign(hops, k) == s
    ensures k > j ==> s * Unflipped(d, lead, hops, k) >= 1
  {
    if k > j {
      SignPersists(d, lead, hops, j, k - 1, s);
      UnflippedStep(d, lead, hops, k - 1);
      SignStep(s, hops[k - 1].r, Unflipped(d, lead, hops, k - 1), hops[k - 1].rPrime);
    }
  }

  lemma {:induction false} SignStep(s: int, r: int, u: int, p: int)
    requires (s == 1 || s == -1) && r >= 0 && p >= 1 && s * u >= 0
    ensures s * (r * u + s * p) >= 1
  {
    var w := s * u;
    MulMono(r, 0, w);
    if s == 1 {
      assert s * (r * u + s * p) == r * w + p;
    } else {
      assert s * p == -p && w == -u;
      Assoc(r, u, -1);
      assert s * (r * u + s * p) == r * w + p;
    }
  }

  ghost predicate Decides(d: int, lead: Draw, hops: seq<Draw>) {
    Selected(d, lead, hops) == if d <= 0 then 1 else 0
  }

  // A used-up low margin: some coins make a difference of 0 look positive.
  lemma {:induction false} LowFails(lead: Draw, hops: seq<Draw>, k: nat) returns (hops': seq<Draw>)
    requires lead.Valid() && ValidDraws(hops) && 1 <= k <= |hops| && LowMargin(lead, hops, k) == 0
    ensures SameScales(hops, hops') && !Decides(0, lead, hops')
  {
    var h := |hops|;
    hops' := WithCoins(hops, seq(h, i => i == h - 1 && k == h));
    MarginsIgnoreCoins(lead, hops, hops', k);
    LowExact(lead, hops', k);
    if k < h {
      assert SwapSign(hops', k) == 1 by { assert Swapped(hops', k) == (Swapped(hops', k - 1) != hops'[k - 1].flip); }
      SignPersists(0, lead, hops', k, h, 1);
    } else {
      assert Swapped(hops', h) == (Swapped(hops', h - 1) != hops'[h - 1].flip);
    }
  }

  // A used-up high margin: some coins make a difference of 1 look non-positive.
  lemma {:induction false} HighFails(lead: Draw, hops: seq<Draw>, k: nat) returns (hops': seq<Draw>)
    requires lead.Valid() && ValidDraws(hops) && 2 <= k <= |hops| && HighMargin(lead, hops, k) == 0
    ensures SameScales(hops, hops') && !Decides(1, lead, hops')
  {
    var h := |hops|;
    hops' := WithCoins(hops, seq(h, i => i == 0 || (i == h - 1 && k == h)));
    MarginsIgnoreCoins(lead, hops, hops', k);
    HighExact(lead, hops', k);
    assert Swapped(hops', k) == (Swapped(hops', k - 1) != hops'[k - 1].flip);
    if k < h {
      SignPersists(1, lead, hops', k, h, -1);
    }
  }

  lemma {:induction false} MarginStep(r: int, p: int, m: int)
    requires m >= 1 && (if r == 1 then p == 1 else 1 <= p < r) && r >= 1
    ensures r * m - p >= 0
  {
    MulMono(r, 1, m);
  }

  // The first used-up margin is exactly 0.
  lemma {:induction false} FirstZero(lead: Draw, hops: seq<Draw>) returns (k: nat)
    requires lead.Valid() && ValidDraws(hops) && !Safe(lead, hops)
    ensures 1 <= k <= |hops|
    ensures LowMargin(lead, hops, k) == 0 || (k >= 2 && HighMargin(lead, hops, k) == 0)
  {
    k := 1;
    assert LowMargin(lead, hops, 0) >= 1 && HighMargin(lead, hops, 0) >= 0;
    while LowMargin(lead, hops, k) >= 1 && HighMargin(lead, hops, k) >= 1
      invariant 1 <= k <= |hops|
      invariant forall j :: 1 <= j < k ==> LowMargin(lead, hops, j) >= 1 && HighMargin(lead, hops, j) >= 1
      invariant LowMargin(lead, hops, k - 1) >= 1 && HighMargin(lead, hops, k - 1) >= (if k == 1 then 0 else 1)
      decreases |hops| - k
    {
      assert k < |hops|;
      k := k + 1;
    }
    var h := hops[k - 1];
    MarginStep(h.r, h.rPrime, LowMargin(lead, hops, k - 1));
    if k >= 2 {
      MarginStep(h.r, h.rPrime, HighMargin(lead, hops, k - 1));
    } else {
      MulMono(h.r, 0, HighMargin(lead, hops, 0));
    }
  }

  /** Exactly the safe draws compare every difference correctly under all coins. */
  lemma {:induction false} DecidesIffSafe(lead: Draw, hops: seq<Draw>)
    requires lead.Valid() && ValidDraws(hops) && |hops| >= 1
    ensures Safe(lead, hops) <==> forall d: int, hops': seq<Draw> :: SameScales(hops, hops') ==> Decides(d, lead, hops')
  {
    if Safe(lead, hops) {
      forall d: int, hops': seq<Draw> | SameScales(hops, hops')
        ensures Decides(d, lead, hops')
      {
        forall k | 1 <= k <= |hops'|
          ensures LowMargin(lead, hops', k) >= 1 && HighMargin(lead, hops', k) >= 1
        {
          MarginsIgnoreCoins(lead, hops, hops', k);
        }
        SafeDecides(d, lead, hops');
      }
    } else {
      var k := FirstZero(lead, hops);
      if LowMargin(lead, hops, k) == 0 {
        var hops' := LowFails(lead, hops, k);
      } else {
        var hops' := HighFails(lead, hops, k);
      }
    }
  }

  // A concrete wrong comparison: one hop drawing r = 1 turns a difference of 0 into a 0 answer.
  lemma {:induction false} UnitDrawFails()
    ensures var lead, hops := Draw(false, 2, 1), [Draw(true, 1, 1)];
            lead.Valid() && ValidDraws(hops) && !Decides(0, lead, hops)
  {
    var lead, hops := Draw(false, 2, 1), [Draw(true, 1, 1)];
    assert Compared(0, lead, hops, 0) == -1;
    assert Compared(0, lead, hops, 1) == -1 * (-1 * 1) + -1 * 1 == 0;
    assert Swapped(hops, 1) == (Swapped(hops, 0) != true) == true;
  }

  // ---------------------------------------------------------------- size

  // 127^(k+1) * (bound+1) bounds the magnitude after k hops, plus one.
  lemma {:induction false} Magnitude(d: int, lead: Draw, hops: seq<Draw>, k: nat, bound: nat)
    requires lead.Valid() && ValidDraws(hops) && k <= |hops| && -(bound as int) <= d <= bound
    ensures Abs(Compared(d, lead, hops, k)) + 1 <= Pow(127, k + 1) * (bound + 1)
  {
    if k == 0 {
      ScaleBound(d, lead.r, 0 - lead.rPrime, bound);
      assert Pow(127, 1) == 127 * Pow(127, 0) == 127;
    } else {
      var h, c := hops[k - 1], Compared(d, lead, hops, k - 1);
      Magnitude(d, lead, hops, k - 1, bound);
      ScaleBound(c, h.SignOf() * h.r, h.SignOf() * h.rPrime, Abs(c));
      Assoc(127, Pow(127, k), bound + 1);
      MulMono(127, Abs(c) + 1, Pow(127, k) * (bound + 1));
    }
  }

  function Abs(x: int): nat {
    if x < 0 then -x else x
  }

  lemma {:induction false} ScaleBound(c: int, r: int, p: int, bound: nat)
    requires Abs(c) <= bound && -127 <= r <= 127 && Abs(p) <= 126
    ensures Abs(c * r + p) + 1 <= 127 * (bound + 1)
  {
    assert Abs(c * r) == Abs(c) * Abs(r);
    MulMono(Abs(c), Abs(r), 127);
  }
}
