/**
 The four moduli of YYH26 are primes, by Proth's argument: when p - 1 has a large power of two as a
 factor and p has a witness a with a^((p-1)/2) = -1, every prime factor of p is 1 modulo that power.
 */
module Moduli {
  import opened NumberTheory

  const FOUR_MODULO: seq<nat> := [4293230593, 4293836801, 4293918721, 4294475777]

  // ---------------------------------------------------------------- prime factors

  // The least divisor from k on, when there is none below.
  lemma {:induction false} DivisorFrom(n: nat, k: nat) returns (d: nat)
    requires 2 <= k <= n && forall c :: 2 <= c < k ==> n % c != 0
    ensures k <= d <= n && n % d == 0 && forall c :: 2 <= c < d ==> n % c != 0
    decreases n - k
  {
    if n % k == 0 {
      d := k;
    } else {
      ModZeroMultiple(1, n);
      d := DivisorFrom(n, k + 1);
    }
  }

  lemma {:induction false} DivisorOfDivisor(n: nat, d: nat, c: nat)
    requires c > 0 && d > 0 && n % d == 0 && d % c == 0
    ensures n % c == 0
  {
    var q, r := n / d, d / c;
    assert n == q * d && d == r * c;
    Assoc(q, r, c);
    ModZeroMultiple(q * r, c);
  }

  /** A number that is not prime has a prime divisor whose square is no larger. */
  lemma {:induction false} SmallPrimeFactor(n: nat) returns (d: nat)
    requires n >= 2
    ensures Prime(d) && n % d == 0 && (d == n || d * d <= n)
  {
    d := DivisorFrom(n, 2);
    forall c | 2 <= c < d
      ensures d % c != 0
    {
      if d % c == 0 {
        DivisorOfDivisor(n, d, c);
      }
    }
    if d < n {
      var q := n / d;
      assert n == q * d;
      assert q >= 2 by {
        if q <= 1 {
          MulMono(d, q, 1);
        }
      }
      ModZeroMultiple(d, q);
      assert q >= d;
      MulMono(d, d, q);
    }
  }

  // ---------------------------------------------------------------- the order of a power of two

  lemma {:induction false} OddPart(n: nat) returns (e: nat, w: nat)
    requires n > 0
    ensures n == Pow(2, e) * w && w % 2 == 1
  {
    if n % 2 == 1 {
      e, w := 0, n;
    } else {
      var e', w' := OddPart(n / 2);
      e, w := e' + 1, w';
      Assoc(2, Pow(2, e'), w);
    }
  }

  // (-1) to an odd power.
  lemma {:induction false} MinusOneOdd(w: nat)
    ensures Pow(-1, w) == if w % 2 == 1 then -1 else 1
  {
    if w > 0 {
      MinusOneOdd(w - 1);
    }
  }

  // An element with a power -1 is a unit.
  lemma {:induction false} MinusOneUnit(x: int, k: nat, r: nat)
    requires r > 2 && Cong(Pow(x, k), -1, r)
    ensures Unit(x, r)
  {
    if k == 0 {
      var m := CongElim(1, -1, r);
      MulBounds(m, r);
      assert false;
    }
    var y := Pow(x, k - 1);
    CongMul(-1, -1, x * y, -1, r);
    assert x * (-y) == -1 * (x * y);
    assert Cong(x * (-y), 1, r);
  }

  /** If some x has x^(2^(s-1)) = -1 modulo an odd prime r, then 2^s divides r - 1. */
  lemma {:induction false} TwoPowerDivides(r: nat, x: int, s: nat)
    requires Prime(r) && r > 2 && s >= 1 && Pow(2, s - 1) > 0 && Cong(Pow(x, Pow(2, s - 1)), -1, r)
    ensures Pow(2, s) > 0 && (r - 1) % Pow(2, s) == 0
  {
    PowPositive(2, s);
    var e, w := OddPart(r - 1);
    PowPositive(2, e);
    EnoughTwos(r, x, s, e, w);
    PowPositive(2, e - s);
    PowAdd(2, e - s, s);
    var a, b := Pow(2, e - s), Pow(2, s);
    assert r - 1 == (a * w) * b by { Assoc(a, b, w); Assoc(a, w, b); }
    ModZeroMultiple(a * w, b);
  }

  // r - 1 has at least s factors of two: otherwise x^(2^(s-1) w), with w odd, would be both -1 and 1.
  lemma {:induction false} EnoughTwos(r: nat, x: int, s: nat, e: nat, w: nat)
    requires Prime(r) && r > 2 && s >= 1 && w % 2 == 1 && r - 1 == Pow(2, e) * w
    requires Pow(2, s - 1) > 0 && Cong(Pow(x, Pow(2, s - 1)), -1, r)
    ensures e >= s
  {
    if e < s {
      var k, t := Pow(2, s - 1), Pow(2, s - 1 - e);
      PowPositive(2, s - 1 - e);
      PowAdd(2, e, s - 1 - e);
      assert (r - 1) * t == k * w by { Assoc(Pow(2, e), w, t); Assoc(Pow(2, e), t, w); }
      MinusOneUnit(x, k, r);
      assert Cong(Pow(x, k * w), 1, r) by {
        Fermat(r, x);
        PowMul(x, r - 1, t);
        CongPow(Pow(x, r - 1), 1, t, r);
        PowOne(t);
      }
      assert Cong(Pow(x, k * w), -1, r) by {
        PowMul(x, k, w);
        CongPow(Pow(x, k), -1, w, r);
        MinusOneOdd(w);
      }
      var m := CongElim(1, -1, r);
      MulBounds(m, r);
    }
  }

  // ---------------------------------------------------------------- Proth

  // No number below 2^16 that is 1 modulo b divides p.
  ghost predicate NoSmallFactor(p: nat, b: nat)
    requires b > 0
  {
    forall j: nat :: 1 <= j && b * j < 0xFFFF ==> p % (b * j + 1) != 0
  }

  lemma {:induction false} FactorOfForm(p: nat, r: nat, b: nat)
    requires b > 0 && 1 < r < 0x1_0000 && (r - 1) % b == 0 && p % r == 0
    ensures !NoSmallFactor(p, b)
  {
    var j := (r - 1) / b;
    assert r - 1 == b * j && j >= 1;
  }

  /** Proth: with a witness, and without a divisor below 2^16 of the only possible form, p is prime. */
  lemma {:induction false} Proth(p: nat, a: nat, s: nat, d: nat, k: nat, e: nat)
    requires 2 < p < 0x1_0000_0000 && p % 2 == 1 && s >= 1 && k == Pow(2, s - 1) > 0
    requires e == d * k && Reaches(a, p, e, p - 1) && NoSmallFactor(p, 2 * k)
    ensures Prime(p)
  {
    var r := SmallPrimeFactor(p);
    if r != p {
      assert r < 0x1_0000 by {
        if r >= 0x1_0000 {
          MulMono(r, 0x1_0000, r);
        }
      }
      assert r != 2;
      var q := p / r;
      assert p == r * q;
      CongIntro(p - 1, -1, p, 1);
      CongDivisor(Pow(a, e), -1, r, q);
      PowMul(a, d, k);
      TwoPowerDivides(r, Pow(a, d), s);
      assert Pow(2, s) == 2 * k;
      FactorOfForm(p, r, 2 * k);
    }
  }

  lemma {:induction false} TwoPowers()
    ensures Pow(2, 13) == 0x2000 && Pow(2, 14) == 0x4000 && Pow(2, 19) == 0x8_0000
  {
    assert Pow(2, 4) == 2 * Pow(2, 3) == 4 * Pow(2, 2) == 8 * Pow(2, 1) == 16 * Pow(2, 0) == 16;
    PowAdd(2, 4, 4);
    PowAdd(2, 8, 4);
    assert Pow(2, 13) == 2 * Pow(2, 12) && Pow(2, 14) == 2 * Pow(2, 13);
    PowAdd(2, 12, 4);
    PowAdd(2, 16, 3);
    assert Pow(2, 3) == 8;
  }

  // One step of repeated squaring, and what it does to an exponent.
  function Squared(v: nat, a: nat, bit: nat, p: nat): nat
    requires p > 0
  {
    (v * v * (if bit == 1 then a else 1)) % p
  }

  // a^e is v modulo p.
  ghost predicate Reaches(a: nat, p: nat, e: nat, v: nat)
    requires p > 0
  {
    Cong(Pow(a, e), v, p)
  }

  lemma {:induction false} Step(a: nat, p: nat, e: nat, v: nat, bit: nat)
    requires p > 0 && Reaches(a, p, e, v) && bit < 2
    ensures Reaches(a, p, 2 * e + bit, Squared(v, a, bit, p))
  {
    var x := Pow(a, e);
    CongMul(x, v, x, v, p);
    PowAdd(a, e, e);
    CongMod(v * v * (if bit == 1 then a else 1), p);
    assert Pow(a, 2 * e) == x * x by { assert e + e == 2 * e; }
    if bit == 1 {
      CongMul(x * x, v * v, a, a, p);
      assert Pow(a, 2 * e + 1) == a * Pow(a, 2 * e);
    }
  }

  // Names an instance of the closure below, so that a proof only uses the ones it asks for.
  ghost predicate Asked(e: nat, v: nat, bit: nat) {
    true
  }

  // A relation between exponents and values that squaring steps preserve.
  ghost predicate Doubling(reached: (nat, nat) -> bool, a: nat, p: nat)
    requires p > 0
  {
    forall e: nat, v: nat, bit: nat {:trigger Asked(e, v, bit)} :: Asked(e, v, bit) && bit < 2 && reached(e, v) ==>
      reached(2 * e + bit, Squared(v, a, bit, p))
  }

  // Five steps, with the value after each: from a^e to a^(32 e + the five bits).
  lemma {:induction false} FiveSteps(reached: (nat, nat) -> bool, a: nat, p: nat, e: nat, v: nat, b4: nat, v4: nat, b3: nat,
                                     v3: nat, b2: nat, v2: nat, b1: nat, v1: nat, b0: nat, v0: nat)
    returns (e': nat)
    requires p > 0 && Doubling(reached, a, p) && reached(e, v) && b4 < 2 && b3 < 2 && b2 < 2 && b1 < 2 && b0 < 2
    requires v4 == Squared(v, a, b4, p) && v3 == Squared(v4, a, b3, p) && v2 == Squared(v3, a, b2, p)
    requires v1 == Squared(v2, a, b1, p) && v0 == Squared(v1, a, b0, p)
    ensures e' == 32 * e + 16 * b4 + 8 * b3 + 4 * b2 + 2 * b1 + b0 && reached(e', v0)
  {
    e' := e;
    assert Asked(e', v, b4);
    e' := 2 * e' + b4;
    assert Asked(e', v4, b3);
    e' := 2 * e' + b3;
    assert Asked(e', v3, b2);
    e' := 2 * e' + b2;
    assert Asked(e', v2, b1);
    e' := 2 * e' + b1;
    assert Asked(e', v1, b0);
    e' := 2 * e' + b0;
  }

  lemma {:induction false} ReachedBy(a: nat, p: nat) returns (reached: (nat, nat) -> bool)
    requires p > a
    ensures Doubling(reached, a, p) && reached(1, a)
    ensures forall e: nat, v: nat :: reached(e, v) ==> Reaches(a, p, e, v)
  {
    reached := (e: nat, v: nat) => Reaches(a, p, e, v);
    assert Pow(a, 1) == a * Pow(a, 0) == a;
    forall e: nat, v: nat, bit: nat | Asked(e, v, bit) && bit < 2 && reached(e, v)
      ensures reached(2 * e + bit, Squared(v, a, bit, p))
    {
      Step(a, p, e, v, bit);
    }
  }

  lemma {:induction false} Witness0(reached: (nat, nat) -> bool)
    requires Doubling(reached, 5, 4293230593) && reached(1, 5)
    ensures reached(2146615296, 4293230592)
  {
    var e: nat := 1;
    e := FiveSteps(reached, 5, 4293230593, e, 5, 1, 125, 1, 78125, 1, 464963974, 1, 219224039, 1, 2044235765);
    e := FiveSteps(reached, 5, 4293230593, e, 2044235765, 1, 1917677222, 1, 4160991092, 1, 145088810, 1, 2447978482, 1, 244008075);
    e := FiveSteps(reached, 5, 4293230593, e, 244008075, 0, 2035385935, 0, 4043779400, 1, 3295175519, 0, 2488303538, 1, 2035292204);
    e := FiveSteps(reached, 5, 4293230593, e, 2035292204, 1, 3622277656, 0, 320060948, 0, 4066090020, 0, 1679347300, 0, 2323555798);
    e := FiveSteps(reached, 5, 4293230593, e, 2323555798, 0, 2394293026, 0, 1965827722, 0, 470536645, 0, 3367885238, 0, 2121371482);
    e := FiveSteps(reached, 5, 4293230593, e, 2121371482, 0, 587053179, 0, 3951078360, 0, 3864976035, 0, 2572154861, 0, 4293230592);
  }

  lemma {:induction false} Prime0()
    ensures Prime(4293230593)
  {
    var reached := ReachedBy(5, 4293230593);
    Witness0(reached);
    TwoPowers();
    Proth(4293230593, 5, 15, 131019, 0x4000, 2146615296);
  }

  lemma {:induction false} Witness1(reached: (nat, nat) -> bool)
    requires Doubling(reached, 3, 4293836801) && reached(1, 3)
    ensures reached(2146918400, 4293836800)
  {
    var e: nat := 1;
    e := FiveSteps(reached, 3, 4293836801, e, 3, 1, 27, 1, 2187, 1, 14348907, 1, 678623296, 1, 192545162);
    e := FiveSteps(reached, 3, 4293836801, e, 192545162, 1, 3713572277, 1, 4247942743, 1, 618117696, 1, 605353732, 1, 515681119);
    e := FiveSteps(reached, 3, 4293836801, e, 515681119, 0, 3629828702, 1, 1374631309, 1, 2175501141, 1, 2484756222, 0, 2431761682);
    e := FiveSteps(reached, 3, 4293836801, e, 2431761682, 1, 2065833178, 1, 1756290656, 0, 2534765891, 0, 3614341863, 0, 2189771320);
    e := FiveSteps(reached, 3, 4293836801, e, 2189771320, 0, 688509804, 0, 1424072180, 0, 956839029, 0, 1888139935, 0, 829991580);
    e := FiveSteps(reached, 3, 4293836801, e, 829991580, 0, 396476395, 0, 903849318, 0, 3302261544, 0, 1297836485, 0, 4293836800);
  }

  lemma {:induction false} Prime1()
    ensures Prime(4293836801)
  {
    var reached := ReachedBy(3, 4293836801);
    Witness1(reached);
    TwoPowers();
    Proth(4293836801, 3, 14, 262075, 0x2000, 2146918400);
  }

  lemma {:induction false} Witness2(reached: (nat, nat) -> bool)
    requires Doubling(reached, 17, 4293918721) && reached(1, 17)
    ensures reached(2146959360, 4293918720)
  {
    var e: nat := 1;
    e := FiveSteps(reached, 17, 4293918721, e, 17, 1, 4913, 1, 410338673, 1, 4224057243, 1, 3831749403, 1, 2973867481);
    e := FiveSteps(reached, 17, 4293918721, e, 2973867481, 1, 277410503, 1, 2160147930, 1, 4126923378, 1, 2940227440, 1, 2581796754);
    e := FiveSteps(reached, 17, 4293918721, e, 2581796754, 1, 2948152962, 0, 3906004511, 0, 2664640427, 0, 2928850483, 0, 2147834165);
    e := FiveSteps(reached, 17, 4293918721, e, 2147834165, 0, 4185819923, 0, 4245358313, 0, 411521289, 0, 68871676, 0, 382465279);
    e := FiveSteps(reached, 17, 4293918721, e, 382465279, 0, 1514751210, 0, 948408030, 0, 4064455286, 0, 2476244411, 0, 3390200195);
    e := FiveSteps(reached, 17, 4293918721, e, 3390200195, 0, 3325913544, 0, 3453551898, 0, 3598607238, 0, 37101870, 0, 4293918720);
  }

  lemma {:induction false} Prime2()
    ensures Prime(4293918721)
  {
    var reached := ReachedBy(17, 4293918721);
    Witness2(reached);
    TwoPowers();
    Proth(4293918721, 17, 20, 4095, 0x80000, 2146959360);
  }

  lemma {:induction false} Witness3(reached: (nat, nat) -> bool)
    requires Doubling(reached, 3, 4294475777) && reached(1, 3)
    ensures reached(2147237888, 4294475776)
  {
    var e: nat := 1;
    e := FiveSteps(reached, 3, 4294475777, e, 3, 1, 27, 1, 2187, 1, 14348907, 1, 3239753814, 1, 1999209146);
    e := FiveSteps(reached, 3, 4294475777, e, 1999209146, 1, 2125664889, 1, 2681563698, 1, 2253106237, 1, 3148019265, 1, 271346755);
    e := FiveSteps(reached, 3, 4294475777, e, 271346755, 1, 2512221668, 1, 3648266223, 0, 2384053460, 0, 3125700344, 0, 3066433947);
    e := FiveSteps(reached, 3, 4294475777, e, 3066433947, 1, 2178823240, 0, 865907846, 0, 3161561150, 0, 2369000583, 0, 4078775754);
    e := FiveSteps(reached, 3, 4294475777, e, 4078775754, 0, 3342006111, 0, 3378553827, 0, 3053998399, 0, 1716965076, 0, 252174961);
    e := FiveSteps(reached, 3, 4294475777, e, 252174961, 0, 152355451, 0, 770780499, 0, 1719066092, 0, 1213804008, 0, 4294475776);
  }

  lemma {:induction false} Prime3()
    ensures Prime(4294475777)
  {
    var reached := ReachedBy(3, 4294475777);
    Witness3(reached);
    TwoPowers();
    Proth(4294475777, 3, 15, 131057, 0x4000, 2147237888);
  }

  /** Every one of the four moduli is a prime that fits a 32-bit lane. */
  lemma {:induction false} PrimeModuli(k: nat)
    requires k < 4
    ensures Prime(FOUR_MODULO[k]) && 0xFF00_0000 < FOUR_MODULO[k] < 0x1_0000_0000
  {
    Prime0();
    Prime1();
    Prime2();
    Prime3();
  }
}
