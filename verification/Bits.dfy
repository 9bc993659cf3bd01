/**
 Single bits of an unsigned word, as shifts and masks read and write them.
 */
module Bits {
  import opened NumberTheory

  // (w & (1 << b)) != 0
  function BitAt(w: nat, b: nat): bool {
    PowPositive(2, b);
    (w / Pow(2, b)) % 2 == 1
  }

  // w | (1 << b)
  function OrBit(w: nat, b: nat): nat {
    if BitAt(w, b) then w else PowPositive(2, b); w + Pow(2, b)
  }

  lemma {:induction false} DigitsCombine(x: int, a: int, b: int, q: int, q': int, r: int, r': int)
    requires x == q * a + r && q == q' * b + r' && 0 <= r < a && 0 <= r' < b
    ensures x == q' * (a * b) + (r' * a + r) && 0 <= r' * a + r < a * b
  {
    Distribute(a, q' * b, r');
    Assoc(q', b, a);
    MulMono(a, r', b - 1);
    Distribute(a, b, -1);
  }

  lemma {:induction false} DivMul(x: nat, a: nat, b: nat)
    requires a > 0 && b > 0
    ensures a * b > 0 && x / (a * b) == (x / a) / b
  {
    var q, q' := x / a, (x / a) / b;
    var r, r' := x % a, q % b;
    assert x == q * a + r && q == q' * b + r';
    DigitsCombine(x, a, b, q, q', r, r');
    ModUnique(x, a * b, q', r' * a + r);
  }

  /** Setting bit b changes bit b and no other. */
  lemma {:induction false} OrBitSets(w: nat, b: nat, c: nat)
    ensures BitAt(OrBit(w, b), c) <==> b == c || BitAt(w, c)
  {
    PowPositive(2, b);
    PowPositive(2, c);
    if !BitAt(w, b) {
      var p := Pow(2, b);
      if c <= b {
        LowerBit(w, b, c);
      } else {
        HigherBit(w, b, c);
      }
    }
  }

  lemma {:induction false} LowerBit(w: nat, b: nat, c: nat)
    requires c <= b && !BitAt(w, b)
    ensures BitAt(OrBit(w, b), c) <==> b == c || BitAt(w, c)
  {
    PowPositive(2, c);
    PowAdd(2, c, b - c);
    if c < b {
      PowPositive(2, b - c - 1);
      AddedHigher(w, OrBit(w, b), Pow(2, c), Pow(2, b - c), Pow(2, b - c - 1));
    } else {
      AddedHere(w, OrBit(w, b), Pow(2, c));
    }
  }

  // Adding an even multiple of p leaves the bit of place value p alone.
  lemma {:induction false} AddedHigher(w: nat, sum: nat, p: nat, f: nat, h: nat)
    requires p > 0 && sum == w + p * f && f == 2 * h
    ensures (sum / p) % 2 == (w / p) % 2
  {
    AddMultiple(w, p, f);
    ParityShift(w / p, h);
  }

  // Adding p itself flips it.
  lemma {:induction false} AddedHere(w: nat, sum: nat, p: nat)
    requires p > 0 && sum == w + p && (w / p) % 2 == 0
    ensures (sum / p) % 2 == 1
  {
    AddMultiple(w, p, 1);
    NextOdd(w / p);
  }

  lemma {:induction false} AddMultiple(w: nat, p: nat, f: int)
    requires p > 0
    ensures (w + p * f) / p == w / p + f
  {
    var q, r := w / p, w % p;
    Distribute(p, q, f);
    ModUnique(w + p * f, p, q + f, r);
  }

  lemma NextOdd(q: nat)
    ensures q % 2 == 0 ==> (q + 1) % 2 == 1
  {
  }

  lemma {:induction false} ParityShift(q: nat, h: nat)
    ensures (q + 2 * h) % 2 == q % 2
  {
    ModUnique(q + 2 * h, 2, q / 2 + h, q % 2);
  }

  lemma {:induction false} HigherBit(w: nat, b: nat, c: nat)
    requires c > b && !BitAt(w, b)
    ensures BitAt(OrBit(w, b), c) <==> BitAt(w, c)
  {
    PowPositive(2, b);
    PowPositive(2, b + 1);
    PowPositive(2, c - b - 1);
    PowAdd(2, b + 1, c - b - 1);
    var p, g := Pow(2, b), Pow(2, c - b - 1);
    // the low b+1 bits of w are less than p, so adding p does not carry
    var q := w / p;
    assert q % 2 == 0;
    var k, l := q / 2, w % p;
    assert w == q * p + l;
    assert q == k * 2;
    Assoc(k, 2, p);
    ModUnique(w, 2 * p, k, l);
    ModUnique(w + p, 2 * p, k, l + p);
    DivMul(w, 2 * p, g);
    DivMul(w + p, 2 * p, g);
  }

  // A word below 2^k has no bit at or above k.
  lemma {:induction false} HighBitsClear(w: nat, k: nat, b: nat)
    requires k <= b && w < Pow(2, k)
    ensures !BitAt(w, b)
  {
    PowPositive(2, k);
    PowPositive(2, b);
    PowPositive(2, b - k);
    PowAdd(2, k, b - k);
    MulMono(Pow(2, k), 1, Pow(2, b - k));
    ModUnique(w, Pow(2, b), 0, w);
  }

  // Setting the next bit keeps a word inside the wider range.
  lemma {:induction false} OrBitBelow(w: nat, k: nat)
    requires w < Pow(2, k)
    ensures OrBit(w, k) == w + Pow(2, k) < Pow(2, k + 1)
  {
    HighBitsClear(w, k, k);
  }

  // A word below 2^(k+1) is its top bit and a word below 2^k with the same lower bits.
  lemma {:induction false} TopBit(w: nat, k: nat) returns (low: nat)
    requires w < Pow(2, k + 1)
    ensures low < Pow(2, k) && w == if BitAt(w, k) then OrBit(low, k) else low
    ensures forall b :: 0 <= b < k ==> BitAt(low, b) == BitAt(w, b)
  {
    PowPositive(2, k);
    var p := Pow(2, k);
    assert Pow(2, k + 1) == 2 * p;
    if w >= p {
      low := w - p;
      ModUnique(w, p, 1, low);
    } else {
      low := w;
      ModUnique(w, p, 0, low);
    }
    OrBitBelow(low, k);
    forall b | 0 <= b < k
      ensures BitAt(low, b) == BitAt(w, b)
    {
      OrBitSets(low, k, b);
    }
  }

  /** Two words below 2^k with the same k bits are equal. */
  lemma {:induction false} BitsDetermine(v: nat, w: nat, k: nat)
    requires v < Pow(2, k) && w < Pow(2, k) && forall b :: 0 <= b < k ==> BitAt(v, b) == BitAt(w, b)
    ensures v == w
  {
    if k > 0 {
      var lowV := TopBit(v, k - 1);
      var lowW := TopBit(w, k - 1);
      BitsDetermine(lowV, lowW, k - 1);
      assert BitAt(v, k - 1) == BitAt(w, k - 1);
    }
  }

  // v ^ w
  function Xor(v: nat, w: nat): nat {
    if v == 0 && w == 0 then 0 else 2 * Xor(v / 2, w / 2) + (v % 2 + w % 2) % 2
  }

  lemma {:induction false} XorStep(v: nat, w: nat)
    ensures Xor(v, w) / 2 == Xor(v / 2, w / 2) && Xor(v, w) % 2 == (v % 2 + w % 2) % 2
  {
    var high, low := Xor(v / 2, w / 2), (v % 2 + w % 2) % 2;
    assert Xor(v, w) == 2 * high + low;
  }

  lemma SameParity(v: nat, w: nat, x: nat)
    requires x % 2 == ((w % 2 + v % 2) % 2 + w % 2) % 2
    ensures x % 2 == v % 2
  {
  }

  /** Or-ing exclusively twice with the same word changes nothing. */
  lemma {:induction false} XorCancels(v: nat, w: nat)
    ensures Xor(Xor(w, v), w) == v
    decreases v + w
  {
    if v > 0 || w > 0 {
      var y := Xor(w, v);
      XorStep(w, v);
      XorStep(y, w);
      XorCancels(v / 2, w / 2);
      SameParity(v, w, Xor(y, w));
    }
  }

  // Half the word has its bits one place lower.
  lemma {:induction false} HalfBit(v: nat, b: nat)
    ensures BitAt(v, b + 1) == BitAt(v / 2, b)
  {
    PowPositive(2, b);
    DivMul(v, 2, Pow(2, b));
  }

  lemma {:induction false} LastBit(v: nat)
    ensures BitAt(v, 0) <==> v % 2 == 1
  {
    assert Pow(2, 0) == 1;
  }

  lemma OddSum(x: nat, v: nat, w: nat)
    requires x % 2 == (v % 2 + w % 2) % 2
    ensures x % 2 == 1 <==> (v % 2 == 1) != (w % 2 == 1)
  {
  }

  /** A bit is set after or-ing exclusively when it is set in just one of the words. */
  lemma {:induction false} XorBits(v: nat, w: nat, b: nat)
    ensures BitAt(Xor(v, w), b) <==> BitAt(v, b) != BitAt(w, b)
    decreases b
  {
    var x := Xor(v, w);
    XorStep(v, w);
    if b == 0 {
      LastBit(v);
      LastBit(w);
      LastBit(x);
      OddSum(x, v, w);
    } else {
      var low := b - 1;
      HalfBit(v, low);
      HalfBit(w, low);
      HalfBit(x, low);
      XorBits(v / 2, w / 2, low);
    }
  }
}
