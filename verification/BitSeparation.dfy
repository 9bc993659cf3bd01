/**
 When the positions getPos1 ends with really separate a bin's points: always for one or two points,
 and for three exactly under a condition on the points that can be read off before the search.
 */
module BitSeparation {
  import opened NumberTheory
  import opened Bits
  import opened BitPositions

  lemma {:induction false} SameByte(p: Point, q: Point, i: nat)
    requires i < 32 && forall k :: 0 <= k < POINT_BITS ==> TestBit(p, k) == TestBit(q, k)
    ensures p[i] == q[i]
  {
    forall b | 0 <= b < 8
      ensures BitAt(p[i], b) == BitAt(q[i], b)
    {
      assert TestBit(p, 8 * i + b) == TestBit(q, 8 * i + b);
    }
    EighthPower();
    BitsDetermine(p[i], q[i], 8);
  }

  lemma {:induction false} EighthPower()
    ensures Pow(2, 8) == 256
  {
    assert Pow(2, 8) == 2 * Pow(2, 7) == 4 * Pow(2, 6) == 8 * Pow(2, 5) == 16 * Pow(2, 4);
    assert Pow(2, 4) == 2 * Pow(2, 3) == 4 * Pow(2, 2) == 8 * Pow(2, 1) == 16 * Pow(2, 0);
  }

  lemma {:induction false} SameBits(p: Point, q: Point)
    requires FirstDiff(p, q, 0) == POINT_BITS
    ensures p == q
  {
    forall i | 0 <= i < 32
      ensures p[i] == q[i]
    {
      SameByte(p, q, i);
    }
  }

  // Different points differ in some bit.
  lemma {:induction false} PointsDiffer(p: Point, q: Point)
    requires p != q
    ensures FirstDiff(p, q, 0) < POINT_BITS
  {
    if FirstDiff(p, q, 0) == POINT_BITS {
      SameBits(p, q);
    }
  }

  // ---------------------------------------------------------------- positions where two points agree

  // The positions below n, other than a, where p and q have the same bit.
  function AgreeList(p: Point, q: Point, a: nat, n: nat): (r: seq<nat>)
    requires n <= POINT_BITS
    ensures forall k :: 0 <= k < |r| ==> r[k] < n && r[k] != a && TestBit(p, r[k]) == TestBit(q, r[k])
    ensures NoRepeat(r)
    ensures forall j :: 0 <= j < n && j != a && TestBit(p, j) == TestBit(q, j) ==> j in r
  {
    if n == 0 then []
    else AgreeList(p, q, a, n - 1) + (if n - 1 != a && TestBit(p, n - 1) == TestBit(q, n - 1) then [n - 1] else [])
  }

  ghost function Elements(s: seq<nat>): set<nat> {
    set x | x in s
  }

  lemma {:induction false} DistinctCount(s: seq<nat>)
    requires NoRepeat(s)
    ensures |Elements(s)| == |s|
  {
    if |s| > 0 {
      var front, last := s[..|s| - 1], s[|s| - 1];
      DistinctCount(front);
      assert Elements(s) == Elements(front) + {last};
      assert last !in front;
    }
  }

  lemma {:induction false} SubsetCount(s: set<nat>, t: set<nat>)
    requires s <= t
    ensures |s| <= |t|
  {
    assert t == s + (t - s);
    assert |t| == |s| + |t - s|;
  }

  // A list without repeats inside another list is no longer than it.
  lemma {:induction false} Pigeonhole(s: seq<nat>, t: seq<nat>)
    requires NoRepeat(s) && NoRepeat(t) && forall x :: x in s ==> x in t
    ensures |s| <= |t|
  {
    DistinctCount(s);
    DistinctCount(t);
    SubsetCount(Elements(s), Elements(t));
  }

  lemma {:induction false} OneMissing(s: seq<nat>, t: seq<nat>) returns (j: nat)
    requires NoRepeat(s) && NoRepeat(t) && |s| > |t|
    ensures j < |s| && s[j] !in t
  {
    if forall x :: x in s ==> x in t {
      Pigeonhole(s, t);
      assert false;
    }
    var x :| x in s && x !in t;
    j :| 0 <= j < |s| && s[j] == x;
  }

  // ---------------------------------------------------------------- one and two points

  /** One or two different points always get different masks. */
  lemma {:induction false} FewSeparate(codewords: seq<Point>, max: nat, pos: seq<nat>)
    requires |codewords| <= 2 && NoRepeat(codewords) && Outcome(codewords, max, pos)
    ensures Separates(codewords, pos)
  {
    if |codewords| == 2 {
      var p, q := codewords[0], codewords[1];
      PointsDiffer(p, q);
      assert pos[0] == Seed(codewords)[0] == FirstDiff(p, q, 0);
      MaskSeparates(p, q, pos);
    }
  }

  // ---------------------------------------------------------------- three points

  // Of the first two points, the one that agrees with the third where those two first differ.
  function Twin(p: Point, q: Point, c: Point): Point
    requires FirstDiff(p, q, 0) < POINT_BITS
  {
    var a := FirstDiff(p, q, 0);
    if TestBit(p, a) == TestBit(c, a) then p else q
  }

  // Either some position sets the third point apart, or too few positions confuse it with its twin.
  ghost predicate AlwaysSeparated(p: Point, q: Point, c: Point, max: nat)
    requires FirstDiff(p, q, 0) < POINT_BITS
  {
    FirstAlone(p, q, c, 0) < POINT_BITS || |AgreeList(Twin(p, q, c), c, FirstDiff(p, q, 0), POINT_BITS)| < max - 1
  }

  lemma {:induction false} ThreeMasks(codewords: seq<Point>, pos: seq<nat>)
    requires |codewords| == 3 && Positions(pos)
    requires Mask(codewords[0], pos) != Mask(codewords[1], pos) && Mask(codewords[0], pos) != Mask(codewords[2], pos)
    requires Mask(codewords[1], pos) != Mask(codewords[2], pos)
    ensures Separates(codewords, pos)
  {
    var ms := Masks(codewords, pos);
    assert ms[0] != ms[1] && ms[0] != ms[2] && ms[1] != ms[2];
  }

  // Whenever the condition holds, every outcome separates.
  lemma {:induction false} ThreeSeparate(codewords: seq<Point>, max: nat, pos: seq<nat>)
    requires |codewords| == 3 && NoRepeat(codewords) && Outcome(codewords, max, pos)
    requires FirstDiff(codewords[0], codewords[1], 0) < POINT_BITS
    requires AlwaysSeparated(codewords[0], codewords[1], codewords[2], max)
    ensures Separates(codewords, pos)
  {
    var p, q, c := codewords[0], codewords[1], codewords[2];
    var a, s := FirstDiff(p, q, 0), FirstAlone(p, q, c, 0);
    assert Seed(codewords) == [a] + Found(s);
    assert pos[0] == a by { assert pos[0] == Seed(codewords)[0]; }
    MaskSeparates(p, q, pos);
    if s < POINT_BITS {
      assert pos[1] == s by { assert pos[1] == Seed(codewords)[1]; }
      MaskSeparates(p, c, pos);
      MaskSeparates(q, c, pos);
    } else {
      var k := OtherPosition(p, q, c, max, pos);
      MaskSeparates(p, c, pos);
      MaskSeparates(q, c, pos);
    }
    ThreeMasks(codewords, pos);
  }

  // Too few confusing positions: one of the chosen ones tells the third point from its twin.
  lemma {:induction false} OtherPosition(p: Point, q: Point, c: Point, max: nat, pos: seq<nat>) returns (k: nat)
    requires FirstDiff(p, q, 0) < POINT_BITS && |pos| == max && max > 0 && Positions(pos) && NoRepeat(pos)
    requires pos[0] == FirstDiff(p, q, 0)
    requires |AgreeList(Twin(p, q, c), c, FirstDiff(p, q, 0), POINT_BITS)| < max - 1
    ensures k < |pos| && TestBit(Twin(p, q, c), pos[k]) != TestBit(c, pos[k])
  {
    var a, t := FirstDiff(p, q, 0), Twin(p, q, c);
    var agree, rest := AgreeList(t, c, a, POINT_BITS), pos[1..];
    var j := OneMissing(rest, agree);
    k := j + 1;
    assert pos[k] == rest[j] && pos[k] != pos[0];
  }

  // When it does not hold, some outcome leaves two masks equal.
  lemma {:induction false} ThreeConfused(codewords: seq<Point>, max: nat) returns (pos: seq<nat>)
    requires |codewords| == 3 && max >= 2 && FirstDiff(codewords[0], codewords[1], 0) < POINT_BITS
    requires !AlwaysSeparated(codewords[0], codewords[1], codewords[2], max)
    ensures Outcome(codewords, max, pos) && !Separates(codewords, pos)
  {
    var p, q, c := codewords[0], codewords[1], codewords[2];
    var a, t := FirstDiff(p, q, 0), Twin(p, q, c);
    var agree := AgreeList(t, c, a, POINT_BITS);
    pos := [a] + agree[..max - 1];
    assert Seed(codewords) == [a];
    assert Outcome(codewords, max, pos);
    forall k | 0 <= k < |pos|
      ensures TestBit(t, pos[k]) == TestBit(c, pos[k])
    {
      if k > 0 {
        assert pos[k] == agree[k - 1];
      }
    }
    MaskSeparates(t, c, pos);
    var ms := Masks(codewords, pos);
    assert ms[if t == p then 0 else 1] == ms[2];
  }

  /** Three different points: every search ends with usable masks if and only if the condition holds. */
  lemma {:induction false} ThreeSeparateIff(codewords: seq<Point>, max: nat)
    requires |codewords| == 3 && NoRepeat(codewords) && max >= 2
    ensures FirstDiff(codewords[0], codewords[1], 0) < POINT_BITS
    ensures (forall pos :: Outcome(codewords, max, pos) ==> Separates(codewords, pos))
       <==> AlwaysSeparated(codewords[0], codewords[1], codewords[2], max)
  {
    PointsDiffer(codewords[0], codewords[1]);
    if AlwaysSeparated(codewords[0], codewords[1], codewords[2], max) {
      forall pos | Outcome(codewords, max, pos)
        ensures Separates(codewords, pos)
      {
        ThreeSeparate(codewords, max, pos);
      }
    } else {
      var pos := ThreeConfused(codewords, max);
    }
  }

  // ---------------------------------------------------------------- three points that can be confused

  // A point whose first byte is v and whose other bytes are zero.
  function SmallPoint(v: Byte): (p: Point)
    ensures p[0] == v && forall i :: 1 <= i < 32 ==> p[i] == 0
  {
    [v, 0, 0, 0, 0, 0, 0, 0, 0, 0, 0, 0, 0, 0, 0, 0, 0, 0, 0, 0, 0, 0, 0, 0, 0, 0, 0, 0, 0, 0, 0, 0]
  }

  lemma {:induction false} SmallByte(v: nat, b: nat)
    requires v == 0 || v == 1 || v == 3
    ensures BitAt(v, b) <==> (b == 0 && v != 0) || (b == 1 && v == 3)
  {
    assert Pow(2, 0) == 1 && Pow(2, 1) == 2 * Pow(2, 0) && Pow(2, 2) == 2 * Pow(2, 1);
    if b >= 2 {
      PowPositive(2, b - 2);
      PowAdd(2, 2, b - 2);
      ModUnique(v, Pow(2, b), 0, v);
    }
  }

  lemma {:induction false} SmallBits(v: Byte, k: nat)
    requires k < POINT_BITS && (v == 0 || v == 1 || v == 3)
    ensures TestBit(SmallPoint(v), k) <==> (k == 0 && v != 0) || (k == 1 && v == 3)
  {
    SmallByte(if k < 8 then v else 0, k % 8);
  }

  // The first point has no bits, the second the lowest two, the third the lowest.
  ghost predicate Confusable(p: Point, q: Point, c: Point) {
    forall k :: 0 <= k < POINT_BITS ==> BitsAt(p, q, c, k)
  }

  ghost predicate BitsAt(p: Point, q: Point, c: Point, k: nat)
    requires k < POINT_BITS
  {
    !TestBit(p, k) && TestBit(q, k) == (k < 2) && TestBit(c, k) == (k == 0)
  }

  // The third point never stands alone.
  lemma {:induction false} NeverAlone(p: Point, q: Point, c: Point, j: nat)
    requires Confusable(p, q, c) && j <= POINT_BITS
    ensures FirstAlone(p, q, c, j) == POINT_BITS
    decreases POINT_BITS - j
  {
    if j < POINT_BITS {
      assert BitsAt(p, q, c, j);
      NeverAlone(p, q, c, j + 1);
    }
  }

  // It agrees with the second everywhere but at position 1.
  lemma {:induction false} ManyAgree(p: Point, q: Point, c: Point, agree: seq<nat>)
    requires Confusable(p, q, c) && agree == AgreeList(q, c, 0, POINT_BITS)
    ensures |agree| >= POINT_BITS - 2
  {
    var rest := seq(POINT_BITS - 2, i requires 0 <= i < POINT_BITS - 2 => i + 2);
    forall x | x in rest
      ensures x in agree
    {
      assert BitsAt(p, q, c, x);
    }
    Pigeonhole(rest, agree);
  }

  lemma {:induction false} FirstBits(p: Point, q: Point, c: Point)
    requires Confusable(p, q, c)
    ensures FirstDiff(p, q, 0) == 0 && Twin(p, q, c) == q
  {
    assert BitsAt(p, q, c, 0);
  }

  lemma {:induction false} ConfusableEnds(p: Point, q: Point, c: Point, max: nat, codewords: seq<Point>)
    returns (pos: seq<nat>, raw: seq<nat>)
    requires Confusable(p, q, c) && 2 <= max <= 255 && codewords == [p, q, c]
    ensures Outcome(codewords, max, pos) && !Separates(codewords, pos) && Positioned(codewords, max, raw) == Some(pos)
  {
    FirstBits(p, q, c);
    NeverAlone(p, q, c, 0);
    ManyAgree(p, q, c, AgreeList(q, c, 0, POINT_BITS));
    pos := ThreeConfused(codewords, max);
    raw := SeedRemoved(codewords, max, pos);
  }

  // The words that lead to a given outcome.
  lemma {:induction false} SeedRemoved(codewords: seq<Point>, max: nat, pos: seq<nat>) returns (raw: seq<nat>)
    requires 1 <= |codewords| <= 3 && max > 0 && Outcome(codewords, max, pos)
    ensures Positioned(codewords, max, raw) == Some(pos)
  {
    var seed := Seed(codewords);
    raw := pos[|seed|..];
    assert pos == seed + raw;
    OutcomeEnds(codewords, raw, max);
  }

  /** Concrete points the search can confuse: for up to 255 positions there are random words with which
      it ends at positions where two of the three have the same mask. */
  lemma {:induction false} ThreeCollide(max: nat, codewords: seq<Point>) returns (pos: seq<nat>, raw: seq<nat>)
    requires 2 <= max <= 255 && codewords == [SmallPoint(0), SmallPoint(3), SmallPoint(1)]
    ensures NoRepeat(codewords) && Outcome(codewords, max, pos) && !Separates(codewords, pos)
    ensures Positioned(codewords, max, raw) == Some(pos)
  {
    var p, q, c := codewords[0], codewords[1], codewords[2];
    forall k | 0 <= k < POINT_BITS
      ensures BitsAt(p, q, c, k)
    {
      SmallBits(0, k);
      SmallBits(3, k);
      SmallBits(1, k);
    }
    assert p[0] == 0 && q[0] == 3 && c[0] == 1 && codewords == [p, q, c];
    pos, raw := ConfusableEnds(p, q, c, max, codewords);
  }
}
