/**
 What the position search can end with, said without the search: for which positions there are words
 that lead to them, which draws it passes over, and when it starts again.
 */
module PositionSearch {
  import opened NumberTheory
  import opened Bits
  import opened BitPositions
  import opened BitSeparation

  // ---------------------------------------------------------------- bits of a point

  // The number whose bytes these are, lowest first.
  function LittleEndian(bytes: seq<Byte>): nat {
    if |bytes| == 0 then 0 else bytes[0] + 256 * LittleEndian(bytes[1..])
  }

  lemma {:induction false} FirstByte(low: nat, rest: nat, n: nat)
    requires low < 256
    ensures BitAt(low + 256 * rest, n) == if n < 8 then BitAt(low, n) else BitAt(rest, n - 8)
  {
    EighthPower();
    PowPositive(2, n);
    var v := low + 256 * rest;
    if n < 8 {
      PowAdd(2, n, 8 - n);
      var p, f, h := Pow(2, n), Pow(2, 8 - n), Pow(2, 7 - n);
      Assoc(p, f, rest);
      Assoc(2, h, rest);
      AddedHigher(low, v, p, f * rest, h * rest);
    } else {
      PowPositive(2, n - 8);
      PowAdd(2, 8, n - 8);
      DivMul(v, 256, Pow(2, n - 8));
      ModUnique(v, 256, rest, low);
    }
  }

  lemma {:induction false} ByteBit(bytes: seq<Byte>, n: nat)
    requires n < 8 * |bytes|
    ensures BitAt(LittleEndian(bytes), n) == BitAt(bytes[n / 8], n % 8)
  {
    FirstByte(bytes[0], LittleEndian(bytes[1..]), n);
    if n >= 8 {
      ByteBit(bytes[1..], n - 8);
    }
  }

  /** Bit n of a point is the binary digit of weight 2^n of its bytes read lowest first. */
  lemma {:induction false} TestBitIs(p: Point, n: nat)
    requires n < POINT_BITS
    ensures Pow(2, n) > 0 && (TestBit(p, n) <==> LittleEndian(p) / Pow(2, n) % 2 == 1)
  {
    PowPositive(2, n);
    ByteBit(p, n);
  }

  // ---------------------------------------------------------------- what the search ends with

  ghost predicate TwoDiffer(codewords: seq<Point>, j: nat)
    requires j < POINT_BITS
  {
    exists c1, c2 :: 0 <= c1 < |codewords| && 0 <= c2 < |codewords| && TestBit(codewords[c1], j) != TestBit(codewords[c2], j)
  }

  // Two of the points differ at each of the positions.
  ghost predicate Telling(codewords: seq<Point>, pos: seq<nat>) {
    Positions(pos) && forall k :: 0 <= k < |pos| ==> TwoDiffer(codewords, pos[k])
  }

  lemma {:induction false} AttemptTells(codewords: seq<Point>, pos: seq<nat>, max: nat, raw: seq<nat>, from: nat)
    requires 0 < |codewords| <= U64_MAX && from <= |raw| && |pos| <= max && NoRepeat(pos) && Telling(codewords, pos)
    ensures var s := Attempt(codewords, pos, max, raw, from);
      s.done ==> |s.pos| == max && NoRepeat(s.pos) && Telling(codewords, s.pos)
    decreases |raw| - from
  {
    if |pos| < max {
      var j := Chosen(raw, from, POINT_BITS);
      var c1 := Chosen(raw, j.next, |codewords|);
      var c2 := Chosen(raw, c1.next, |codewords|);
      if j.value.Some? && c1.value.Some? && c2.value.Some? {
        if Useful(codewords, pos, j.value.value, c1.value.value, c2.value.value) {
          AttemptTells(codewords, pos + [j.value.value], max, raw, c2.next);
        } else {
          AttemptTells(codewords, pos, max, raw, c2.next);
        }
      }
    }
  }

  lemma {:induction false} SearchTells(codewords: seq<Point>, max: nat, raw: seq<nat>, from: nat)
    requires 0 < |codewords| <= U64_MAX && max > 0 && from <= |raw|
    ensures var s := Searched(codewords, max, raw, from);
      s.done ==> |s.pos| == max && NoRepeat(s.pos) && Telling(codewords, s.pos) && Separates(codewords, s.pos)
    decreases |raw| - from
  {
    AttemptTells(codewords, [], max, raw, from);
    var t := Attempt(codewords, [], max, raw, from);
    if t.done && !Separates(codewords, t.pos) {
      SearchTells(codewords, max, raw, t.next);
    }
  }

  lemma {:induction false} FilledUp(pos: seq<nat>, max: nat, raw: seq<nat>, from: nat)
    requires from <= |raw| && |pos| <= max && Positions(pos) && NoRepeat(pos)
    ensures var s := Filled(pos, max, raw, from);
      s.done ==> |s.pos| == max && Positions(s.pos) && NoRepeat(s.pos) && pos <= s.pos
    decreases |raw| - from
  {
    if |pos| < max {
      var d := Chosen(raw, from, POINT_BITS);
      if d.value.Some? {
        FilledUp(if d.value.value in pos then pos else pos + [d.value.value], max, raw, d.next);
      }
    }
  }

  // Words that spell the positions.
  lemma {:induction false} Spelling(codewords: seq<Point>, pos: seq<nat>) returns (raw: seq<nat>)
    requires NoRepeat(pos) && Telling(codewords, pos)
    ensures Spells(codewords, pos, raw)
  {
    if |pos| == 0 {
      raw := [];
    } else {
      var n := |pos| - 1;
      var front := pos[..n];
      assert Telling(codewords, front) by {
        assert forall k :: 0 <= k < n ==> front[k] == pos[k];
      }
      var before := Spelling(codewords, front);
      var c1, c2 :| 0 <= c1 < |codewords| && 0 <= c2 < |codewords| && TestBit(codewords[c1], pos[n]) != TestBit(codewords[c2], pos[n]);
      raw := before + [pos[n], c1, c2];
      forall k | 0 <= k < |pos|
        ensures raw[3 * k] == pos[k] && Distinguishes(codewords, pos[k], raw[3 * k + 1], raw[3 * k + 2])
      {
        if k < n {
          assert before[3 * k] == front[k] && Distinguishes(codewords, front[k], before[3 * k + 1], before[3 * k + 2]);
        }
      }
    }
  }

  /** Up to three points: for some words the search ends with `pos` if and only if these are `max`
      different positions that start with the deliberate ones. */
  lemma {:induction false} FewEndsIff(codewords: seq<Point>, max: nat, pos: seq<nat>)
    requires 1 <= |codewords| <= 3 && max >= 2
    ensures (exists raw :: Positioned(codewords, max, raw) == Some(pos))
       <==> |pos| == max && NoRepeat(pos) && Positions(pos) && Seed(codewords) <= pos
  {
    if raw :| Positioned(codewords, max, raw) == Some(pos) {
      FilledUp(Seed(codewords), max, raw, 0);
    }
    if Outcome(codewords, max, pos) {
      var raw := SeedRemoved(codewords, max, pos);
    }
  }

  lemma {:induction false} ManyEnds(codewords: seq<Point>, max: nat, pos: seq<nat>)
    requires 4 <= |codewords| <= U64_MAX && max >= 2
    ensures (exists raw :: Positioned(codewords, max, raw) == Some(pos))
       <==> |pos| == max && NoRepeat(pos) && Telling(codewords, pos) && Separates(codewords, pos)
  {
    if raw :| Positioned(codewords, max, raw) == Some(pos) {
      SearchTells(codewords, max, raw, 0);
    }
    if |pos| == max && NoRepeat(pos) && Telling(codewords, pos) && Separates(codewords, pos) {
      var raw := Spelling(codewords, pos);
      SpelledEnds(codewords, pos, raw);
    }
  }

  /** From four points on: for some words the search ends with `pos` if and only if these are `max` different
      positions, each telling two of the points apart, with which no two points have the same mask. */
  lemma {:induction false} ManyEndsIff(codewords: seq<Point>, max: nat, pos: seq<nat>)
    requires 4 <= |codewords| <= U64_MAX && max >= 2
    ensures (exists raw :: Positioned(codewords, max, raw) == Some(pos)) <==>
      && |pos| == max && NoRepeat(pos) && Positions(pos)
      && (forall k :: 0 <= k < |pos| ==>
            exists c1, c2 :: 0 <= c1 < |codewords| && 0 <= c2 < |codewords| && TestBit(codewords[c1], pos[k]) != TestBit(codewords[c2], pos[k]))
      && (forall i, j :: 0 <= i < j < |codewords| ==> Mask(codewords[i], pos) != Mask(codewords[j], pos))
  {
    ManyEnds(codewords, max, pos);
    if Positions(pos) {
      SeparatesIs(codewords, pos);
      TellingIs(codewords, pos);
    }
  }

  lemma {:induction false} TellingIs(codewords: seq<Point>, pos: seq<nat>)
    requires Positions(pos)
    ensures Telling(codewords, pos) <==>
      (forall k :: 0 <= k < |pos| ==>
        (exists c1, c2 :: 0 <= c1 < |codewords| && 0 <= c2 < |codewords| && TestBit(codewords[c1], pos[k]) != TestBit(codewords[c2], pos[k])))
  {
    forall k | 0 <= k < |pos|
      ensures TwoDiffer(codewords, pos[k]) <==>
        (exists c1, c2 :: 0 <= c1 < |codewords| && 0 <= c2 < |codewords| && TestBit(codewords[c1], pos[k]) != TestBit(codewords[c2], pos[k]))
    {
    }
    assert Telling(codewords, pos) <==> forall k :: 0 <= k < |pos| ==> TwoDiffer(codewords, pos[k]);
  }

  lemma {:induction false} SeparatesIs(codewords: seq<Point>, pos: seq<nat>)
    requires Positions(pos)
    ensures Separates(codewords, pos) <==> forall i, j :: 0 <= i < j < |codewords| ==> Mask(codewords[i], pos) != Mask(codewords[j], pos)
  {
    var ms := Masks(codewords, pos);
    if Separates(codewords, pos) {
      forall i, j | 0 <= i < j < |codewords|
        ensures Mask(codewords[i], pos) != Mask(codewords[j], pos)
      {
        assert ms[i] != ms[j];
      }
    }
  }

  // ---------------------------------------------------------------- words further back in the stream

  // The same words, n places further back.
  ghost predicate Back(all: seq<nat>, n: nat, raw: seq<nat>) {
    |all| == n + |raw| && forall i :: 0 <= i < |raw| ==> all[n + i] == raw[i]
  }

  ghost predicate SameSearch(s: Search, t: Search, n: nat) {
    s.done == t.done && s.pos == t.pos && s.next == n + t.next
  }

  lemma {:induction false} ChosenLater(all: seq<nat>, n: nat, raw: seq<nat>, from: nat, at: nat, limit: nat)
    requires 0 < limit <= U64_MAX && from <= |raw| && Back(all, n, raw) && at == n + from
    ensures Chosen(all, at, limit).value == Chosen(raw, from, limit).value
    ensures Chosen(all, at, limit).next == n + Chosen(raw, from, limit).next
    decreases |raw| - from
  {
    if from < |raw| {
      assert all[at] == raw[from];
      if raw[from] >= Cutoff(limit) {
        ChosenLater(all, n, raw, from + 1, at + 1, limit);
      }
    }
  }

  // One draw of an attempt, as an equation over the places the words are read from.
  lemma {:induction false} AttemptNext(codewords: seq<Point>, pos: seq<nat>, max: nat, raw: seq<nat>, from: nat, j: Draw, c1: Draw, c2: Draw)
    returns (more: bool, grown: seq<nat>)
    requires 0 < |codewords| <= U64_MAX && from <= |raw| && |pos| < max && j == Chosen(raw, from, POINT_BITS)
    requires c1 == Chosen(raw, j.next, |codewords|) && c2 == Chosen(raw, c1.next, |codewords|)
    ensures more <==> j.value.Some? && c1.value.Some? && c2.value.Some?
    ensures !more ==> Attempt(codewords, pos, max, raw, from) == Search(false, pos, c2.next)
    ensures more ==> Attempt(codewords, pos, max, raw, from) == Attempt(codewords, grown, max, raw, c2.next)
    ensures grown == if more && Useful(codewords, pos, j.value.value, c1.value.value, c2.value.value) then pos + [j.value.value] else pos
  {
    more := j.value.Some? && c1.value.Some? && c2.value.Some?;
    grown := if more && Useful(codewords, pos, j.value.value, c1.value.value, c2.value.value) then pos + [j.value.value] else pos;
  }

  lemma {:induction false} AttemptLater(codewords: seq<Point>, pos: seq<nat>, max: nat, all: seq<nat>, n: nat, raw: seq<nat>, from: nat, at: nat)
    requires 0 < |codewords| <= U64_MAX && from <= |raw| && Back(all, n, raw) && at == n + from
    ensures SameSearch(Attempt(codewords, pos, max, all, at), Attempt(codewords, pos, max, raw, from), n)
    decreases |raw| - from
  {
    if |pos| < max {
      var j := Chosen(raw, from, POINT_BITS);
      var c1 := Chosen(raw, j.next, |codewords|);
      var c2 := Chosen(raw, c1.next, |codewords|);
      ChosenLater(all, n, raw, from, at, POINT_BITS);
      ChosenLater(all, n, raw, j.next, n + j.next, |codewords|);
      ChosenLater(all, n, raw, c1.next, n + c1.next, |codewords|);
      var more, grown := AttemptNext(codewords, pos, max, raw, from, j, c1, c2);
      var next := n + c2.next;
      var more', grown' := AttemptNext(codewords, pos, max, all, at, Draw(j.value, n + j.next), Draw(c1.value, n + c1.next), Draw(c2.value, next));
      if more {
        AttemptLater(codewords, grown, max, all, n, raw, c2.next, next);
      }
    }
  }

  lemma {:induction false} SearchedNext(codewords: seq<Point>, max: nat, raw: seq<nat>, from: nat, t: Search) returns (again: bool)
    requires 0 < |codewords| <= U64_MAX && max > 0 && from <= |raw| && t == Attempt(codewords, [], max, raw, from)
    ensures again <==> t.done && !Separates(codewords, t.pos)
    ensures Searched(codewords, max, raw, from) == if again then Searched(codewords, max, raw, t.next) else t
  {
    again := t.done && !Separates(codewords, t.pos);
  }

  lemma {:induction false} SearchedLater(codewords: seq<Point>, max: nat, all: seq<nat>, n: nat, raw: seq<nat>, from: nat, at: nat)
    requires 0 < |codewords| <= U64_MAX && max > 0 && from <= |raw| && Back(all, n, raw) && at == n + from
    ensures SameSearch(Searched(codewords, max, all, at), Searched(codewords, max, raw, from), n)
    decreases |raw| - from
  {
    AttemptLater(codewords, [], max, all, n, raw, from, at);
    var t := Attempt(codewords, [], max, raw, from);
    var next := n + t.next;
    var again := SearchedNext(codewords, max, raw, from, t);
    var again' := SearchedNext(codewords, max, all, at, Search(t.done, t.pos, next));
    if again {
      SearchedLater(codewords, max, all, n, raw, t.next, next);
    }
  }

  // Three words whose position is of no use.
  lemma {:induction false} DrawPassed(codewords: seq<Point>, max: nat, all: seq<nat>)
    requires 0 < |codewords| <= U64_MAX && max > 0 && |all| >= 3
    requires all[0] < POINT_BITS && all[1] < |codewords| && all[2] < |codewords|
    requires TestBit(codewords[all[1]], all[0]) == TestBit(codewords[all[2]], all[0])
    ensures Attempt(codewords, [], max, all, 0) == Attempt(codewords, [], max, all, 3)
  {
    SmallWord(all, 0, POINT_BITS);
    SmallWord(all, 1, |codewords|);
    SmallWord(all, 2, |codewords|);
  }

  lemma {:induction false} SearchOver(codewords: seq<Point>, max: nat, all: seq<nat>, from: nat)
    requires 0 < |codewords| <= U64_MAX && max > 0 && from <= |all|
    requires Attempt(codewords, [], max, all, 0) == Attempt(codewords, [], max, all, from)
    ensures Searched(codewords, max, all, 0) == Searched(codewords, max, all, from)
  {
  }

  /** A draw of a position at which the two drawn points agree is passed over. */
  lemma {:induction false} UselessDraw(codewords: seq<Point>, max: nat, j: nat, c1: nat, c2: nat, raw: seq<nat>, all: seq<nat>)
    requires 4 <= |codewords| <= U64_MAX && max > 0 && j < POINT_BITS && c1 < |codewords| && c2 < |codewords|
    requires TestBit(codewords[c1], j) == TestBit(codewords[c2], j) && all == [j, c1, c2] + raw
    ensures Positioned(codewords, max, all) == Positioned(codewords, max, raw)
  {
    DrawPassed(codewords, max, all);
    SearchOver(codewords, max, all, 3);
    SearchedLater(codewords, max, all, 3, raw, 0, 3);
  }

  lemma {:induction false} SpelledWords(codewords: seq<Point>, pos: seq<nat>, spelled: seq<nat>, all: seq<nat>, k: nat, from: nat)
    requires Spells(codewords, pos, spelled) && spelled <= all && k < |pos| && from == 3 * k
    ensures from + 3 <= |all| && all[from] == pos[k] && Distinguishes(codewords, all[from], all[from + 1], all[from + 2])
  {
    assert spelled[3 * k] == pos[k] && Distinguishes(codewords, pos[k], spelled[3 * k + 1], spelled[3 * k + 2]);
    assert all[from] == spelled[from] && all[from + 1] == spelled[from + 1] && all[from + 2] == spelled[from + 2];
  }

  // The spelled positions are found whatever follows.
  lemma {:induction false} SpelledFirst(codewords: seq<Point>, pos: seq<nat>, spelled: seq<nat>, all: seq<nat>, k: nat, front: seq<nat>, from: nat)
    requires 0 < |codewords| <= U64_MAX && Spells(codewords, pos, spelled) && spelled <= all
    requires k <= |pos| && front == pos[..k] && from == 3 * k
    ensures Attempt(codewords, front, |pos|, all, from) == Search(true, pos, |spelled|)
    decreases |pos| - k
  {
    if k < |pos| {
      NewPosition(pos, k);
      SpelledWords(codewords, pos, spelled, all, k, from);
      SpelledDraw(codewords, front, |pos|, all, from);
      var more := pos[..k + 1];
      SpelledFirst(codewords, pos, spelled, all, k + 1, more, from + 3);
    }
  }

  lemma {:induction false} FailedAttempt(codewords: seq<Point>, pos: seq<nat>, all: seq<nat>, n: nat)
    requires 0 < |codewords| <= U64_MAX && |pos| > 0 && 0 < n <= |all| && Positions(pos) && !Separates(codewords, pos)
    requires Attempt(codewords, [], |pos|, all, 0) == Search(true, pos, n)
    ensures Searched(codewords, |pos|, all, 0) == Searched(codewords, |pos|, all, n)
  {
  }

  /** Positions that leave two masks equal are given up, and the search starts again with the next words. */
  lemma {:induction false} SearchRestarts(codewords: seq<Point>, pos: seq<nat>, spelled: seq<nat>, raw: seq<nat>, all: seq<nat>)
    requires 4 <= |codewords| <= U64_MAX && |pos| > 0 && Spells(codewords, pos, spelled) && !NoRepeat(Masks(codewords, pos))
    requires all == spelled + raw
    ensures Positioned(codewords, |pos|, all) == Positioned(codewords, |pos|, raw)
  {
    var n := |spelled|;
    SpelledFirst(codewords, pos, spelled, all, 0, [], 0);
    FailedAttempt(codewords, pos, all, n);
    SearchedLater(codewords, |pos|, all, n, raw, 0, n);
  }
}
