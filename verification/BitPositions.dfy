/**
 Bit positions of XZH26: a bin's sender looks for positions at which all its 32-byte points differ,
 so that the bits there, read as a number, give every point a table slot of its own.
 Random words come from a finite stream; a search that has not ended when the stream does reports it.
 */
module BitPositions {
  import opened NumberTheory
  import opened Bits

  const POINT_BITS: nat := 256
  const U64_MAX: nat := 0xFFFF_FFFF_FFFF_FFFF

  type Byte = b: nat | b < 256
  type Point = p: seq<Byte> | |p| == 32 witness seq(32, _ => 0)

  // TestBitN: bit n of the point, lowest bit of the first byte first.
  function TestBit(p: Point, n: nat): bool
    requires n < POINT_BITS
  {
    BitAt(p[n / 8], n % 8)
  }

  predicate Positions(pos: seq<nat>) {
    forall k :: 0 <= k < |pos| ==> pos[k] < POINT_BITS
  }

  predicate NoRepeat<T(==)>(s: seq<T>) {
    forall i, j :: 0 <= i < j < |s| ==> s[i] != s[j]
  }

  // The bits of p at the positions, the first one lowest.
  function Mask(p: Point, pos: seq<nat>): nat
    requires Positions(pos)
  {
    if |pos| == 0 then 0
    else
      var k := |pos| - 1;
      var m := Mask(p, pos[..k]);
      if TestBit(p, pos[k]) then OrBit(m, k) else m
  }

  /** A mask is a number below 2^|pos| whose bit k is the point's bit at position k. */
  lemma {:induction false} MaskBits(p: Point, pos: seq<nat>)
    requires Positions(pos)
    ensures Mask(p, pos) < Pow(2, |pos|)
    ensures forall k :: 0 <= k < |pos| ==> (BitAt(Mask(p, pos), k) <==> TestBit(p, pos[k]))
  {
    if |pos| > 0 {
      var n := |pos| - 1;
      var m := Mask(p, pos[..n]);
      MaskBits(p, pos[..n]);
      OrBitBelow(m, n);
      HighBitsClear(m, n, n);
      forall k | 0 <= k < |pos|
        ensures BitAt(Mask(p, pos), k) <==> TestBit(p, pos[k])
      {
        OrBitSets(m, n, k);
        if k < n {
          assert pos[..n][k] == pos[k];
        }
      }
    }
  }

  /** Masks tell two points apart exactly when some chosen position does. */
  lemma {:induction false} MaskSeparates(p: Point, q: Point, pos: seq<nat>)
    requires Positions(pos)
    ensures Mask(p, pos) != Mask(q, pos) <==> exists k :: 0 <= k < |pos| && TestBit(p, pos[k]) != TestBit(q, pos[k])
  {
    if k :| 0 <= k < |pos| && TestBit(p, pos[k]) != TestBit(q, pos[k]) {
      MaskBits(p, pos);
      MaskBits(q, pos);
    } else {
      SameMask(p, q, pos);
    }
  }

  lemma {:induction false} SameMask(p: Point, q: Point, pos: seq<nat>)
    requires Positions(pos) && forall k :: 0 <= k < |pos| ==> TestBit(p, pos[k]) == TestBit(q, pos[k])
    ensures Mask(p, pos) == Mask(q, pos)
  {
    if |pos| > 0 {
      SameMask(p, q, pos[..|pos| - 1]);
    }
  }

  function Masks(codewords: seq<Point>, pos: seq<nat>): (r: seq<nat>)
    requires Positions(pos)
    ensures |r| == |codewords|
  {
    seq(|codewords|, i requires 0 <= i < |codewords| => Mask(codewords[i], pos))
  }

  // All points of the bin get different masks.
  ghost predicate Separates(codewords: seq<Point>, pos: seq<nat>)
    requires Positions(pos)
  {
    NoRepeat(Masks(codewords, pos))
  }

  // ---------------------------------------------------------------- random words

  // chooseIndex: skip words at or above the largest multiple of limit, reduce the next one.
  function Cutoff(limit: nat): nat
    requires 0 < limit <= U64_MAX
  {
    U64_MAX - U64_MAX % limit
  }

  // What a draw takes from the words at `from` on, and where the next draw goes on.
  datatype Draw = Draw(value: Option<nat>, next: nat)

  function Chosen(raw: seq<nat>, from: nat, limit: nat): (d: Draw)
    requires 0 < limit <= U64_MAX && from <= |raw|
    ensures from <= d.next <= |raw| && (d.value.Some? ==> from < d.next && d.value.value < limit)
    decreases |raw| - from
  {
    if from == |raw| then Draw(None, from)
    else if raw[from] < Cutoff(limit) then Draw(Some(raw[from] % limit), from + 1)
    else Chosen(raw, from + 1, limit)
  }

  method ChooseIndex(raw: seq<nat>, from: nat, limit: nat) returns (r: Option<nat>, next: nat)
    requires 0 < limit <= U64_MAX && from <= |raw|
    ensures Draw(r, next) == Chosen(raw, from, limit)
    ensures from <= next <= |raw|
    ensures r.None? ==> next == |raw| && forall k :: from <= k < |raw| ==> raw[k] >= Cutoff(limit)
    ensures r.Some? ==> from < next && raw[next - 1] < Cutoff(limit) && r.value == raw[next - 1] % limit < limit
    ensures r.Some? ==> forall k :: from <= k < next - 1 ==> raw[k] >= Cutoff(limit)
  {
    next := from;
    while next < |raw|
      invariant from <= next <= |raw| && Chosen(raw, next, limit) == Chosen(raw, from, limit)
      invariant forall k :: from <= k < next ==> raw[k] >= Cutoff(limit)
    {
      next := next + 1;
      if raw[next - 1] < Cutoff(limit) {
        return Some(raw[next - 1] % limit), next;
      }
    }
    r := None;
  }

  /** The words that are kept are a whole number of rounds over the range, so no index is favoured. */
  lemma {:induction false} ChooseIndexFair(limit: nat)
    requires 0 < limit <= U64_MAX
    ensures Cutoff(limit) % limit == 0 && U64_MAX - limit < Cutoff(limit) <= U64_MAX
  {
    ModUnique(Cutoff(limit), limit, U64_MAX / limit, 0);
  }

  // ---------------------------------------------------------------- deliberate positions

  // The first position from j on where two points differ, or POINT_BITS.
  function FirstDiff(p: Point, q: Point, j: nat): (r: nat)
    requires j <= POINT_BITS
    ensures j <= r <= POINT_BITS && (forall k :: j <= k < r ==> TestBit(p, k) == TestBit(q, k))
    ensures r < POINT_BITS ==> TestBit(p, r) != TestBit(q, r)
    decreases POINT_BITS - j
  {
    if j == POINT_BITS || TestBit(p, j) != TestBit(q, j) then j else FirstDiff(p, q, j + 1)
  }

  // The third point stands alone at position j.
  predicate Alone(p: Point, q: Point, c: Point, j: nat)
    requires j < POINT_BITS
  {
    TestBit(p, j) != TestBit(c, j) && TestBit(p, j) == TestBit(q, j)
  }

  // The first such position from j on, or POINT_BITS.
  function FirstAlone(p: Point, q: Point, c: Point, j: nat): (r: nat)
    requires j <= POINT_BITS
    ensures j <= r <= POINT_BITS && (forall k :: j <= k < r ==> !Alone(p, q, c, k))
    ensures r < POINT_BITS ==> Alone(p, q, c, r)
    decreases POINT_BITS - j
  {
    if j == POINT_BITS || Alone(p, q, c, j) then j else FirstAlone(p, q, c, j + 1)
  }

  // One position of the scan; a position where the third point stands alone is never the first one.
  lemma {:induction false} AloneStep(p: Point, q: Point, c: Point, j: nat)
    requires j < POINT_BITS
    ensures FirstAlone(p, q, c, j) == if Alone(p, q, c, j) then j else FirstAlone(p, q, c, j + 1)
    ensures Alone(p, q, c, j) ==> j !in Found(FirstDiff(p, q, 0))
  {
  }

  function Found(j: nat): seq<nat> {
    if j < POINT_BITS then [j] else []
  }

  // What getPos1 picks for one, two or three points before it fills up at random.
  function Seed(codewords: seq<Point>): (pos: seq<nat>)
    requires 1 <= |codewords| <= 3
    ensures Positions(pos) && NoRepeat(pos) && |pos| <= 2
  {
    if |codewords| == 1 then []
    else if |codewords| == 2 then Found(FirstDiff(codewords[0], codewords[1], 0))
    else Found(FirstDiff(codewords[0], codewords[1], 0)) + Found(FirstAlone(codewords[0], codewords[1], codewords[2], 0))
  }

  // The position lists the search for one, two or three points can end with.
  ghost predicate Outcome(codewords: seq<Point>, max: nat, pos: seq<nat>) {
    1 <= |codewords| <= 3 && |pos| == max && Positions(pos) && NoRepeat(pos) && Seed(codewords) <= pos
  }

  // ---------------------------------------------------------------- what the search computes

  // Where a search stands: whether it ended, its positions, and the next word.
  datatype Search = Search(done: bool, pos: seq<nat>, next: nat)

  // getRandPos: different random positions until there are `max`.
  function Filled(pos: seq<nat>, max: nat, raw: seq<nat>, from: nat): Search
    requires from <= |raw|
    decreases |raw| - from
  {
    if |pos| >= max then Search(true, pos, from)
    else
      var d := Chosen(raw, from, POINT_BITS);
      if d.value.None? then Search(false, pos, d.next)
      else Filled(if d.value.value in pos then pos else pos + [d.value.value], max, raw, d.next)
  }

  // Position j is new and two of the points differ there.
  predicate Useful(codewords: seq<Point>, pos: seq<nat>, j: nat, c1: nat, c2: nat)
    requires j < POINT_BITS && c1 < |codewords| && c2 < |codewords|
  {
    c1 != c2 && TestBit(codewords[c1], j) != TestBit(codewords[c2], j) && j !in pos
  }

  // One attempt for four points or more: a position and two points per draw.
  function Attempt(codewords: seq<Point>, pos: seq<nat>, max: nat, raw: seq<nat>, from: nat): (s: Search)
    requires 0 < |codewords| <= U64_MAX && from <= |raw|
    ensures from <= s.next <= |raw| && (s.done && |pos| < max ==> from < s.next)
    ensures Positions(pos) ==> Positions(s.pos)
    decreases |raw| - from
  {
    if |pos| >= max then Search(true, pos, from)
    else
      var j := Chosen(raw, from, POINT_BITS);
      var c1 := Chosen(raw, j.next, |codewords|);
      var c2 := Chosen(raw, c1.next, |codewords|);
      if j.value.None? || c1.value.None? || c2.value.None? then Search(false, pos, c2.next)
      else if Useful(codewords, pos, j.value.value, c1.value.value, c2.value.value)
      then Attempt(codewords, pos + [j.value.value], max, raw, c2.next)
      else Attempt(codewords, pos, max, raw, c2.next)
  }

  // Attempts until the masks differ.
  ghost function Searched(codewords: seq<Point>, max: nat, raw: seq<nat>, from: nat): Search
    requires 0 < |codewords| <= U64_MAX && max > 0 && from <= |raw|
    decreases |raw| - from
  {
    var t := Attempt(codewords, [], max, raw, from);
    if !t.done || Separates(codewords, t.pos) then t else Searched(codewords, max, raw, t.next)
  }

  // getPos1: the positions it ends with, or the end of the words.
  ghost function Positioned(codewords: seq<Point>, max: nat, raw: seq<nat>): Option<seq<nat>>
    requires 1 <= |codewords| <= U64_MAX && max > 0
  {
    var s := if |codewords| <= 3 then Filled(Seed(codewords), max, raw, 0) else Searched(codewords, max, raw, 0);
    if s.done then Some(s.pos) else None
  }

  // ---------------------------------------------------------------- the search

  class BitPosition {
    var mMaxBitSize: nat
    var mPos: seq<nat>
    var mMaps: seq<nat>

    constructor (numMaxBitSize: nat)
      ensures mMaxBitSize == numMaxBitSize && mPos == [] && mMaps == []
    {
      mMaxBitSize := numMaxBitSize;
      mPos := [];
      mMaps := [];
    }

    // getMask
    method GetMask(codeword: Point) returns (mask: nat)
      requires Positions(mPos)
      ensures mask == Mask(codeword, mPos)
    {
      mask := 0;
      for k := 0 to |mPos|
        invariant mask == Mask(codeword, mPos[..k])
      {
        assert mPos[..k + 1][..k] == mPos[..k];
        if TestBit(codeword, mPos[k]) {
          mask := OrBit(mask, k);
        }
      }
      assert mPos[..|mPos|] == mPos;
    }

    // getMasks: the masks of all codewords, or nothing at all when two of them agree.
    method GetMasks(codewords: seq<Point>) returns (ok: bool)
      requires Positions(mPos) && mMaps == []
      modifies `mMaps
      ensures ok <==> Separates(codewords, mPos)
      ensures mMaps == if ok then Masks(codewords, mPos) else []
    {
      for i := 0 to |codewords|
        invariant mMaps == Masks(codewords, mPos)[..i] && NoRepeat(mMaps)
      {
        var rs := GetMask(codewords[i]);
        if rs in mMaps {
          assert !Separates(codewords, mPos) by {
            var j :| 0 <= j < i && mMaps[j] == rs;
            assert Masks(codewords, mPos)[j] == Masks(codewords, mPos)[i];
          }
          mMaps := [];
          return false;
        }
        mMaps := mMaps + [rs];
      }
      ok := true;
    }

    // getRandPos: fresh random positions until there are enough.
    method GetRandPos(raw: seq<nat>, from: nat) returns (done: bool, next: nat)
      requires Positions(mPos) && NoRepeat(mPos) && from <= |raw|
      modifies `mPos
      ensures Positions(mPos) && NoRepeat(mPos) && old(mPos) <= mPos && from <= next <= |raw|
      ensures |old(mPos)| >= mMaxBitSize ==> mPos == old(mPos)
      ensures |old(mPos)| < mMaxBitSize ==> |mPos| <= mMaxBitSize
      ensures done <==> |mPos| >= mMaxBitSize
      ensures Search(done, mPos, next) == Filled(old(mPos), mMaxBitSize, raw, from)
    {
      next := from;
      while |mPos| < mMaxBitSize
        invariant Positions(mPos) && NoRepeat(mPos) && old(mPos) <= mPos && from <= next <= |raw|
        invariant Filled(mPos, mMaxBitSize, raw, next) == Filled(old(mPos), mMaxBitSize, raw, from)
        invariant |old(mPos)| >= mMaxBitSize ==> mPos == old(mPos)
        invariant |old(mPos)| < mMaxBitSize ==> |mPos| <= mMaxBitSize
        decreases |raw| - next
      {
        var rand: Option<nat>;
        rand, next := ChooseIndex(raw, next, POINT_BITS);
        if rand.None? {
          return false, next;
        }
        if rand.value !in mPos {
          mPos := mPos + [rand.value];
        }
      }
      done := true;
    }

    // getPos1 up to three points: the deliberate positions.
    method SeedTwo(codewords: seq<Point>)
      requires 2 <= |codewords| <= 3 && mPos == []
      modifies `mPos
      ensures mPos == Found(FirstDiff(codewords[0], codewords[1], 0))
    {
      var isFind, j := false, 0;
      while j < POINT_BITS && !isFind
        invariant 0 <= j <= POINT_BITS
        invariant !isFind ==> mPos == [] && FirstDiff(codewords[0], codewords[1], 0) == FirstDiff(codewords[0], codewords[1], j)
        invariant isFind ==> mPos == Found(FirstDiff(codewords[0], codewords[1], 0))
      {
        var bit1, bit2 := TestBit(codewords[0], j), TestBit(codewords[1], j);
        if bit1 != bit2 {
          mPos := mPos + [j];
          isFind := true;
        }
        j := j + 1;
      }
    }

    // One position of the second scan: kept where the third point stands alone.
    method TakeThird(p: Point, q: Point, c: Point, j: nat) returns (isFind: bool)
      requires j < POINT_BITS && mPos == Found(FirstDiff(p, q, 0))
      modifies `mPos
      ensures isFind <==> TestBit(p, j) != TestBit(c, j) && TestBit(p, j) == TestBit(q, j)
      ensures mPos == if isFind then old(mPos) + [j] else old(mPos)
    {
      AloneStep(p, q, c, j);
      isFind := false;
      var bit1, bit2, bit3 := TestBit(p, j), TestBit(c, j), TestBit(q, j);
      if bit1 != bit2 && bit1 == bit3 {
        if j !in mPos {
          mPos := mPos + [j];
          isFind := true;
        }
      }
    }

    method SeedThree(p: Point, q: Point, c: Point)
      requires mPos == Found(FirstDiff(p, q, 0))
      modifies `mPos
      ensures mPos == old(mPos) + Found(FirstAlone(p, q, c, 0))
    {
      var isFind, j := false, 0;
      ghost var first := FirstAlone(p, q, c, 0);
      while j < POINT_BITS && !isFind
        invariant 0 <= j <= POINT_BITS
        invariant !isFind ==> mPos == old(mPos) && first == FirstAlone(p, q, c, j)
        invariant isFind ==> mPos == old(mPos) + Found(first)
      {
        AloneStep(p, q, c, j);
        isFind := TakeThird(p, q, c, j);
        j := j + 1;
      }
    }

    // One attempt for four points or more: random positions at which two random points differ.
    method TryPositions(codewords: seq<Point>, raw: seq<nat>, from: nat) returns (done: bool, next: nat)
      requires 4 <= |codewords| <= U64_MAX && from <= |raw| && mPos == []
      modifies `mPos
      ensures Positions(mPos) && NoRepeat(mPos) && |mPos| <= mMaxBitSize && from <= next <= |raw|
      ensures done <==> |mPos| == mMaxBitSize
      ensures Search(done, mPos, next) == Attempt(codewords, [], mMaxBitSize, raw, from)
      ensures done && mMaxBitSize > 0 ==> from < next
    {
      next := from;
      while |mPos| < mMaxBitSize
        invariant Positions(mPos) && NoRepeat(mPos) && |mPos| <= mMaxBitSize && from <= next <= |raw|
        invariant |mPos| > 0 ==> from < next
        invariant Attempt(codewords, mPos, mMaxBitSize, raw, next) == Attempt(codewords, [], mMaxBitSize, raw, from)
        decreases |raw| - next
      {
        var rIdx, rCodewordIdx1, rCodewordIdx2: Option<nat>;
        rIdx, next := ChooseIndex(raw, next, POINT_BITS);
        rCodewordIdx1, next := ChooseIndex(raw, next, |codewords|);
        rCodewordIdx2, next := ChooseIndex(raw, next, |codewords|);
        if rIdx.None? || rCodewordIdx1.None? || rCodewordIdx2.None? {
          return false, next;
        }
        if rCodewordIdx1.value != rCodewordIdx2.value {
          var bit1 := TestBit(codewords[rCodewordIdx1.value], rIdx.value);
          var bit2 := TestBit(codewords[rCodewordIdx2.value], rIdx.value);
          if bit1 != bit2 && rIdx.value !in mPos {
            mPos := mPos + [rIdx.value];
          }
        }
      }
      done := true;
    }

    // Attempts until the masks differ.
    method SearchMany(codewords: seq<Point>, raw: seq<nat>) returns (done: bool)
      requires 4 <= |codewords| <= U64_MAX && mMaxBitSize >= 2
      modifies `mPos, `mMaps
      ensures done ==> Positions(mPos) && NoRepeat(mPos) && |mPos| == mMaxBitSize
      ensures done ==> Separates(codewords, mPos) && mMaps == Masks(codewords, mPos)
      ensures done == Searched(codewords, mMaxBitSize, raw, 0).done
      ensures done ==> mPos == Searched(codewords, mMaxBitSize, raw, 0).pos
    {
      ghost var spec := Searched(codewords, mMaxBitSize, raw, 0);
      var isFind, next := false, 0;
      while !isFind
        invariant 0 <= next <= |raw|
        invariant isFind ==> Positions(mPos) && NoRepeat(mPos) && |mPos| == mMaxBitSize
        invariant isFind ==> Separates(codewords, mPos) && mMaps == Masks(codewords, mPos)
        invariant if isFind then spec.done && mPos == spec.pos else spec == Searched(codewords, mMaxBitSize, raw, next)
        decreases |raw| - next, !isFind
      {
        mMaps := [];
        mPos := [];
        done, next := TryPositions(codewords, raw, next);
        if !done {
          return;
        }
        isFind := GetMasks(codewords);
      }
      done := true;
    }

    // The deliberate positions of one, two or three points.
    method SeedPositions(codewords: seq<Point>)
      requires 1 <= |codewords| <= 3 && mPos == []
      modifies `mPos
      ensures mPos == Seed(codewords)
    {
      if |codewords| >= 2 {
        SeedTwo(codewords);
      }
      if |codewords| == 3 {
        SeedThree(codewords[0], codewords[1], codewords[2]);
      }
    }

    // Up to three points.
    method SearchFew(codewords: seq<Point>, raw: seq<nat>) returns (done: bool)
      requires 1 <= |codewords| <= 3 && 2 <= mMaxBitSize && mPos == [] && mMaps == []
      modifies `mPos, `mMaps
      ensures done ==> Outcome(codewords, mMaxBitSize, mPos)
      ensures done ==> mMaps == if Separates(codewords, mPos) then Masks(codewords, mPos) else []
      ensures done == Filled(Seed(codewords), mMaxBitSize, raw, 0).done
      ensures done ==> mPos == Filled(Seed(codewords), mMaxBitSize, raw, 0).pos
    {
      SeedPositions(codewords);
      var next;
      done, next := GetRandPos(raw, 0);
      if done {
        var ok := GetMasks(codewords);
      }
    }

    /** getPos1. It ends exactly when the specified search does, with its positions. Up to three points these are
        the deliberate positions and random others, whatever the masks then are; from four points on they
        separate the points. */
    method GetPos1(codewords: seq<Point>, raw: seq<nat>) returns (done: bool)
      requires 1 <= |codewords| <= U64_MAX && 2 <= mMaxBitSize <= 8 && mPos == [] && mMaps == []
      modifies `mPos, `mMaps
      ensures done ==> Positions(mPos) && NoRepeat(mPos) && |mPos| == mMaxBitSize
      ensures done ==> mMaps == if Separates(codewords, mPos) then Masks(codewords, mPos) else []
      ensures Positioned(codewords, mMaxBitSize, raw) == if done then Some(mPos) else None
      ensures done && |codewords| >= 4 ==> Separates(codewords, mPos)
      ensures done && |codewords| <= 3 ==> Outcome(codewords, mMaxBitSize, mPos)
    {
      if |codewords| > 3 {
        done := SearchMany(codewords, raw);
      } else {
        done := SearchFew(codewords, raw);
      }
    }
  }

  // ---------------------------------------------------------------- streams that end the search

  // Words that name the positions one after the other, each with two points that differ there.
  ghost predicate Spells(codewords: seq<Point>, pos: seq<nat>, raw: seq<nat>) {
    && |raw| == 3 * |pos| && Positions(pos) && NoRepeat(pos)
    && forall k :: 0 <= k < |pos| ==> raw[3 * k] == pos[k] && Distinguishes(codewords, pos[k], raw[3 * k + 1], raw[3 * k + 2])
  }

  ghost predicate Distinguishes(codewords: seq<Point>, j: nat, c1: nat, c2: nat) {
    j < POINT_BITS && c1 < |codewords| && c2 < |codewords| && TestBit(codewords[c1], j) != TestBit(codewords[c2], j)
  }

  // A word below the limit is taken as it is.
  lemma {:induction false} SmallWord(raw: seq<nat>, from: nat, limit: nat)
    requires 0 < limit <= U64_MAX && from < |raw| && raw[from] < limit
    ensures Chosen(raw, from, limit) == Draw(Some(raw[from]), from + 1)
  {
    var q := U64_MAX / limit;
    assert Cutoff(limit) == q * limit;
    MulBounds(q, limit);
    ModUnique(raw[from], limit, 0, raw[from]);
  }

  // Three words that name a new position and two points that differ there.
  lemma {:induction false} SpelledDraw(codewords: seq<Point>, pos: seq<nat>, max: nat, raw: seq<nat>, from: nat)
    requires 0 < |codewords| <= U64_MAX && |pos| < max && from + 3 <= |raw|
    requires Distinguishes(codewords, raw[from], raw[from + 1], raw[from + 2]) && raw[from] !in pos
    ensures Attempt(codewords, pos, max, raw, from) == Attempt(codewords, pos + [raw[from]], max, raw, from + 3)
  {
    SmallWord(raw, from, POINT_BITS);
    SmallWord(raw, from + 1, |codewords|);
    SmallWord(raw, from + 2, |codewords|);
  }

  lemma NewPosition(pos: seq<nat>, k: nat)
    requires NoRepeat(pos) && k < |pos|
    ensures pos[k] !in pos[..k] && pos[..k] + [pos[k]] == pos[..k + 1]
  {}

  lemma {:induction false} SpelledAttempt(codewords: seq<Point>, pos: seq<nat>, raw: seq<nat>, k: nat, front: seq<nat>, from: nat)
    requires 0 < |codewords| <= U64_MAX && Spells(codewords, pos, raw) && k <= |pos| && front == pos[..k] && from == 3 * k
    ensures Attempt(codewords, front, |pos|, raw, from) == Search(true, pos, |raw|)
    decreases |pos| - k
  {
    if k < |pos| {
      NewPosition(pos, k);
      assert raw[from] == pos[k] && Distinguishes(codewords, pos[k], raw[from + 1], raw[from + 2]);
      SpelledDraw(codewords, front, |pos|, raw, from);
      SpelledAttempt(codewords, pos, raw, k + 1, pos[..k + 1], from + 3);
    }
  }

  /** From four points on the search ends with any separating positions that some stream spells. */
  lemma {:induction false} SpelledEnds(codewords: seq<Point>, pos: seq<nat>, raw: seq<nat>)
    requires 4 <= |codewords| <= U64_MAX && |pos| > 0 && Spells(codewords, pos, raw) && Separates(codewords, pos)
    ensures Positioned(codewords, |pos|, raw) == Some(pos)
  {
    SpelledAttempt(codewords, pos, raw, 0, [], 0);
  }

  // Up to three points: words that are exactly the missing positions, all different.
  lemma {:induction false} FreshFills(pos: seq<nat>, raw: seq<nat>, from: nat, max: nat)
    requires from <= |raw| && |pos| + (|raw| - from) == max && Positions(raw[from..]) && NoRepeat(pos + raw[from..])
    ensures Filled(pos, max, raw, from) == Search(true, pos + raw[from..], |raw|)
    decreases |raw| - from
  {
    var rest := raw[from..];
    if from == |raw| {
      assert pos + rest == pos;
    } else {
      assert rest[0] == raw[from] && raw[from + 1..] == rest[1..];
      SmallWord(raw, from, POINT_BITS);
      NewPosition(pos + rest, |pos|);
      assert (pos + rest)[..|pos|] == pos && pos + rest == (pos + [raw[from]]) + raw[from + 1..];
      FreshFills(pos + [raw[from]], raw, from + 1, max);
    }
  }

  /** Every list that starts with the deliberate positions is what the search ends with for some words. */
  lemma {:induction false} OutcomeEnds(codewords: seq<Point>, raw: seq<nat>, max: nat)
    requires 1 <= |codewords| <= 3 && max > 0 && Outcome(codewords, max, Seed(codewords) + raw)
    ensures Positioned(codewords, max, raw) == Some(Seed(codewords) + raw)
  {
    var all := Seed(codewords) + raw;
    assert raw[0..] == raw;
    assert forall k :: 0 <= k < |raw| ==> raw[k] == all[|Seed(codewords)| + k];
    FreshFills(Seed(codewords), raw, 0, max);
  }
}
