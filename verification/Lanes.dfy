/**
 Four 32-bit lanes in one 128-bit word, lane 0 at the top.
 */
module Lanes {
  import opened NumberTheory
  import opened Bits

  const LANE: nat := 0x1_0000_0000

  // The place value of lane k: 2^((3 - k) * 32).
  function Place(k: nat): (s: nat)
    requires k < 4
    ensures s > 0
  {
    if k == 0 then 0x1_0000_0000_0000_0000_0000_0000 else if k == 1 then 0x1_0000_0000_0000_0000
    else if k == 2 then 0x1_0000_0000 else 1
  }

  // (v >> (3 - k) * 32) & 0xFFFFFFFF
  function Lane(v: nat, k: nat): (r: nat)
    requires k < 4
    ensures r < 0x1_0000_0000
  {
    (v / Place(k)) % 0x1_0000_0000
  }

  // The word whose first k lanes are the given ones and whose other lanes are clear.
  function Packed(lanes: seq<nat>, k: nat): nat
    requires k <= 4 && k <= |lanes|
  {
    if k == 0 then 0 else Packed(lanes, k - 1) + lanes[k - 1] * Place(k - 1)
  }

  // The last lane below and the others above.
  lemma {:induction false} SplitLane(high: nat, low: nat)
    requires low < LANE
    ensures (high * 0x1_0000_0000 + low) / 0x1_0000_0000 == high && (high * 0x1_0000_0000 + low) % 0x1_0000_0000 == low
  {
  }

  lemma {:induction false} LanesBelow(a: nat, b: nat, c: nat, d: nat, v: nat)
    requires a < LANE && b < LANE && c < LANE && d < LANE
    requires v == a * 0x1_0000_0000_0000_0000_0000_0000 + b * 0x1_0000_0000_0000_0000 + c * 0x1_0000_0000 + d
    ensures Lane(v, 0) == a && Lane(v, 1) == b && Lane(v, 2) == c && Lane(v, 3) == d
  {
    var ab := a * 0x1_0000_0000 + b;
    var abc := ab * 0x1_0000_0000 + c;
    assert v == abc * 0x1_0000_0000 + d;
    SplitLane(abc, d);
    SplitLane(ab, c);
    SplitLane(a, b);
    DivMul(v, 0x1_0000_0000, 0x1_0000_0000);
    DivMul(v, 0x1_0000_0000_0000_0000, 0x1_0000_0000);
  }

  // Where the lanes are: lane 0 at the top, lane 3 at the bottom.
  lemma {:induction false} LanePlaces(v: nat, lanes: seq<nat>)
    requires |lanes| == 4
    ensures Lane(v, 0) == (v / 0x1_0000_0000_0000_0000_0000_0000) % 0x1_0000_0000 && Lane(v, 1) == (v / 0x1_0000_0000_0000_0000) % 0x1_0000_0000
    ensures Lane(v, 2) == (v / 0x1_0000_0000) % 0x1_0000_0000 && Lane(v, 3) == v % 0x1_0000_0000
    ensures Packed(lanes, 4) == lanes[0] * 0x1_0000_0000_0000_0000_0000_0000 + lanes[1] * 0x1_0000_0000_0000_0000
      + lanes[2] * 0x1_0000_0000 + lanes[3]
  {
    assert Packed(lanes, 4) == Packed(lanes, 3) + lanes[3];
    assert Packed(lanes, 3) == Packed(lanes, 2) + lanes[2] * 0x1_0000_0000;
    assert Packed(lanes, 2) == Packed(lanes, 1) + lanes[1] * 0x1_0000_0000_0000_0000;
    assert Packed(lanes, 1) == Packed(lanes, 0) + lanes[0] * 0x1_0000_0000_0000_0000_0000_0000;
  }

  /** Values below 2^32 come back from their lanes unchanged. */
  lemma {:induction false} LaneRoundTrip(lanes: seq<nat>)
    requires |lanes| == 4 && forall k :: 0 <= k < 4 ==> lanes[k] < LANE
    ensures forall k :: 0 <= k < 4 ==> Lane(Packed(lanes, 4), k) == lanes[k]
  {
    assert Packed(lanes, 4) == Packed(lanes, 3) + lanes[3];
    assert Packed(lanes, 3) == Packed(lanes, 2) + lanes[2] * 0x1_0000_0000;
    assert Packed(lanes, 2) == Packed(lanes, 1) + lanes[1] * 0x1_0000_0000_0000_0000;
    assert Packed(lanes, 1) == Packed(lanes, 0) + lanes[0] * 0x1_0000_0000_0000_0000_0000_0000;
    LanesBelow(lanes[0], lanes[1], lanes[2], lanes[3], Packed(lanes, 4));
  }

  /** The same on machine words: or-ing the shifted lanes loses none of them. */
  lemma LaneWord(a: bv128, b: bv128, c: bv128, d: bv128)
    requires a <= 0xFFFF_FFFF && b <= 0xFFFF_FFFF && c <= 0xFFFF_FFFF && d <= 0xFFFF_FFFF
    ensures var v := (a << 96) | (b << 64) | (c << 32) | d;
      && (v >> 96) & 0xFFFF_FFFF == a && (v >> 64) & 0xFFFF_FFFF == b
      && (v >> 32) & 0xFFFF_FFFF == c && v & 0xFFFF_FFFF == d
  {}

  // Packing four lanes one by one.
  method Pack(lanes: seq<nat>) returns (res: nat)
    requires |lanes| == 4 && forall k :: 0 <= k < 4 ==> lanes[k] < LANE
    ensures forall k :: 0 <= k < 4 ==> Lane(res, k) == lanes[k]
    ensures res == lanes[0] * 0x1_0000_0000_0000_0000_0000_0000 + lanes[1] * 0x1_0000_0000_0000_0000 + lanes[2] * 0x1_0000_0000 + lanes[3]
  {
    res := 0;
    for k := 0 to 4
      invariant res == Packed(lanes, k)
    {
      res := res + lanes[k] * Place(k);
    }
    LaneRoundTrip(lanes);
    LanePlaces(res, lanes);
  }
}
