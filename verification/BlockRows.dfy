/**
 The table rows of YYH26's OPPRF, one per bin: every slot belongs to a mask, which is read off an OPRF
 value at the positions the bin's sender found, and the positions travel in front of the slots.
 */
module BlockRows {
  import opened NumberTheory
  import opened Bits
  import BitPositions

  datatype Row = Row(pos: seq<nat>, slots: seq<nat>) {
    // A slot for every mask.
    predicate Full() {
      |slots| == Pow(2, |pos|)
    }
  }

  // The bits of an OPRF value at the positions, the first one lowest.
  function BlockMask(v: nat, pos: seq<nat>): (m: nat)
    ensures m < Pow(2, |pos|)
  {
    if |pos| == 0 then 0
    else
      var k := |pos| - 1;
      var m := BlockMask(v, pos[..k]);
      OrBitBelow(m, k);
      if BitAt(v, pos[k]) then OrBit(m, k) else m
  }

  /** Bit k of a mask is the value's bit at position k. */
  lemma {:induction false} BlockMaskBits(v: nat, pos: seq<nat>, k: nat)
    requires k < |pos|
    ensures BitAt(BlockMask(v, pos), k) <==> BitAt(v, pos[k])
  {
    var n := |pos| - 1;
    var m := BlockMask(v, pos[..n]);
    OrBitSets(m, n, k);
    if k < n {
      BlockMaskBits(v, pos[..n], k);
    } else {
      HighBitsClear(m, n, n);
    }
  }

  // getMask
  method GetMask(v: nat, pos: seq<nat>) returns (mask: nat)
    ensures mask == BlockMask(v, pos)
  {
    mask := 0;
    for k := 0 to |pos|
      invariant mask == BlockMask(v, pos[..k])
    {
      assert pos[..k + 1][..k] == pos[..k];
      if BitAt(v, pos[k]) {
        mask := OrBit(mask, k);
      }
    }
    assert pos[..|pos|] == pos;
  }

  // Entry i is in the slot of mask i; all other slots are clear.
  ghost predicate Holds(slots: seq<nat>, masks: seq<nat>, entries: seq<nat>) {
    && |masks| == |entries|
    && (forall i :: 0 <= i < |masks| ==> masks[i] < |slots| && slots[masks[i]] == entries[i])
    && (forall t :: 0 <= t < |slots| && t !in masks ==> slots[t] == 0)
  }

  // First the entries, then zero blocks wherever no mask points.
  method FillSlots(slots: array<nat>, masks: seq<nat>, entries: seq<nat>)
    requires |masks| == |entries| && BitPositions.NoRepeat(masks) && forall i :: 0 <= i < |masks| ==> masks[i] < slots.Length
    modifies slots
    ensures Holds(slots[..], masks, entries)
  {
    for i := 0 to |masks|
      invariant forall k :: 0 <= k < i ==> slots[masks[k]] == entries[k]
    {
      slots[masks[i]] := entries[i];
    }
    for t := 0 to slots.Length
      invariant forall k :: 0 <= k < |masks| ==> slots[masks[k]] == entries[k]
      invariant forall t' :: 0 <= t' < t && t' !in masks ==> slots[t'] == 0
    {
      if t !in masks {
        slots[t] := 0;
      }
    }
  }

  /** The row of one bin: at the mask of every value it holds that value's entry. */
  method MakeRow(oprf: seq<nat>, entries: seq<nat>, pos: seq<nat>, max: nat) returns (row: Row)
    requires |oprf| == |entries| && max == Pow(2, |pos|) && BitPositions.NoRepeat(BlockMasks(oprf, pos))
    ensures row.pos == pos && row.Full() && |row.slots| == max
    ensures forall i :: 0 <= i < |oprf| ==> row.slots[BlockMask(oprf[i], pos)] == entries[i]
    ensures forall t :: 0 <= t < max && (forall i :: 0 <= i < |oprf| ==> BlockMask(oprf[i], pos) != t) ==> row.slots[t] == 0
  {
    var masks := BlockMasks(oprf, pos);
    var slots := new nat[max];
    FillSlots(slots, masks, entries);
    row := Row(pos, slots[..]);
  }

  function BlockMasks(oprf: seq<nat>, pos: seq<nat>): (masks: seq<nat>)
    ensures |masks| == |oprf| && forall i :: 0 <= i < |masks| ==> masks[i] == BlockMask(oprf[i], pos) < Pow(2, |pos|)
  {
    seq(|oprf|, i requires 0 <= i < |oprf| => BlockMask(oprf[i], pos))
  }

  // The slot a receiver reads with its own OPRF value.
  function Slot(row: Row, v: nat): nat
    requires row.Full()
  {
    row.slots[BlockMask(v, row.pos)]
  }

  method ReadSlot(row: Row, v: nat) returns (slot: nat)
    requires row.Full()
    ensures slot == Slot(row, v) == row.slots[BlockMask(v, row.pos)]
  {
    var mask := GetMask(v, row.pos);
    slot := row.slots[mask];
  }
}
