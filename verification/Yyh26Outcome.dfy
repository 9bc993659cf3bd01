/**
 What a run of YYH26 hands over, spelled out for every element and every client, whether the client has the element
 or not.
 */
module Yyh26Outcome {
  import opened NumberTheory
  import opened Bits
  import opened HashParameters
  import opened CuckooHashing
  import Simple = SimpleHashing
  import opened BinSets
  import opened Lanes
  import opened OleRefresh
  import opened RefreshDelivery
  import opened BlockRows
  import opened ShareTables
  import opened ShareDelivery
  import opened Yyh26
  import opened Yyh26Run

  // A client's word comes from some slots read in the five tables.
  lemma {:induction false} WordSlots(e: Setting, x: nat, theirs: seq<nat>, link: Link, b: nat, bin: Simple.Bin, received: seq<seq<nat>>,
                                     word: nat, u: nat, values: nat -> nat)
    returns (slots: Slots)
    requires LaneModuli(e.ms) && WordRead(word, e, x, b, bin, link, theirs, received, u) && values == Values(link.up, b, x)
    ensures Received(received, |theirs|) && SlotsOf(slots, x, b, bin, link, theirs, received, e, u)
    ensures WordFrom(word, slots, values, e, x, b, u)
  {
    slots :| SlotsOf(slots, x, b, bin, link, theirs, received, e, u) && WordFrom(word, slots, values, e, x, b, u);
  }

  // Each of them is read with the leader's value of that table.
  lemma {:induction false} SlotsAre(slots: Slots, x: nat, b: nat, bin: Simple.Bin, link: Link, theirs: seq<nat>, received: seq<seq<nat>>,
                                    e: Setting, u: nat)
    requires LaneModuli(e.ms) && Received(received, |theirs|) && SlotsOf(slots, x, b, bin, link, theirs, received, e, u)
    ensures forall k :: 0 <= k < 4 ==> SlotReads(slots.shares[k], link.up[k].oprf(b, x), k, bin, link, theirs, received, e.ds, u, b, e.ms)
    ensures |slots.shares| == 4 && |link.up| == 5
    ensures SlotReads(slots.index, link.up[4].oprf(b, x), 4, bin, link, theirs, received, e.ds, u, b, e.ms)
  {
    forall k | 0 <= k < 5
      ensures SlotReads(TableEntry(slots, k), link.up[k].oprf(b, x), k, bin, link, theirs, received, e.ds, u, b, e.ms)
    {
    }
    forall k | 0 <= k < 4
      ensures TableEntry(slots, k) == slots.shares[k]
    {
    }
    assert TableEntry(slots, 4) == slots.index;
  }

  /** The word for element x and client u: in every lane the leader's half for the slot number read plus what is read
      there, less the leader's OPRF value. */
  lemma {:induction false} WordLanes(word: nat, slots: Slots, values: nat -> nat, e: Setting, x: nat, b: nat, u: nat, link: Link)
    requires LaneModuli(e.ms) && WordFrom(word, slots, values, e, x, b, u) && |link.up| == 5 && values == Values(link.up, b, x)
    ensures |slots.shares| == 4 && forall k :: 0 <= k < 4 ==> Lane(word, k) < e.ms[k] && Cong(Lane(word, k),
      LeaderSum(e.ds, e.ms, k, Cell(u, Xor(slots.index, link.up[4].oprf(b, x)) % 64, b), x) + slots.shares[k] - link.up[k].oprf(b, x), e.ms[k])
  {
    var v := link.up[4].oprf(b, x);
    assert v == values(4);
    var c := Cell(u, Shown(slots.index, v), b);
    forall k | 0 <= k < 4
      ensures Lane(word, k) < e.ms[k] && Cong(Lane(word, k), LeaderSum(e.ds, e.ms, k, c, x) + slots.shares[k] - link.up[k].oprf(b, x), e.ms[k])
    {
      assert values(k) == link.up[k].oprf(b, x);
      CollectedInFull(word, slots, values, e.ds, x, c, e.ms, k);
    }
  }

  /** What is read in a share table with any value: if the client's item in some slot of the bin has the same mask, that
      item's OPRF value, share and half for its slot together; if none has, 0. */
  lemma {:induction false} ShareRead(slot: nat, v: nat, k: nat, bin: Simple.Bin, link: Link, theirs: seq<nat>, received: seq<seq<nat>>,
                                     ds: seq<Draws>, u: nat, b: nat, ms: seq<nat>, s: nat, y: nat)
    requires LaneModuli(ms) && Received(received, |theirs|) && k < 4 && k < |link.up|
    requires SlotReads(slot, v, k, bin, link, theirs, received, ds, u, b, ms)
    requires s < |bin.mIdx| && y == theirs[bin.mIdx[s]]
    ensures BlockMask(link.up[k].oprf(b, y), link.up[k].pos(b)) == BlockMask(v, link.up[k].pos(b)) ==>
      slot < ms[k] && Cong(slot, link.up[k].oprf(b, y) + received[k][bin.mIdx[s]] + ClientSum(ds, ms, k, Cell(u, s, b), y), ms[k])
  {
  }

  /** In the index table it is that item's OPRF value with the slot number in the low bits. */
  lemma {:induction false} IndexRead(slot: nat, v: nat, bin: Simple.Bin, link: Link, theirs: seq<nat>, received: seq<seq<nat>>,
                                     ds: seq<Draws>, u: nat, b: nat, ms: seq<nat>, s: nat, y: nat)
    requires LaneModuli(ms) && Received(received, |theirs|) && 4 < |link.up|
    requires SlotReads(slot, v, 4, bin, link, theirs, received, ds, u, b, ms)
    requires s < |bin.mIdx| && y == theirs[bin.mIdx[s]]
    ensures BlockMask(link.up[4].oprf(b, y), link.up[4].pos(b)) == BlockMask(v, link.up[4].pos(b)) ==>
      slot == Xor(link.up[4].oprf(b, y), link.junk(b, s) * 64 + s)
  {
  }

  /** In either kind of table, where no item of the client in the bin has the same mask, 0 is read. */
  lemma {:induction false} NothingRead(slot: nat, v: nat, k: nat, bin: Simple.Bin, link: Link, theirs: seq<nat>, received: seq<seq<nat>>,
                                       ds: seq<Draws>, u: nat, b: nat, ms: seq<nat>)
    requires LaneModuli(ms) && Received(received, |theirs|) && k < |link.up|
    requires SlotReads(slot, v, k, bin, link, theirs, received, ds, u, b, ms)
    requires forall s :: 0 <= s < |bin.mIdx| && bin.mIdx[s] < |theirs| ==>
      BlockMask(link.up[k].oprf(b, theirs[bin.mIdx[s]]), link.up[k].pos(b)) != BlockMask(v, link.up[k].pos(b))
    ensures slot == 0
  {
  }

  /** What client u received for its item j in lane k: the item sits in one cuckoo bin, and its value is read in the
      leader's simple bin of that number, where the leader's elements have their shares for client u. */
  lemma {:induction false} ReceivedIs(p: HashParams, hashes: nat -> seq<nat>, e: Setting, mine: seq<nat>, theirs: seq<nat>,
                                      highers: seq<seq<seq<int>>>, link: Link, received: seq<seq<nat>>, u: nat, j: nat, k: nat,
                                      table: seq<Simple.Bin>)
    returns (b: nat)
    requires p.Usable() && LaneModuli(e.ms) && HighersFor(highers, |mine|, e.t) && j < |theirs| && k < 4
    requires ReceivedAt(p, hashes, e, mine, theirs, highers, link, received, u) && table == SimpleTable(p, ItemHash(mine, hashes), p.n)
    ensures BinOfItem(CuckooOutcome(p, ItemHash(theirs, hashes)).bins, j, b) && b < |table|
    ensures |link.down| == |received| == 4 && |received[k]| == |theirs|
    ensures ReadsValue(table[b], mine, link.down[k], b, DealtColumn(e, mine, highers, k, u), link.down[k].oprf(b, theirs[j]), e.ms[k],
                       received[k][j])
  {
    var numbers :| NumbersOf(p, hashes, theirs, numbers) && LanesRead(table, e, mine, highers, link, numbers, theirs, received, u, 4);
    b := numbers[j];
    var column := DealtColumn(e, mine, highers, k, u);
    assert LaneRead(table, mine, link.down[k], column, e.ms[k], numbers, theirs, received[k]);
    assert ValueRead(table, mine, link.down[k], column, e.ms[k], b, theirs[j], received[k][j]);
  }

  /** Such a reading in full: if the leader's element in some slot of the bin has the same mask, its OPRF value and
      share less the reader's OPRF value; if none has, minus the reader's OPRF value, modulo the prime. */
  lemma {:induction false} ValueIs(bin: Simple.Bin, mine: seq<nat>, keys: Keys, b: nat, values: seq<nat>, v: nat, m: nat, got: nat)
    requires m > 0 && ReadsValue(bin, mine, keys, b, values, v, m, got)
    ensures |values| == |mine| && forall s :: 0 <= s < |bin.mIdx| ==> bin.mIdx[s] < |mine|
    ensures forall s :: 0 <= s < |bin.mIdx| && BlockMask(keys.oprf(b, mine[bin.mIdx[s]]), keys.pos(b)) == BlockMask(v, keys.pos(b)) ==>
      got == (keys.oprf(b, mine[bin.mIdx[s]]) + values[bin.mIdx[s]] - v) % m
    ensures (forall s :: 0 <= s < |bin.mIdx| ==> BlockMask(keys.oprf(b, mine[bin.mIdx[s]]), keys.pos(b)) != BlockMask(v, keys.pos(b)))
      ==> got == (0 - v) % m
  {
  }
}
