/**
 Simple hashing of XZH26: every item goes into the bin of each of its hashes, in the main region and
 in the stash region, at most once per bin.
 */
module SimpleHashing {
  import opened HashParameters

  // mIdx and hIdx of one bin: the items and, for each, the number of the hash that put it there.
  datatype Bin = Bin(mIdx: seq<nat>, hIdx: seq<nat>)

  // All items of a bin are below n.
  predicate InRange(bin: Bin, n: nat) {
    forall i :: 0 <= i < |bin.mIdx| ==> bin.mIdx[i] < n
  }

  // Hash numbers run through the main hashes first and then the stash hashes.
  function HashNumbers(p: HashParams): nat
    requires |p.region| == 2
  {
    p.region[0].numHashes + p.region[1].numHashes
  }

  // The bin hash number h of an item points to; both regions use the item's first hashes.
  function BinOf(p: HashParams, row: seq<nat>, h: nat): (b: nat)
    requires p.Usable() && h < HashNumbers(p) && p.region[0].numHashes <= |row|
    ensures b < p.Bins()
  {
    if h < p.region[0].numHashes then p.Address(0, row[h]) else p.Address(1, row[h - p.region[0].numHashes])
  }

  // Hash number h is the first one of its region that leads the item to its bin.
  ghost predicate FirstHash(p: HashParams, row: seq<nat>, h: nat)
    requires p.Usable() && h < HashNumbers(p) && p.region[0].numHashes <= |row|
  {
    forall g :: 0 <= g < h ==> BinOf(p, row, g) != BinOf(p, row, h)
  }

  ghost predicate Rows(p: HashParams, hash: nat -> seq<nat>, items: set<nat>)
    requires |p.region| == 2
  {
    forall x :: x in items ==> p.region[0].numHashes <= |hash(x)|
  }

  // Entry k of bin b: an inserted item, under the first of its hashes that leads there.
  ghost predicate Entry(p: HashParams, hash: nat -> seq<nat>, items: set<nat>, b: nat, x: nat, h: nat)
    requires p.Usable() && Rows(p, hash, items)
  {
    x in items && h < HashNumbers(p) && BinOf(p, hash(x), h) == b && FirstHash(p, hash(x), h)
  }

  // Everything in bin b belongs there, and nothing is there twice.
  ghost predicate Sound(p: HashParams, hash: nat -> seq<nat>, items: set<nat>, b: nat, bin: Bin)
    requires p.Usable() && Rows(p, hash, items)
  {
    && |bin.mIdx| == |bin.hIdx|
    && (forall k :: 0 <= k < |bin.mIdx| ==> Entry(p, hash, items, b, bin.mIdx[k], bin.hIdx[k]))
    && (forall j, k :: 0 <= j < k < |bin.mIdx| ==> bin.mIdx[j] != bin.mIdx[k])
  }

  // The first `upto` hashes of item x have put it into their bins.
  ghost predicate Placed(p: HashParams, hash: nat -> seq<nat>, bins: seq<Bin>, x: nat, upto: nat)
    requires p.Usable() && |bins| == p.Bins() && p.region[0].numHashes <= |hash(x)|
  {
    forall h :: 0 <= h < upto && h < HashNumbers(p) ==> x in bins[BinOf(p, hash(x), h)].mIdx
  }

  ghost predicate AllSound(p: HashParams, hash: nat -> seq<nat>, items: set<nat>, bins: seq<Bin>)
    requires p.Usable() && Rows(p, hash, items)
  {
    forall b :: 0 <= b < |bins| ==> Sound(p, hash, items, b, bins[b])
  }

  ghost predicate AllPlaced(p: HashParams, hash: nat -> seq<nat>, items: set<nat>, bins: seq<Bin>)
    requires p.Usable() && |bins| == p.Bins() && Rows(p, hash, items)
  {
    forall x :: x in items ==> Placed(p, hash, bins, x, HashNumbers(p))
  }

  // Items are in, and the first `upto` hashes of x as well.
  ghost predicate HalfInserted(p: HashParams, hash: nat -> seq<nat>, items: set<nat>, x: nat, bins: seq<Bin>, upto: nat) {
    && p.Usable() && |bins| == p.Bins() && Rows(p, hash, items + {x})
    && AllSound(p, hash, items + {x}, bins) && AllPlaced(p, hash, items, bins)
    && Placed(p, hash, bins, x, upto)
  }

  // Bins only ever get longer, at the end.
  ghost predicate GrownFrom(bins: seq<Bin>, bins': seq<Bin>) {
    |bins| == |bins'| && forall b :: 0 <= b < |bins| ==> bins[b].mIdx <= bins'[b].mIdx && bins[b].hIdx <= bins'[b].hIdx
  }

  // ---------------------------------------------------------------- what insertion computes

  // One hash of one item.
  function Inserted(bins: seq<Bin>, b: nat, x: nat, h: nat): (r: seq<Bin>)
    requires b < |bins|
    ensures |r| == |bins|
  {
    if x in bins[b].mIdx then bins else bins[b := Bin(bins[b].mIdx + [x], bins[b].hIdx + [h])]
  }

  // The first `upto` hashes of one item.
  ghost function InsertedHashes(p: HashParams, bins: seq<Bin>, row: seq<nat>, x: nat, upto: nat): (r: seq<Bin>)
    requires p.Usable() && |bins| == p.Bins() && p.region[0].numHashes <= |row| && upto <= HashNumbers(p)
    ensures |r| == |bins|
  {
    if upto == 0 then bins
    else Inserted(InsertedHashes(p, bins, row, x, upto - 1), BinOf(p, row, upto - 1), x, upto - 1)
  }

  // A list of items, in order.
  ghost function InsertedItems(p: HashParams, bins: seq<Bin>, hash: nat -> seq<nat>, idxs: seq<nat>): (r: seq<Bin>)
    requires p.Usable() && |bins| == p.Bins()
    ensures |r| == |bins|
  {
    if |idxs| == 0 then bins
    else
      var x, before := idxs[|idxs| - 1], InsertedItems(p, bins, hash, idxs[..|idxs| - 1]);
      if p.region[0].numHashes <= |hash(x)| then InsertedHashes(p, before, hash(x), x, HashNumbers(p)) else before
  }

  lemma {:induction false} InsertedConcat(p: HashParams, bins: seq<Bin>, hash: nat -> seq<nat>, a: seq<nat>, b: seq<nat>)
    requires p.Usable() && |bins| == p.Bins()
    ensures InsertedItems(p, bins, hash, a + b) == InsertedItems(p, InsertedItems(p, bins, hash, a), hash, b)
  {
    if |b| == 0 {
      assert a + b == a;
    } else {
      assert (a + b)[..|a + b| - 1] == a + b[..|b| - 1];
      InsertedConcat(p, bins, hash, a, b[..|b| - 1]);
    }
  }

  function EmptyBins(p: HashParams): (r: seq<Bin>)
    requires |p.region| == 2
    ensures |r| == p.Bins()
  {
    seq(p.Bins(), _ => Bin([], []))
  }

  lemma {:induction false} HalfStep(p: HashParams, hash: nat -> seq<nat>, items: set<nat>, x: nat, bins: seq<Bin>, bins': seq<Bin>, h: nat)
    requires HalfInserted(p, hash, items, x, bins, h) && h < HashNumbers(p) && bins' == Inserted(bins, BinOf(p, hash(x), h), x, h)
    ensures HalfInserted(p, hash, items, x, bins', h + 1) && GrownFrom(bins, bins')
  {
  }

  // Exactly the items are in their bins.
  ghost predicate GoodBins(p: HashParams, hash: nat -> seq<nat>, items: set<nat>, bins: seq<Bin>)
    requires p.Usable()
  {
    && |bins| == p.Bins() && Rows(p, hash, items) && AllSound(p, hash, items, bins) && AllPlaced(p, hash, items, bins)
  }

  /** Where an item is: in exactly the bins its hashes lead to, taken modulo the region's number of bins. */
  lemma {:induction false} InBinIff(p: HashParams, hash: nat -> seq<nat>, items: set<nat>, bins: seq<Bin>, x: nat, b: nat)
    requires p.Usable() && GoodBins(p, hash, items, bins) && b < p.Bins()
    ensures x in bins[b].mIdx <==>
      && x in items
      && (if b < p.region[0].binCount
          then exists h :: 0 <= h < p.region[0].numHashes && hash(x)[h] % p.region[0].binCount == b
          else exists h :: 0 <= h < p.region[1].numHashes && hash(x)[h] % p.region[1].binCount + p.region[0].binCount == b)
  {
    var numMain := p.region[0].numHashes;
    assert Sound(p, hash, items, b, bins[b]);
    if x in bins[b].mIdx {
      var k :| 0 <= k < |bins[b].mIdx| && bins[b].mIdx[k] == x;
      var h := bins[b].hIdx[k];
      assert Entry(p, hash, items, b, x, h);
      var row := hash(x);
      assert if h < numMain then row[h] % p.region[0].binCount == b
             else row[h - numMain] % p.region[1].binCount + p.region[0].binCount == b;
    }
    if x in items {
      assert Placed(p, hash, bins, x, HashNumbers(p));
      if h :| b < p.region[0].binCount && 0 <= h < numMain && hash(x)[h] % p.region[0].binCount == b {
        assert BinOf(p, hash(x), h) == b;
      }
      if h :| b >= p.region[0].binCount && 0 <= h < p.region[1].numHashes && hash(x)[h] % p.region[1].binCount + p.region[0].binCount == b {
        assert BinOf(p, hash(x), numMain + h) == b;
      }
    }
  }

  // Hash h is the first of the row that is addr modulo count.
  ghost predicate LeadsFirst(row: seq<nat>, count: nat, addr: nat, h: nat)
    requires count > 0
  {
    h < |row| && row[h] % count == addr && forall g :: 0 <= g < h ==> row[g] % count != addr
  }

  /** What is recorded with an item: the first of its hashes that leads to the bin; in the stash region
      the numbers go on after the main hashes. */
  lemma {:induction false} EntryIsFirst(p: HashParams, hash: nat -> seq<nat>, items: set<nat>, bins: seq<Bin>, b: nat, k: nat)
    requires p.Usable() && GoodBins(p, hash, items, bins) && b < p.Bins() && k < |bins[b].mIdx|
    ensures k < |bins[b].hIdx|
    ensures var row, h, main := hash(bins[b].mIdx[k]), bins[b].hIdx[k], p.region[0];
      if b < main.binCount then LeadsFirst(row, main.binCount, b, h)
      else h >= main.numHashes && LeadsFirst(row, p.region[1].binCount, b - main.binCount, h - main.numHashes)
  {
    assert Sound(p, hash, items, b, bins[b]);
    var x, h, numMain := bins[b].mIdx[k], bins[b].hIdx[k], p.region[0].numHashes;
    assert Entry(p, hash, items, b, x, h);
    var row := hash(x);
    if b < p.region[0].binCount {
      forall g | 0 <= g < h
        ensures row[g] % p.region[0].binCount != b
      {
        assert BinOf(p, row, g) != BinOf(p, row, h);
      }
    } else {
      forall g | 0 <= g < h - numMain
        ensures row[g] % p.region[1].binCount != b - p.region[0].binCount
      {
        assert BinOf(p, row, numMain + g) != BinOf(p, row, h);
      }
    }
  }

  /** Inserting hash by hash keeps: every entry belongs to its bin and is there once, under its first hash. */
  lemma {:induction false} HashesKeep(p: HashParams, hash: nat -> seq<nat>, items: set<nat>, x: nat, bins: seq<Bin>, upto: nat)
    requires p.Usable() && GoodBins(p, hash, items, bins) && p.region[0].numHashes <= |hash(x)| && upto <= HashNumbers(p)
    ensures HalfInserted(p, hash, items, x, InsertedHashes(p, bins, hash(x), x, upto), upto)
    ensures GrownFrom(bins, InsertedHashes(p, bins, hash(x), x, upto))
  {
    if upto > 0 {
      var h := upto - 1;
      HashesKeep(p, hash, items, x, bins, h);
      NextKeeps(p, hash, items, x, bins, InsertedHashes(p, bins, hash(x), x, h), InsertedHashes(p, bins, hash(x), x, upto), h, upto);
    }
  }

  lemma {:induction false} NextKeeps(p: HashParams, hash: nat -> seq<nat>, items: set<nat>, x: nat, start: seq<Bin>, bins: seq<Bin>,
                                     bins': seq<Bin>, h: nat, h': nat)
    requires HalfInserted(p, hash, items, x, bins, h) && GrownFrom(start, bins) && h < HashNumbers(p) && h' == h + 1
    requires bins' == Inserted(bins, BinOf(p, hash(x), h), x, h)
    ensures HalfInserted(p, hash, items, x, bins', h') && GrownFrom(start, bins')
  {
    HalfStep(p, hash, items, x, bins, bins', h);
  }

  lemma {:induction false} ItemKeeps(p: HashParams, hash: nat -> seq<nat>, items: set<nat>, x: nat, bins: seq<Bin>, bins': seq<Bin>)
    requires p.Usable() && GoodBins(p, hash, items, bins) && p.region[0].numHashes <= |hash(x)|
    requires bins' == InsertedHashes(p, bins, hash(x), x, HashNumbers(p))
    ensures GoodBins(p, hash, items + {x}, bins') && GrownFrom(bins, bins')
  {
    HashesKeep(p, hash, items, x, bins, HashNumbers(p));
  }

  // One hash more; the row passed along holds the same hashes.
  lemma {:induction false} NextHashIn(p: HashParams, bins: seq<Bin>, row: seq<nat>, full: seq<nat>, x: nat, h: nat, addr: nat)
    requires p.Usable() && |bins| == p.Bins() && |row| == p.region[0].numHashes && row <= full && h < HashNumbers(p)
    requires addr == if h < p.region[0].numHashes then p.Address(0, row[h]) else p.Address(1, row[h - p.region[0].numHashes])
    ensures InsertedHashes(p, bins, full, x, h + 1) == Inserted(InsertedHashes(p, bins, full, x, h), addr, x, h)
  {
    assert addr == BinOf(p, full, h);
  }

  // What the first items of a batch have computed.
  ghost predicate BatchGrown(p: HashParams, start: seq<Bin>, hash: nat -> seq<nat>, idxs: seq<nat>, bins: seq<Bin>) {
    p.Usable() && |start| == p.Bins() && GrownFrom(start, bins) && bins == InsertedItems(p, start, hash, idxs)
  }

  lemma {:induction false} BatchStep(p: HashParams, start: seq<Bin>, hash: nat -> seq<nat>, idxs: seq<nat>, j: nat, bins: seq<Bin>, bins': seq<Bin>)
    requires j < |idxs| && BatchGrown(p, start, hash, idxs[..j], bins) && p.region[0].numHashes <= |hash(idxs[j])|
    requires GrownFrom(bins, bins') && bins' == InsertedHashes(p, bins, hash(idxs[j]), idxs[j], HashNumbers(p))
    ensures BatchGrown(p, start, hash, idxs[..j + 1], bins')
  {
    assert idxs[..j + 1][..j] == idxs[..j];
  }

  class SimpleHasher {
    const params: HashParams
    var mBins: seq<Bin>

    // The items inserted so far are exactly `items`.
    ghost predicate Valid(hash: nat -> seq<nat>, items: set<nat>)
      reads this
    {
      params.Usable() && GoodBins(params, hash, items, mBins)
    }

    constructor (p: HashParams)
      requires p.Usable()
      ensures params == p
      ensures forall hash :: Valid(hash, {})
      ensures mBins == EmptyBins(p)
    {
      params := p;
      mBins := EmptyBins(p);
    }

    // One hash of one item: into its bin unless it is there already.
    method InsertOne(x: nat, h: nat, addr: nat)
      requires addr < |mBins|
      modifies `mBins
      ensures mBins == Inserted(old(mBins), addr, x, h)
    {
      var bin := mBins[addr];
      if x !in bin.mIdx {
        mBins := mBins[addr := Bin(bin.mIdx + [x], bin.hIdx + [h])];
      }
    }

    // All hashes of one item, main region first.
    method InsertItem(x: nat, row: seq<nat>, ghost hash: nat -> seq<nat>, ghost items: set<nat>)
      requires Valid(hash, items) && |row| == params.region[0].numHashes && row <= hash(x)
      modifies `mBins
      ensures Valid(hash, items + {x}) && GrownFrom(old(mBins), mBins)
      ensures mBins == InsertedHashes(params, old(mBins), hash(x), x, HashNumbers(params))
    {
      ghost var start := mBins;
      InsertHashes(x, row, hash(x));
      ItemKeeps(params, hash, items, x, start, mBins);
    }

    method InsertHashes(x: nat, row: seq<nat>, ghost full: seq<nat>)
      requires params.Usable() && |mBins| == params.Bins() && |row| == params.region[0].numHashes && row <= full
      modifies `mBins
      ensures mBins == InsertedHashes(params, old(mBins), full, x, HashNumbers(params))
    {
      ghost var start := mBins;
      var h := 0;
      for k := 0 to params.region[0].numHashes
        invariant h == k && mBins == InsertedHashes(params, start, full, x, h)
      {
        h := InsertNext(x, h, params.Address(0, row[k]), row, full, start);
      }
      for k := 0 to params.region[1].numHashes
        invariant h == params.region[0].numHashes + k && mBins == InsertedHashes(params, start, full, x, h)
      {
        h := InsertNext(x, h, params.Address(1, row[k]), row, full, start);
      }
    }

    method InsertNext(x: nat, h: nat, addr: nat, row: seq<nat>, ghost full: seq<nat>, ghost start: seq<Bin>) returns (next: nat)
      requires params.Usable() && |start| == params.Bins() && |row| == params.region[0].numHashes && row <= full
      requires h < HashNumbers(params) && mBins == InsertedHashes(params, start, full, x, h)
      requires addr == if h < params.region[0].numHashes then params.Address(0, row[h])
                       else params.Address(1, row[h - params.region[0].numHashes])
      modifies `mBins
      ensures next == h + 1 && mBins == InsertedHashes(params, start, full, x, next)
    {
      NextHashIn(params, start, row, full, x, h, addr);
      InsertOne(x, h, addr);
      next := h + 1;
    }

    // insertBatch: item j with its row of hashes.
    method InsertBatch(inputIdxs: seq<nat>, hashs: seq<seq<nat>>, ghost hash: nat -> seq<nat>, ghost items: set<nat>)
      returns (ghost items': set<nat>)
      requires Valid(hash, items) && |hashs| == |inputIdxs|
      requires forall j :: 0 <= j < |inputIdxs| ==> |hashs[j]| == params.region[0].numHashes && hashs[j] <= hash(inputIdxs[j])
      modifies `mBins
      ensures items' == items + (set x | x in inputIdxs) && Valid(hash, items')
      ensures GrownFrom(old(mBins), mBins)
      ensures mBins == InsertedItems(params, old(mBins), hash, inputIdxs)
    {
      items' := items;
      ghost var start := mBins;
      for j := 0 to |inputIdxs|
        invariant items' == items + (set x | x in inputIdxs[..j]) && Valid(hash, items')
        invariant BatchGrown(params, start, hash, inputIdxs[..j], mBins)
      {
        ghost var before := mBins;
        InsertItem(inputIdxs[j], hashs[j], hash, items');
        BatchStep(params, start, hash, inputIdxs, j, before, mBins);
        items' := items' + {inputIdxs[j]};
      }
      assert inputIdxs[..|inputIdxs|] == inputIdxs;
    }
  }
}
