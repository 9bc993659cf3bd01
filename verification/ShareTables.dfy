/**
 Sending by table in YYH26: a party fills the row of each of its simple bins, another reads the rows of the
 bins its own items sit in, and whatever was entered for an element both have comes out.
 */
module ShareTables {
  import opened NumberTheory
  import opened HashParameters
  import opened CuckooHashing
  import Simple = SimpleHashing
  import opened BinSets
  import opened BlockRows
  import BitPositions
  import BitSeparation

  // ---------------------------------------------------------------- hashed parties

  // What hashing leaves a party with: the cuckoo bin of each of its items and all simple bins.
  datatype Hashed = Hashed(numbers: seq<nat>, bins: seq<Simple.Bin>)

  // Bin b is where item i sits.
  ghost predicate BinOfItem(bins: seq<nat>, i: nat, b: nat) {
    b < |bins| && bins[b] != EMPTY && IdxOf(bins[b]) == i
  }

  // The party goes through its bins and finds the item of each.
  method BinNumbers(bins: seq<nat>, n: nat) returns (numbers: seq<nat>)
    requires OnceEach(Indices(bins), n)
    ensures |numbers| == n && forall i :: 0 <= i < n ==> BinOfItem(bins, i, numbers[i])
  {
    numbers := seq(n, _ => 0);
    for b := 0 to |bins|
      invariant |numbers| == n
      invariant forall c :: 0 <= c < b && bins[c] != EMPTY && IdxOf(bins[c]) < n ==> BinOfItem(bins, IdxOf(bins[c]), numbers[IdxOf(bins[c])])
    {
      if bins[b] != EMPTY && IdxOf(bins[b]) < n {
        numbers := numbers[IdxOf(bins[b]) := b];
      }
    }
    forall i | 0 <= i < n
      ensures BinOfItem(bins, i, numbers[i])
    {
      var b := OneBinEach(bins, n, i);
    }
  }

  // Every bin's items are items of the set.
  predicate AllKnown(bins: seq<Simple.Bin>, n: nat) {
    forall b :: 0 <= b < |bins| ==> Simple.InRange(bins[b], n)
  }

  // Some hash of item i leads to bin b.
  ghost predicate LeadsTo(p: HashParams, row: seq<nat>, b: nat)
    requires p.Usable() && p.region[0].numHashes <= |row|
  {
    exists h :: 0 <= h < Simple.HashNumbers(p) && Simple.BinOf(p, row, h) == b
  }

  // The tables of a set that hashing went through for.
  ghost predicate HashedSet(p: HashParams, hashes: nat -> seq<nat>, elements: seq<nat>, t: Hashed)
    requires p.Usable() && FullRows(p, hashes)
  {
    && |t.numbers| == |elements| && |t.bins| == p.Bins() && AllKnown(t.bins, |elements|)
    && (forall i :: 0 <= i < |elements| ==> LeadsTo(p, hashes(elements[i]), t.numbers[i]))
    && (forall i, b :: 0 <= i < |elements| && 0 <= b < p.Bins() && LeadsTo(p, hashes(elements[i]), b) ==> i in t.bins[b].mIdx)
  }

  /** One party hashes its set; it goes on exactly when its stash does not overflow. */
  method HashSet(p: HashParams, hashes: nat -> seq<nat>, elements: seq<nat>) returns (r: Option<Hashed>)
    requires p.Usable() && FullRows(p, hashes)
    ensures r.Some? <==> |elements| == p.n && HashingFits(p, ItemHash(elements, hashes))
    ensures r.Some? ==> HashedSet(p, hashes, elements, r.value)
    ensures r.Some? ==> r.value.bins == SimpleTable(p, ItemHash(elements, hashes), p.n)
    ensures r.Some? ==> |r.value.numbers| == |elements| && forall i :: 0 <= i < |elements| ==>
      (var bins, b := CuckooOutcome(p, ItemHash(elements, hashes)).bins, r.value.numbers[i];
       b < |bins| && bins[b] != EMPTY && IdxOf(bins[b]) == i)
  {
    var bins := new BinSet<nat>(p);
    ghost var hash := ItemHash(elements, hashes);
    var ok := bins.Hashing2Bins(elements, hashes, hash);
    if !ok {
      return None;
    }
    var numbers := BinNumbers(bins.mCuckooBins.mBins, |elements|);
    var t := Hashed(numbers, bins.mSimpleBins.mBins);
    IsHashedSet(p, hashes, elements, hash, bins.mCuckooBins, bins.mSimpleBins, t);
    r := Some(t);
  }

  lemma {:induction false} IsHashedSet(p: HashParams, hashes: nat -> seq<nat>, elements: seq<nat>, hash: nat -> seq<nat>,
                                       cuckoo: CuckooHasher, simple: Simple.SimpleHasher, t: Hashed)
    requires p.Usable() && FullRows(p, hashes) && HashesOf(hash, elements, hashes)
    requires cuckoo.params == p && cuckoo.Valid(hash) && simple.params == p && simple.Valid(hash, FirstItems(|elements|))
    requires |t.numbers| == |elements| && forall i :: 0 <= i < |elements| ==> BinOfItem(cuckoo.mBins, i, t.numbers[i])
    requires t.bins == simple.mBins
    ensures HashedSet(p, hashes, elements, t)
  {
    forall i | 0 <= i < |elements|
      ensures LeadsTo(p, hashes(elements[i]), t.numbers[i])
    {
      CuckooLeads(p, cuckoo, hash, i, t.numbers[i]);
    }
    forall b | 0 <= b < |t.bins|
      ensures Simple.InRange(t.bins[b], |elements|)
    {
      ItemsBelow(simple, hash, |elements|, b);
    }
    forall i, b | 0 <= i < |elements| && 0 <= b < p.Bins() && LeadsTo(p, hashes(elements[i]), b)
      ensures i in t.bins[b].mIdx
    {
      assert i in FirstItems(|elements|) by { assert Range(0, |elements|)[i] == i; }
      assert Simple.Placed(p, hash, simple.mBins, i, Simple.HashNumbers(p));
    }
  }

  lemma {:induction false} CuckooLeads(p: HashParams, cuckoo: CuckooHasher, hash: nat -> seq<nat>, i: nat, b: nat)
    requires p.Usable() && cuckoo.params == p && cuckoo.Valid(hash) && BinOfItem(cuckoo.mBins, i, b)
    requires p.region[0].numHashes <= |hash(i)|
    ensures LeadsTo(p, hash(i), b)
  {
    var h := HashOf(cuckoo.mBins[b]);
    var number := if b < p.region[0].binCount then h else p.region[0].numHashes + h;
    assert Simple.BinOf(p, hash(i), number) == b;
  }

  lemma {:induction false} ItemsBelow(simple: Simple.SimpleHasher, hash: nat -> seq<nat>, n: nat, b: nat)
    requires simple.Valid(hash, FirstItems(n)) && b < |simple.mBins|
    ensures Simple.InRange(simple.mBins[b], n)
  {
    var p, bin := simple.params, simple.mBins[b];
    assert Simple.Sound(p, hash, FirstItems(n), b, bin);
    forall s | 0 <= s < |bin.mIdx|
      ensures bin.mIdx[s] < n
    {
      assert Simple.Entry(p, hash, FirstItems(n), b, bin.mIdx[s], bin.hIdx[s]);
    }
  }

  /** A common element is in the sender's simple bin of the number of the receiver's cuckoo bin. */
  lemma {:induction false} SlotOf(p: HashParams, hashes: nat -> seq<nat>, mine: seq<nat>, t: Hashed, theirs: seq<nat>, t': Hashed,
                                  i: nat, j: nat)
    returns (s: nat)
    requires p.Usable() && FullRows(p, hashes) && HashedSet(p, hashes, mine, t) && HashedSet(p, hashes, theirs, t')
    requires i < |mine| && j < |theirs| && mine[i] == theirs[j]
    ensures t.numbers[i] < |t'.bins| && s < |t'.bins[t.numbers[i]].mIdx| && t'.bins[t.numbers[i]].mIdx[s] == j
  {
    var b := t.numbers[i];
    assert LeadsTo(p, hashes(mine[i]), b);
    var idxs := t'.bins[b].mIdx;
    assert j in idxs;
    s :| 0 <= s < |idxs| && idxs[s] == j;
  }

  // ---------------------------------------------------------------- keys

  // One table between two parties: the OPRF value of an element in a bin, and the positions every bin's search ended with.
  datatype Keys = Keys(oprf: (nat, nat) -> nat, pos: nat -> seq<nat>)

  // As many slots as masks, and few enough that a slot number fits in six bits.
  ghost predicate SixBits(p: HashParams) {
    && p.Usable() && forall r :: 0 <= r < 2 ==> p.region[r].maxBinSize == Pow(2, p.region[r].numBits) <= 64
  }

  // The OPRF values of a bin's items.
  function BinValues(bin: Simple.Bin, elements: seq<nat>, keys: Keys, b: nat): (r: seq<nat>)
    requires Simple.InRange(bin, |elements|)
    ensures |r| == |bin.mIdx| && forall s :: 0 <= s < |r| ==> r[s] == keys.oprf(b, elements[bin.mIdx[s]])
  {
    seq<nat>(|bin.mIdx|, s requires 0 <= s < |bin.mIdx| => keys.oprf(b, elements[bin.mIdx[s]]))
  }

  // A search only ends with as many positions as asked for that give the bin's values different masks.
  ghost predicate Searched(p: HashParams, bin: Simple.Bin, elements: seq<nat>, keys: Keys, b: nat)
    requires |p.region| == 2 && Simple.InRange(bin, |elements|)
  {
    |keys.pos(b)| == p.region[RegionOf(p, b)].numBits && BitPositions.NoRepeat(BlockMasks(BinValues(bin, elements, keys, b), keys.pos(b)))
  }

  ghost predicate AllSearched(p: HashParams, bins: seq<Simple.Bin>, elements: seq<nat>, keys: Keys)
    requires |p.region| == 2
  {
    AllKnown(bins, |elements|) && forall b :: 0 <= b < |bins| ==> Searched(p, bins[b], elements, keys, b)
  }

  // A bin whose search ended has at most as many items as its row has slots.
  lemma {:induction false} FewItems(p: HashParams, bin: Simple.Bin, elements: seq<nat>, keys: Keys, b: nat)
    requires SixBits(p) && Simple.InRange(bin, |elements|) && Searched(p, bin, elements, keys, b)
    ensures |bin.mIdx| <= p.region[RegionOf(p, b)].maxBinSize <= 64
  {
    var masks := BlockMasks(BinValues(bin, elements, keys, b), keys.pos(b));
    var all := Range(0, p.region[RegionOf(p, b)].maxBinSize);
    forall x | x in masks
      ensures x in all
    {
      assert all[x] == x;
    }
    BitSeparation.Pigeonhole(masks, all);
  }

  // ---------------------------------------------------------------- sending and reading

  // What is entered for the items of all bins.
  ghost predicate Fitting<T>(bins: seq<Simple.Bin>, entries: seq<seq<T>>) {
    |entries| == |bins| && forall b :: 0 <= b < |bins| ==> |entries[b]| == |bins[b].mIdx|
  }

  // With the OPRF value of an item of bin b one reads that item's entry.
  ghost predicate Offers(row: Row, bin: Simple.Bin, elements: seq<nat>, keys: Keys, b: nat, entries: seq<nat>) {
    && row.Full() && Simple.InRange(bin, |elements|) && |entries| == |bin.mIdx|
    && forall s :: 0 <= s < |bin.mIdx| ==> Slot(row, keys.oprf(b, elements[bin.mIdx[s]])) == entries[s]
  }

  ghost predicate NoMask(row: Row, bin: Simple.Bin, elements: seq<nat>, keys: Keys, b: nat, t: nat)
    requires Simple.InRange(bin, |elements|)
  {
    forall s :: 0 <= s < |bin.mIdx| ==> BlockMask(keys.oprf(b, elements[bin.mIdx[s]]), row.pos) != t
  }

  // Nothing else is in the row.
  ghost predicate NothingElse(row: Row, bin: Simple.Bin, elements: seq<nat>, keys: Keys, b: nat) {
    && row.Full() && row.pos == keys.pos(b) && Simple.InRange(bin, |elements|)
    && forall t :: 0 <= t < |row.slots| && NoMask(row, bin, elements, keys, b, t) ==> row.slots[t] == 0
  }

  /** Whatever is read in a row: the entry of the item whose OPRF value has the same mask, or zero if none has. */
  lemma {:induction false} ReadAnything(row: Row, bin: Simple.Bin, elements: seq<nat>, keys: Keys, b: nat, entries: seq<nat>, v: nat)
    requires Offers(row, bin, elements, keys, b, entries) && NothingElse(row, bin, elements, keys, b)
    ensures forall s :: 0 <= s < |bin.mIdx| && BlockMask(keys.oprf(b, elements[bin.mIdx[s]]), keys.pos(b)) == BlockMask(v, keys.pos(b)) ==>
      Slot(row, v) == entries[s]
    ensures (forall s :: 0 <= s < |bin.mIdx| ==> BlockMask(keys.oprf(b, elements[bin.mIdx[s]]), keys.pos(b)) != BlockMask(v, keys.pos(b))) ==>
      Slot(row, v) == 0
  {
    forall s | 0 <= s < |bin.mIdx| && BlockMask(keys.oprf(b, elements[bin.mIdx[s]]), keys.pos(b)) == BlockMask(v, keys.pos(b))
      ensures Slot(row, v) == entries[s]
    {
      assert Slot(row, keys.oprf(b, elements[bin.mIdx[s]])) == entries[s];
    }
    if forall s :: 0 <= s < |bin.mIdx| ==> BlockMask(keys.oprf(b, elements[bin.mIdx[s]]), keys.pos(b)) != BlockMask(v, keys.pos(b)) {
      assert NoMask(row, bin, elements, keys, b, BlockMask(v, row.pos));
    }
  }

  method SendRow(p: HashParams, bin: Simple.Bin, elements: seq<nat>, keys: Keys, b: nat, entries: seq<nat>) returns (row: Row)
    requires SixBits(p) && Simple.InRange(bin, |elements|) && Searched(p, bin, elements, keys, b) && |entries| == |bin.mIdx|
    ensures Offers(row, bin, elements, keys, b, entries) && NothingElse(row, bin, elements, keys, b)
  {
    var values := BinValues(bin, elements, keys, b);
    row := MakeRow(values, entries, keys.pos(b), p.region[RegionOf(p, b)].maxBinSize);
    forall s | 0 <= s < |bin.mIdx|
      ensures Slot(row, values[s]) == entries[s]
    {
      assert BlockMasks(values, keys.pos(b))[s] == BlockMask(values[s], row.pos);
    }
  }

  /** All bins' rows. */
  method SendRows(p: HashParams, bins: seq<Simple.Bin>, elements: seq<nat>, keys: Keys, entries: seq<seq<nat>>) returns (rows: seq<Row>)
    requires SixBits(p) && AllSearched(p, bins, elements, keys) && Fitting(bins, entries)
    ensures |rows| == |bins| && forall b :: 0 <= b < |bins| ==> rows[b].Full()
    ensures forall b, s :: 0 <= b < |bins| && 0 <= s < |bins[b].mIdx| ==>
      Slot(rows[b], keys.oprf(b, elements[bins[b].mIdx[s]])) == entries[b][s]
  {
    rows := [];
    for b := 0 to |bins|
      invariant |rows| == b && forall c :: 0 <= c < b ==> Offers(rows[c], bins[c], elements, keys, c, entries[c])
    {
      var row := SendRow(p, bins[b], elements, keys, b, entries[b]);
      rows := rows + [row];
    }
  }
}
