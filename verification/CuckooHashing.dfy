/**
 Cuckoo hashing of XZH26 (and its twin copy in YYH26): batched insertion that swaps words into the
 bins, compacts what was evicted and tries the evicted items at their next hash, first in the main
 region and then, for what is left over, in the stash region.
 */
module CuckooHashing {
  import opened HashParameters

  // ---------------------------------------------------------------- bin words

  const INDEX_FIELD: nat := 0x100_0000_0000_0000
  const EMPTY: nat := 0xFFFF_FFFF_FFFF_FFFF

  // A bin word: the item's index in the low 56 bits, the hash that placed it in the top 8.
  function Encode(idx: nat, h: nat): nat {
    idx + h * INDEX_FIELD
  }

  function IdxOf(v: nat): nat {
    v % INDEX_FIELD
  }

  function HashOf(v: nat): nat {
    v / INDEX_FIELD
  }

  /** Decoding undoes encoding, and no word of a real item looks like an empty bin. */
  lemma {:induction false} DecodeEncode(idx: nat, h: nat)
    requires idx < INDEX_FIELD && h < 255
    ensures IdxOf(Encode(idx, h)) == idx && HashOf(Encode(idx, h)) == h
    ensures Encode(idx, h) < EMPTY && Encode(idx, h) == h * 0x100_0000_0000_0000 + idx
  {
    var v := Encode(idx, h);
    assert v / INDEX_FIELD == h;
  }

  /** The same three operations on machine words: the sum is the bitwise or the source writes, and
      remainder and quotient are its mask and its shift. */
  lemma WordLayout(idx: bv64, h: bv64)
    requires idx <= 0xFF_FFFF_FFFF_FFFF && h <= 0xFF
    ensures (idx | (h << 56)) == idx + (h << 56)
    ensures (idx | (h << 56)) & (0xFFFF_FFFF_FFFF_FFFF >> 8) == idx
    ensures (idx | (h << 56)) >> 56 == h
  {}

  // ---------------------------------------------------------------- what a list of words holds

  function One(v: nat): multiset<nat> {
    if v == EMPTY then multiset{} else multiset{IdxOf(v)}
  }

  // The item indices stored in a list of words, with multiplicity.
  function Indices(ws: seq<nat>): multiset<nat> {
    if |ws| == 0 then multiset{} else Indices(ws[..|ws| - 1]) + One(ws[|ws| - 1])
  }

  lemma {:induction false} IndicesSnoc(ws: seq<nat>, v: nat)
    ensures Indices(ws + [v]) == Indices(ws) + One(v)
  {
    assert (ws + [v])[..|ws|] == ws;
  }

  lemma {:induction false} AddBoth(a: multiset<nat>, b: multiset<nat>, x: multiset<nat>, y: multiset<nat>, c: multiset<nat>)
    requires a + x == b + y
    ensures (a + c) + x == (b + c) + y
  {
    assert (a + c) + x == (a + x) + c;
    assert (b + c) + y == (b + y) + c;
  }

  // Overwriting one word exchanges its item for the new one's.
  lemma {:induction false} IndicesUpdate(ws: seq<nat>, i: nat, v: nat)
    requires i < |ws|
    ensures Indices(ws[i := v]) + One(ws[i]) == Indices(ws) + One(v)
  {
    var n := |ws| - 1;
    var us, c := ws[i := v], One(ws[n]);
    if i == n {
      assert us[..n] == ws[..n];
      assert us[n] == v;
      var a, x := Indices(ws[..n]), One(v);
      assert Indices(us) == a + x && Indices(ws) == a + c;
      assert (a + x) + c == (a + c) + x;
    } else {
      var a := Indices(ws[..n]);
      assert us[..n] == ws[..n][i := v];
      assert ws[..n][i] == ws[i];
      IndicesUpdate(ws[..n], i, v);
      assert us[n] == ws[n];
      AddBoth(Indices(us[..n]), a, One(ws[i]), One(v), c);
    }
  }

  lemma {:induction false} IndicesEmpty(n: nat)
    ensures Indices(seq(n, _ => EMPTY)) == multiset{}
  {
    if n > 0 {
      assert seq(n, _ => EMPTY)[..n - 1] == seq(n - 1, _ => EMPTY);
      IndicesEmpty(n - 1);
    }
  }

  // An occupied word's item is held.
  lemma {:induction false} IndicesHas(ws: seq<nat>, b: nat)
    requires b < |ws| && ws[b] != EMPTY
    ensures IdxOf(ws[b]) in Indices(ws)
  {
    if b < |ws| - 1 {
      IndicesHas(ws[..|ws| - 1], b);
    }
  }

  // A held item is some occupied word's.
  lemma {:induction false} IndicesAt(ws: seq<nat>, x: nat) returns (b: nat)
    requires x in Indices(ws)
    ensures b < |ws| && ws[b] != EMPTY && IdxOf(ws[b]) == x
  {
    var n := |ws| - 1;
    if x in Indices(ws[..n]) {
      b := IndicesAt(ws[..n], x);
    } else {
      b := n;
    }
  }

  // Two different bins carrying one index show up as multiplicity at least two.
  lemma {:induction false} IndicesTwice(ws: seq<nat>, a: nat, b: nat)
    requires a < b < |ws| && ws[a] != EMPTY && ws[b] != EMPTY && IdxOf(ws[a]) == IdxOf(ws[b])
    ensures Indices(ws)[IdxOf(ws[a])] >= 2
  {
    var n := |ws| - 1;
    var rest := Indices(ws[..n]);
    assert Indices(ws) == rest + One(ws[n]);
    if b == n {
      IndicesHas(ws[..n], a);
    } else {
      assert rest[IdxOf(ws[a])] >= 2 by { IndicesTwice(ws[..n], a, b); }
    }
  }

  // The occupied words, in order.
  function Kept(ws: seq<nat>): (r: seq<nat>)
    ensures |r| <= |ws|
  {
    if |ws| == 0 then []
    else Kept(ws[..|ws| - 1]) + (if ws[|ws| - 1] == EMPTY then [] else [ws[|ws| - 1]])
  }

  lemma {:induction false} KeptSnoc(ws: seq<nat>, k: nat)
    requires k < |ws|
    ensures Kept(ws[..k + 1]) == Kept(ws[..k]) + (if ws[k] == EMPTY then [] else [ws[k]])
  {
    assert ws[..k + 1][..k] == ws[..k];
  }

  lemma {:induction false} KeptFrom(ws: seq<nat>, k: nat)
    requires k < |Kept(ws)|
    ensures Kept(ws)[k] != EMPTY && Kept(ws)[k] in ws
  {
    var n := |ws| - 1;
    if k < |Kept(ws[..n])| {
      KeptFrom(ws[..n], k);
    }
  }

  lemma TakeSnoc(ws: seq<nat>, k: nat)
    requires k < |ws|
    ensures ws[..k + 1] == ws[..k] + [ws[k]]
  {}

  lemma TakeAll(ws: seq<nat>)
    ensures ws[..|ws|] == ws
  {}

  function IdxSeq(ws: seq<nat>): (r: seq<nat>)
    ensures |r| == |ws|
  {
    seq(|ws|, i requires 0 <= i < |ws| => IdxOf(ws[i]))
  }

  // Compaction keeps exactly the items of the list.
  lemma {:induction false} KeptIndices(ws: seq<nat>)
    ensures multiset(IdxSeq(Kept(ws))) == Indices(ws)
  {
    if |ws| > 0 {
      var n := |ws| - 1;
      KeptIndices(ws[..n]);
      if ws[n] != EMPTY {
        assert IdxSeq(Kept(ws)) == IdxSeq(Kept(ws[..n])) + [IdxOf(ws[n])];
      } else {
        assert Kept(ws) == Kept(ws[..n]);
      }
    }
  }

  // ---------------------------------------------------------------- seated items

  // The row of hashes stored for an item is the one its hash function gives.
  ghost predicate Known(p: HashParams, rows: seq<seq<nat>>, hash: nat -> seq<nat>, r: nat, idx: nat)
    requires r < |p.region|
  {
    idx < |rows| && p.region[r].numHashes <= |hash(idx)| && rows[idx] == hash(idx)[..p.region[r].numHashes]
  }

  ghost predicate Item(p: HashParams, rows: seq<seq<nat>>, hash: nat -> seq<nat>, r: nat, v: nat)
    requires r < |p.region|
  {
    v != EMPTY && Known(p, rows, hash, r, IdxOf(v)) && HashOf(v) < p.region[r].numHashes
  }

  // Every occupied bin of region r sits where one of its item's hashes points.
  ghost predicate Seated(p: HashParams, bins: seq<nat>, rows: seq<seq<nat>>, hash: nat -> seq<nat>, r: nat)
    requires r < 2 && p.Usable() && |bins| == p.Bins()
  {
    forall b :: p.Base(r) <= b < p.Base(r) + p.region[r].binCount && bins[b] != EMPTY ==>
      Item(p, rows, hash, r, bins[b]) && p.Address(r, hash(IdxOf(bins[b]))[HashOf(bins[b])]) == b
  }

  // The work arrays of one batch.
  class Workspace {
    const curAddrs: array<nat>
    const curHashIdxs: array<nat>
    const oldVals: array<nat>

    constructor (n: nat)
      ensures fresh(curAddrs) && fresh(curHashIdxs) && fresh(oldVals)
      ensures curAddrs.Length == curHashIdxs.Length == oldVals.Length == n && Separate()
    {
      curAddrs := new nat[n];
      curHashIdxs := new nat[n];
      oldVals := new nat[n];
    }

    ghost predicate Separate() {
      curAddrs != curHashIdxs && curAddrs != oldVals && curHashIdxs != oldVals
    }

    ghost predicate For(inputIdxs: array<nat>) {
      && Separate() && inputIdxs != curAddrs && inputIdxs != curHashIdxs && inputIdxs != oldVals
      && curAddrs.Length == curHashIdxs.Length == oldVals.Length == inputIdxs.Length
    }
  }

  function NextHash(v: nat, numHashes: nat): nat
    requires numHashes > 0
  {
    (1 + HashOf(v)) % numHashes
  }

  // The next hash is the one after, or the first one after the last.
  lemma {:induction false} NextHashIs(v: nat, numHashes: nat)
    requires HashOf(v) < numHashes
    ensures NextHash(v, numHashes) == if HashOf(v) + 1 == numHashes then 0 else HashOf(v) + 1
  {
    if HashOf(v) + 1 < numHashes {
      SmallMod(1 + HashOf(v), numHashes);
    }
  }

  lemma SmallMod(a: nat, n: nat)
    requires a < n
    ensures a % n == a
  {
  }

  lemma {:induction false} RequeuedIs(ws: seq<nat>, numHashes: nat)
    requires numHashes > 0
    ensures forall k :: 0 <= k < |ws| && HashOf(ws[k]) < numHashes ==>
      NextHash(ws[k], numHashes) == if HashOf(ws[k]) + 1 == numHashes then 0 else HashOf(ws[k]) + 1
  {
    forall k | 0 <= k < |ws| && HashOf(ws[k]) < numHashes
      ensures NextHash(ws[k], numHashes) == if HashOf(ws[k]) + 1 == numHashes then 0 else HashOf(ws[k]) + 1
    {
      NextHashIs(ws[k], numHashes);
    }
  }

  // The first entries of the two arrays are the items of ws, each set to its next hash.
  ghost predicate Requeued(inputIdxs: array<nat>, hashIdxs: array<nat>, ws: seq<nat>, numHashes: nat)
    requires numHashes > 0
    reads inputIdxs, hashIdxs
  {
    && |ws| <= inputIdxs.Length && |ws| <= hashIdxs.Length
    && forall k :: 0 <= k < |ws| ==> inputIdxs[k] == IdxOf(ws[k]) && hashIdxs[k] == NextHash(ws[k], numHashes)
  }

  // An evicted word becomes input number |ws|, to be placed at its next hash.
  method Requeue(inputIdxs: array<nat>, hashIdxs: array<nat>, at: nat, v: nat, numHashes: nat, ghost ws: seq<nat>)
    requires inputIdxs != hashIdxs && numHashes > 0 && at < inputIdxs.Length && at < hashIdxs.Length
    requires |ws| == at && Requeued(inputIdxs, hashIdxs, ws, numHashes)
    modifies inputIdxs, hashIdxs
    ensures Requeued(inputIdxs, hashIdxs, ws + [v], numHashes)
  {
    inputIdxs[at] := IdxOf(v);
    hashIdxs[at] := (1 + HashOf(v)) % numHashes;
  }

  // The loop that follows an exchange: what was evicted moves to the front, in order, as the
  // inputs of the next try.
  method Compact(inputIdxs: array<nat>, w: Workspace, remaining: nat, numHashes: nat) returns (putIdx: nat)
    requires w.For(inputIdxs) && remaining <= inputIdxs.Length && numHashes > 0
    modifies inputIdxs, w.curHashIdxs, w.oldVals
    ensures putIdx == |Kept(old(w.oldVals[..remaining]))|
    ensures Requeued(inputIdxs, w.curHashIdxs, Kept(old(w.oldVals[..remaining])), numHashes)
    ensures putIdx <= inputIdxs.Length && forall k :: 0 <= k < putIdx ==>
      var v := Kept(old(w.oldVals[..remaining]))[k];
      inputIdxs[k] == IdxOf(v) && (HashOf(v) < numHashes ==> w.curHashIdxs[k] == if HashOf(v) + 1 == numHashes then 0 else HashOf(v) + 1)
  {
    ghost var olds := w.oldVals[..remaining];
    RequeuedIs(Kept(olds), numHashes);
    putIdx := CompactPrefix(inputIdxs, w, remaining, numHashes, olds);
    if putIdx >= remaining {
      TakeAll(olds);
      return;
    }
    KeptSnoc(olds, putIdx);
    putIdx := CompactRest(inputIdxs, w, putIdx, remaining, numHashes, olds, olds[..putIdx]);
  }

  // Past the first gap: the words still to come move into the gap.
  method CompactRest(inputIdxs: array<nat>, w: Workspace, start: nat, remaining: nat, numHashes: nat,
                     ghost olds: seq<nat>, ghost prefix: seq<nat>)
    returns (putIdx: nat)
    requires w.For(inputIdxs) && numHashes > 0 && remaining == |olds| && start == |prefix|
    requires Halfway(w.oldVals, olds, prefix, start + 1) && Requeued(inputIdxs, w.curHashIdxs, prefix, numHashes)
    modifies inputIdxs, w.curHashIdxs, w.oldVals
    ensures putIdx == |Kept(olds)| && Requeued(inputIdxs, w.curHashIdxs, Kept(olds), numHashes)
  {
    putIdx := start;
    var getIdx := putIdx + 1;
    ghost var kept := prefix;
    while getIdx < remaining
      invariant putIdx == |kept| && Halfway(w.oldVals, olds, kept, getIdx)
      invariant Requeued(inputIdxs, w.curHashIdxs, kept, numHashes)
    {
      getIdx := SkipEmpty(w.oldVals, getIdx, remaining, olds, kept);
      if getIdx >= remaining {
        break;
      }
      kept := MoveForward(inputIdxs, w, putIdx, getIdx, numHashes, olds, kept);
      putIdx := putIdx + 1;
      getIdx := getIdx + 1;
    }
    TakeAll(olds);
  }

  // The array halfway through compaction: kept words, then a gap, then what is still to be read.
  ghost predicate Halfway(oldVals: array<nat>, olds: seq<nat>, kept: seq<nat>, getIdx: nat)
    reads oldVals
  {
    && |kept| < getIdx <= |olds| <= oldVals.Length
    && Kept(olds[..getIdx]) == kept
    && (forall k :: |kept| <= k < getIdx ==> oldVals[k] == EMPTY)
    && (forall k :: getIdx <= k < |olds| ==> oldVals[k] == olds[k])
  }

  ghost predicate Copy(oldVals: array<nat>, olds: seq<nat>)
    reads oldVals
  {
    |olds| <= oldVals.Length && forall k :: 0 <= k < |olds| ==> oldVals[k] == olds[k]
  }

  method CompactPrefix(inputIdxs: array<nat>, w: Workspace, remaining: nat, numHashes: nat, ghost olds: seq<nat>)
    returns (putIdx: nat)
    requires w.For(inputIdxs) && numHashes > 0 && remaining == |olds| && Copy(w.oldVals, olds)
    modifies inputIdxs, w.curHashIdxs
    ensures putIdx <= remaining && Requeued(inputIdxs, w.curHashIdxs, olds[..putIdx], numHashes)
    ensures Kept(olds[..putIdx]) == olds[..putIdx]
    ensures putIdx < remaining ==> olds[putIdx] == EMPTY
  {
    putIdx := 0;
    while putIdx < remaining && w.oldVals[putIdx] != EMPTY
      invariant putIdx <= remaining
      invariant Kept(olds[..putIdx]) == olds[..putIdx]
      invariant Requeued(inputIdxs, w.curHashIdxs, olds[..putIdx], numHashes)
    {
      KeptSnoc(olds, putIdx);
      TakeSnoc(olds, putIdx);
      Requeue(inputIdxs, w.curHashIdxs, putIdx, w.oldVals[putIdx], numHashes, olds[..putIdx]);
      putIdx := putIdx + 1;
    }
  }

  method SkipEmpty(oldVals: array<nat>, start: nat, remaining: nat, ghost olds: seq<nat>, ghost kept: seq<nat>)
    returns (getIdx: nat)
    requires remaining == |olds| && Halfway(oldVals, olds, kept, start)
    ensures getIdx < |olds| ==> oldVals[getIdx] != EMPTY
    ensures Halfway(oldVals, olds, kept, getIdx)
  {
    getIdx := start;
    while getIdx < remaining && oldVals[getIdx] == EMPTY
      invariant Halfway(oldVals, olds, kept, getIdx)
    {
      KeptSnoc(olds, getIdx);
      getIdx := getIdx + 1;
    }
  }

  method MoveForward(inputIdxs: array<nat>, w: Workspace, putIdx: nat, getIdx: nat, numHashes: nat,
                     ghost olds: seq<nat>, ghost kept: seq<nat>)
    returns (ghost kept': seq<nat>)
    requires w.For(inputIdxs) && numHashes > 0 && getIdx < |olds| && putIdx == |kept|
    requires Halfway(w.oldVals, olds, kept, getIdx) && w.oldVals[getIdx] != EMPTY
    requires Requeued(inputIdxs, w.curHashIdxs, kept, numHashes)
    modifies inputIdxs, w.curHashIdxs, w.oldVals
    ensures |kept'| == putIdx + 1 && Halfway(w.oldVals, olds, kept', getIdx + 1)
    ensures Requeued(inputIdxs, w.curHashIdxs, kept', numHashes)
  {
    KeptSnoc(olds, getIdx);
    kept' := kept + [olds[getIdx]];
    Requeue(inputIdxs, w.curHashIdxs, putIdx, w.oldVals[getIdx], numHashes, kept);
    w.oldVals[putIdx], w.oldVals[getIdx] := w.oldVals[getIdx], w.oldVals[putIdx];
  }

  // ---------------------------------------------------------------- one exchange

  lemma {:induction false} ConserveStep(a: multiset<nat>, a': multiset<nat>, o: multiset<nat>, x: multiset<nat>,
                     os: multiset<nat>, start: multiset<nat>, xs: multiset<nat>)
    requires a' + o == a + x && a + os == start + xs
    ensures a' + (os + o) == start + (xs + x)
  {
    assert a' + (os + o) == (a' + o) + os == (a + x) + os == (a + os) + x == (start + xs) + x;
  }

  // An input: an item and the hash it is to be placed with.
  datatype Input = Input(idx: nat, h: nat)

  // Inputs the region can place: their hash rows are known and the hash number is in range.
  ghost predicate Placeable(p: HashParams, rows: seq<seq<nat>>, hash: nat -> seq<nat>, r: nat, ins: seq<Input>)
    requires r < |p.region|
  {
    forall k :: 0 <= k < |ins| ==> Known(p, rows, hash, r, ins[k].idx) && ins[k].h < p.region[r].numHashes
  }

  // The bins and the displaced words after every input was written into its bin, in order.
  datatype Exchanged = Exchanged(bins: seq<nat>, olds: seq<nat>)

  ghost predicate Fetchable(p: HashParams, bins: seq<nat>, rows: seq<seq<nat>>, r: nat, ins: seq<Input>) {
    && r < 2 && p.Usable() && |bins| == p.Bins()
    && forall k :: 0 <= k < |ins| ==> ins[k].idx < |rows| && ins[k].h < |rows[ins[k].idx]|
  }

  ghost function Exchanges(p: HashParams, bins: seq<nat>, rows: seq<seq<nat>>, r: nat, ins: seq<Input>): (e: Exchanged)
    requires Fetchable(p, bins, rows, r, ins)
    ensures |e.bins| == |bins| && |e.olds| == |ins|
  {
    if |ins| == 0 then Exchanged(bins, [])
    else
      var x := ins[|ins| - 1];
      var e := Exchanges(p, bins, rows, r, ins[..|ins| - 1]);
      var a := p.Address(r, rows[x.idx][x.h]);
      Exchanged(e.bins[a := Encode(x.idx, x.h)], e.olds + [e.bins[a]])
  }

  function Items(ins: seq<Input>): (idxs: seq<nat>)
    ensures |idxs| == |ins|
  {
    seq(|ins|, k requires 0 <= k < |ins| => ins[k].idx)
  }

  ghost predicate AllItems(p: HashParams, rows: seq<seq<nat>>, hash: nat -> seq<nat>, r: nat, ws: seq<nat>)
    requires r < |p.region|
  {
    forall k :: 0 <= k < |ws| && ws[k] != EMPTY ==> Item(p, rows, hash, r, ws[k])
  }

  // Only bins of region r differ.
  ghost predicate SameElsewhere(p: HashParams, bins: seq<nat>, bins': seq<nat>, r: nat)
    requires r < 2 && p.Usable()
  {
    |bins| == |bins'| == p.Bins() &&
    forall b :: 0 <= b < |bins| && !(p.Base(r) <= b < p.Base(r) + p.region[r].binCount) ==> bins[b] == bins'[b]
  }

  // Writing an item's word into the bin its hash points to.
  lemma SeatOne(p: HashParams, bins: seq<nat>, rows: seq<seq<nat>>, hash: nat -> seq<nat>, r: nat, b: nat, v: nat)
    requires r < 2 && p.Usable() && |bins| == p.Bins() && Seated(p, bins, rows, hash, r)
    requires Item(p, rows, hash, r, v) && b == p.Address(r, hash(IdxOf(v))[HashOf(v)])
    ensures Seated(p, bins[b := v], rows, hash, r)
    ensures SameElsewhere(p, bins, bins[b := v], r)
  {}

  // One exchange: the new word is seated, and the word it displaced was an item of the region.
  lemma {:induction false} ExchangeStep(p: HashParams, bins: seq<nat>, rows: seq<seq<nat>>, hash: nat -> seq<nat>,
                                        r: nat, idx: nat, h: nat)
    requires r < 2 && p.Usable() && |bins| == p.Bins() && |rows| == p.n && Seated(p, bins, rows, hash, r)
    requires Known(p, rows, hash, r, idx) && h < p.region[r].numHashes
    ensures var b := p.Address(r, hash(idx)[h]);
      && Seated(p, bins[b := Encode(idx, h)], rows, hash, r)
      && SameElsewhere(p, bins, bins[b := Encode(idx, h)], r)
      && (bins[b] != EMPTY ==> Item(p, rows, hash, r, bins[b]))
      && Indices(bins[b := Encode(idx, h)]) + One(bins[b]) == Indices(bins) + multiset{idx}
  {
    var b := p.Address(r, hash(idx)[h]);
    DecodeEncode(idx, h);
    SeatOne(p, bins, rows, hash, r, b, Encode(idx, h));
    IndicesUpdate(bins, b, Encode(idx, h));
  }

  // What an exchange started from `bins` with the items xs has kept so far.
  ghost predicate Conserves(p: HashParams, bins: seq<nat>, rows: seq<seq<nat>>, hash: nat -> seq<nat>, r: nat,
                            xs: seq<nat>, e: Exchanged)
    requires r < 2 && p.Usable()
  {
    && |e.bins| == p.Bins() && Seated(p, e.bins, rows, hash, r) && AllItems(p, rows, hash, r, e.olds)
    && SameElsewhere(p, bins, e.bins, r)
    && Indices(e.bins) + Indices(e.olds) == Indices(bins) + multiset(xs)
  }

  lemma {:induction false} ConservesSnoc(p: HashParams, bins: seq<nat>, rows: seq<seq<nat>>, hash: nat -> seq<nat>,
                                         r: nat, xs: seq<nat>, e: Exchanged, x: Input)
    requires r < 2 && p.Usable() && |rows| == p.n && Conserves(p, bins, rows, hash, r, xs, e)
    requires Known(p, rows, hash, r, x.idx) && x.h < p.region[r].numHashes
    ensures var a := p.Address(r, rows[x.idx][x.h]);
      Conserves(p, bins, rows, hash, r, xs + [x.idx], Exchanged(e.bins[a := Encode(x.idx, x.h)], e.olds + [e.bins[a]]))
  {
    var a, v := p.Address(r, hash(x.idx)[x.h]), Encode(x.idx, x.h);
    ExchangeStep(p, e.bins, rows, hash, r, x.idx, x.h);
    AllItemsSnoc(p, rows, hash, r, e.olds, e.bins[a]);
    IndicesSnoc(e.olds, e.bins[a]);
    ConserveStep(Indices(e.bins), Indices(e.bins[a := v]), One(e.bins[a]), multiset{x.idx},
                 Indices(e.olds), Indices(bins), multiset(xs));
  }

  /** A whole exchange loses and duplicates nothing, leaves every occupied bin on one of its item's
      hashes, displaces only items of the region and does not touch the other region. */
  lemma {:induction false} ExchangeConserves(p: HashParams, bins: seq<nat>, rows: seq<seq<nat>>, hash: nat -> seq<nat>,
                                             r: nat, ins: seq<Input>)
    requires r < 2 && p.Usable() && |bins| == p.Bins() && |rows| == p.n && Seated(p, bins, rows, hash, r)
    requires Placeable(p, rows, hash, r, ins)
    ensures Conserves(p, bins, rows, hash, r, Items(ins), Exchanges(p, bins, rows, r, ins))
  {
    if |ins| == 0 {
      assert Items(ins) == [];
    } else {
      var n := |ins| - 1;
      ExchangeConserves(p, bins, rows, hash, r, ins[..n]);
      ConservesSnoc(p, bins, rows, hash, r, Items(ins[..n]), Exchanges(p, bins, rows, r, ins[..n]), ins[n]);
      ItemsSnoc(ins);
    }
  }

  lemma ItemsSnoc(ins: seq<Input>)
    requires |ins| > 0
    ensures Items(ins) == Items(ins[..|ins| - 1]) + [ins[|ins| - 1].idx]
  {}

  lemma {:induction false} AllItemsSnoc(p: HashParams, rows: seq<seq<nat>>, hash: nat -> seq<nat>, r: nat, ws: seq<nat>, v: nat)
    requires r < |p.region| && AllItems(p, rows, hash, r, ws) && (v != EMPTY ==> Item(p, rows, hash, r, v))
    ensures AllItems(p, rows, hash, r, ws + [v])
  {
    forall k | 0 <= k < |ws| + 1 && (ws + [v])[k] != EMPTY
      ensures Item(p, rows, hash, r, (ws + [v])[k])
    {
      if k < |ws| {
        assert (ws + [v])[k] == ws[k];
      }
    }
  }

  // Bins of the other region stay seated.
  lemma OtherRegion(p: HashParams, bins: seq<nat>, bins': seq<nat>, rows: seq<seq<nat>>, hash: nat -> seq<nat>, r: nat)
    requires r < 2 && p.Usable() && SameElsewhere(p, bins, bins', r) && Seated(p, bins, rows, hash, 1 - r)
    ensures Seated(p, bins', rows, hash, 1 - r)
  {}

  // ---------------------------------------------------------------- from one round to the next

  // The arrays hold the inputs `ins` at their front.
  ghost predicate Holds(inputIdxs: array<nat>, hashIdxs: array<nat>, ins: seq<Input>)
    reads inputIdxs, hashIdxs
  {
    && |ins| <= inputIdxs.Length && |ins| <= hashIdxs.Length
    && forall k :: 0 <= k < |ins| ==> inputIdxs[k] == ins[k].idx && hashIdxs[k] == ins[k].h
  }

  function NextInputs(ws: seq<nat>, numHashes: nat): (ins: seq<Input>)
    requires numHashes > 0
    ensures |ins| == |ws|
  {
    seq(|ws|, k requires 0 <= k < |ws| => Input(IdxOf(ws[k]), NextHash(ws[k], numHashes)))
  }

  // An evicted word comes back with its item's next hash.
  lemma {:induction false} NextInputIs(ws: seq<nat>, numHashes: nat, k: nat)
    requires k < |ws| && HashOf(ws[k]) < numHashes
    ensures NextInputs(ws, numHashes)[k] == Input(IdxOf(ws[k]), if HashOf(ws[k]) + 1 == numHashes then 0 else HashOf(ws[k]) + 1)
  {
    NextHashIs(ws[k], numHashes);
  }

  lemma RequeuedHolds(inputIdxs: array<nat>, hashIdxs: array<nat>, ws: seq<nat>, numHashes: nat)
    requires numHashes > 0 && Requeued(inputIdxs, hashIdxs, ws, numHashes)
    ensures Holds(inputIdxs, hashIdxs, NextInputs(ws, numHashes))
  {}

  // The displaced items can be placed again, at their next hash, and are all of the displaced items.
  lemma {:induction false} NextRound(p: HashParams, rows: seq<seq<nat>>, hash: nat -> seq<nat>, r: nat, olds: seq<nat>)
    requires r < 2 && p.Usable() && AllItems(p, rows, hash, r, olds)
    ensures var next := NextInputs(Kept(olds), p.region[r].numHashes);
      Placeable(p, rows, hash, r, next) && multiset(Items(next)) == Indices(olds)
  {
    var numHashes := p.region[r].numHashes;
    var next := NextInputs(Kept(olds), numHashes);
    forall k | 0 <= k < |next|
      ensures Known(p, rows, hash, r, next[k].idx) && next[k].h < numHashes
    {
      KeptFrom(olds, k);
      var j :| 0 <= j < |olds| && olds[j] == Kept(olds)[k];
      assert Item(p, rows, hash, r, olds[j]);
    }
    assert Items(next) == IdxSeq(Kept(olds));
    KeptIndices(olds);
  }

  // Bins and inputs ready for a round in region r.
  ghost predicate Ready(p: HashParams, bins: seq<nat>, rows: seq<seq<nat>>, others: seq<seq<nat>>,
                        hash: nat -> seq<nat>, r: nat, ins: seq<Input>)
    requires r < 2
  {
    && p.Usable() && |bins| == p.Bins() && |rows| == p.n
    && Seated(p, bins, rows, hash, r) && Seated(p, bins, others, hash, 1 - r)
    && Placeable(p, rows, hash, r, ins)
  }

  // What one round does to the bins, and the inputs it leaves.
  lemma {:induction false} RoundConserves(p: HashParams, bins: seq<nat>, rows: seq<seq<nat>>, others: seq<seq<nat>>,
                                          hash: nat -> seq<nat>, r: nat, ins: seq<Input>)
    returns (next: seq<Input>)
    requires r < 2 && Ready(p, bins, rows, others, hash, r, ins)
    ensures Fetchable(p, bins, rows, r, ins)
    ensures var e := Exchanges(p, bins, rows, r, ins);
      && next == NextInputs(Kept(e.olds), p.region[r].numHashes)
      && Ready(p, e.bins, rows, others, hash, r, next)
      && Indices(e.bins) + multiset(Items(next)) == Indices(bins) + multiset(Items(ins))
  {
    var e := Exchanges(p, bins, rows, r, ins);
    next := NextInputs(Kept(e.olds), p.region[r].numHashes);
    ExchangeConserves(p, bins, rows, hash, r, ins);
    OtherRegion(p, bins, e.bins, others, hash, r);
    NextRound(p, rows, hash, r, e.olds);
  }

  datatype Progress = Progress(bins: seq<nat>, left: seq<Input>)

  /** What the rounds of one batch compute: until nothing is left or the tries are used up, every input
      is exchanged for its bin's word and the words that came out are the next inputs, in order, each
      at its item's next hash. */
  ghost function AfterRounds(p: HashParams, bins: seq<nat>, rows: seq<seq<nat>>, r: nat, ins: seq<Input>, tries: nat): Progress
    requires p.Usable() && r < 2
    decreases tries
  {
    if tries == 0 || |ins| == 0 || !Fetchable(p, bins, rows, r, ins) then Progress(bins, ins)
    else
      var e := Exchanges(p, bins, rows, r, ins);
      AfterRounds(p, e.bins, rows, r, NextInputs(Kept(e.olds), p.region[r].numHashes), tries - 1)
  }

  lemma {:induction false} AfterRoundsStep(p: HashParams, bins: seq<nat>, rows: seq<seq<nat>>, r: nat, ins: seq<Input>,
                                           next: seq<Input>, tries: nat, tries': nat)
    requires p.Usable() && r < 2 && Fetchable(p, bins, rows, r, ins) && |ins| > 0 && tries == tries' + 1
    requires next == NextInputs(Kept(Exchanges(p, bins, rows, r, ins).olds), p.region[r].numHashes)
    ensures AfterRounds(p, Exchanges(p, bins, rows, r, ins).bins, rows, r, next, tries') == AfterRounds(p, bins, rows, r, ins, tries)
  {
    assert tries - 1 == tries';
  }

  // Without inputs or tries nothing happens.
  lemma {:induction false} RoundsEnd(p: HashParams, bins: seq<nat>, rows: seq<seq<nat>>, r: nat, ins: seq<Input>, tries: nat)
    requires p.Usable() && r < 2 && (tries == 0 || |ins| == 0)
    ensures AfterRounds(p, bins, rows, r, ins, tries) == Progress(bins, ins)
  {
  }

  // ---------------------------------------------------------------- where words end up

  // The bin an input goes to.
  function Target(p: HashParams, rows: seq<seq<nat>>, r: nat, x: Input): nat
    requires r < 2 && p.Usable() && x.idx < |rows| && x.h < |rows[x.idx]|
  {
    p.Address(r, rows[x.idx][x.h])
  }

  lemma TargetIs(p: HashParams, rows: seq<seq<nat>>, r: nat, x: Input)
    requires r < 2 && p.Usable() && x.idx < |rows| && x.h < |rows[x.idx]|
    ensures Target(p, rows, r, x) == rows[x.idx][x.h] % p.region[r].binCount + if r == 0 then 0 else p.region[0].binCount
  {
  }

  // A bin no input goes to keeps its word.
  lemma {:induction false} BinUntouched(p: HashParams, bins: seq<nat>, rows: seq<seq<nat>>, r: nat, ins: seq<Input>, b: nat)
    requires Fetchable(p, bins, rows, r, ins) && b < |bins|
    requires forall j :: 0 <= j < |ins| ==> Target(p, rows, r, ins[j]) != b
    ensures Exchanges(p, bins, rows, r, ins).bins[b] == bins[b]
  {
    if |ins| > 0 {
      BinUntouched(p, bins, rows, r, ins[..|ins| - 1], b);
    }
  }

  // The last input that goes to a bin stays in it.
  lemma {:induction false} BinWritten(p: HashParams, bins: seq<nat>, rows: seq<seq<nat>>, r: nat, ins: seq<Input>, k: nat)
    requires Fetchable(p, bins, rows, r, ins) && k < |ins|
    requires forall j :: k < j < |ins| ==> Target(p, rows, r, ins[j]) != Target(p, rows, r, ins[k])
    ensures Target(p, rows, r, ins[k]) < |bins|
    ensures Exchanges(p, bins, rows, r, ins).bins[Target(p, rows, r, ins[k])] == Encode(ins[k].idx, ins[k].h)
  {
    if k < |ins| - 1 {
      BinWritten(p, bins, rows, r, ins[..|ins| - 1], k);
    }
  }

  // What an input displaces is what its bin holds once the inputs before it are written.
  lemma {:induction false} DisplacedAt(p: HashParams, bins: seq<nat>, rows: seq<seq<nat>>, r: nat, ins: seq<Input>, k: nat)
    requires Fetchable(p, bins, rows, r, ins) && k < |ins|
    ensures Target(p, rows, r, ins[k]) < |bins| && Fetchable(p, bins, rows, r, ins[..k])
    ensures Exchanges(p, bins, rows, r, ins).olds[k] == Exchanges(p, bins, rows, r, ins[..k]).bins[Target(p, rows, r, ins[k])]
  {
    var front := ins[..|ins| - 1];
    if k < |front| {
      DisplacedAt(p, bins, rows, r, front, k);
      assert front[..k] == ins[..k];
    }
  }

  /** Each input displaces the word of the last input before it that went to the same bin, or what was in the
      bin at the start. */
  lemma {:induction false} Displaced(p: HashParams, bins: seq<nat>, rows: seq<seq<nat>>, r: nat, ins: seq<Input>, j: nat, k: nat)
    requires Fetchable(p, bins, rows, r, ins) && j <= k < |ins|
    requires j < k ==> Target(p, rows, r, ins[j]) == Target(p, rows, r, ins[k])
    requires forall m :: (if j < k then j < m < k else 0 <= m < k) ==> Target(p, rows, r, ins[m]) != Target(p, rows, r, ins[k])
    ensures Target(p, rows, r, ins[k]) < |bins|
    ensures Exchanges(p, bins, rows, r, ins).olds[k] == if j < k then Encode(ins[j].idx, ins[j].h) else bins[Target(p, rows, r, ins[k])]
  {
    DisplacedAt(p, bins, rows, r, ins, k);
    if j < k {
      BinWritten(p, bins, rows, r, ins[..k], j);
    } else {
      BinUntouched(p, bins, rows, r, ins[..k], Target(p, rows, r, ins[k]));
    }
  }

  /** Progress: an evicted word whose item's next hash points to an empty bin, to which no other evicted word goes,
      is in that bin after the next round and displaces nothing. */
  lemma {:induction false} EvictedSettles(p: HashParams, bins: seq<nat>, rows: seq<seq<nat>>, r: nat, kept: seq<nat>, k: nat, h: nat)
    requires r < 2 && p.Usable() && |bins| == p.Bins() && p.region[r].numHashes > 0 && k < |kept|
    requires Fetchable(p, bins, rows, r, NextInputs(kept, p.region[r].numHashes))
    requires HashOf(kept[k]) < p.region[r].numHashes && h == if HashOf(kept[k]) + 1 == p.region[r].numHashes then 0 else HashOf(kept[k]) + 1
    requires IdxOf(kept[k]) < |rows| && h < |rows[IdxOf(kept[k])]| && bins[Target(p, rows, r, Input(IdxOf(kept[k]), h))] == EMPTY
    requires forall j :: 0 <= j < |kept| && j != k ==>
      Target(p, rows, r, NextInputs(kept, p.region[r].numHashes)[j]) != Target(p, rows, r, Input(IdxOf(kept[k]), h))
    ensures var e := Exchanges(p, bins, rows, r, NextInputs(kept, p.region[r].numHashes));
      e.bins[Target(p, rows, r, Input(IdxOf(kept[k]), h))] == Encode(IdxOf(kept[k]), h) && e.olds[k] == EMPTY
  {
    var next := NextInputs(kept, p.region[r].numHashes);
    NextInputIs(kept, p.region[r].numHashes, k);
    assert next[k] == Input(IdxOf(kept[k]), h);
    BinWritten(p, bins, rows, r, next, k);
    Displaced(p, bins, rows, r, next, k, k);
  }

  lemma {:induction false} KeptNone(ws: seq<nat>)
    requires forall k :: 0 <= k < |ws| ==> ws[k] == EMPTY
    ensures Kept(ws) == []
  {
    if |ws| > 0 {
      KeptNone(ws[..|ws| - 1]);
    }
  }

  // Inputs that go to different empty bins all settle at once.
  lemma {:induction false} AllSettle(p: HashParams, bins: seq<nat>, rows: seq<seq<nat>>, r: nat, ins: seq<Input>)
    requires Fetchable(p, bins, rows, r, ins)
    requires forall j, k :: 0 <= j < k < |ins| ==> Target(p, rows, r, ins[j]) != Target(p, rows, r, ins[k])
    requires forall k :: 0 <= k < |ins| ==> Target(p, rows, r, ins[k]) < |bins| && bins[Target(p, rows, r, ins[k])] == EMPTY
    ensures Kept(Exchanges(p, bins, rows, r, ins).olds) == []
    ensures forall k :: 0 <= k < |ins| ==>
      Exchanges(p, bins, rows, r, ins).bins[Target(p, rows, r, ins[k])] == Encode(ins[k].idx, ins[k].h)
  {
    forall k | 0 <= k < |ins|
      ensures Exchanges(p, bins, rows, r, ins).olds[k] == EMPTY
      ensures Exchanges(p, bins, rows, r, ins).bins[Target(p, rows, r, ins[k])] == Encode(ins[k].idx, ins[k].h)
    {
      BinWritten(p, bins, rows, r, ins, k);
      Displaced(p, bins, rows, r, ins, k, k);
    }
    KeptNone(Exchanges(p, bins, rows, r, ins).olds);
  }

  // ---------------------------------------------------------------- batches

  // A batch of items that went into region r and left these behind, after at most a hundred tries.
  ghost predicate BatchDone(p: HashParams, bins: seq<nat>, hash: nat -> seq<nat>, r: nat, idxs: seq<nat>,
                            bins': seq<nat>, left: seq<nat>)
    requires p.Usable() && r < 2
  {
    var end := BatchResult(p, bins, hash, r, idxs);
    bins' == end.bins && left == Items(end.left)
  }

  ghost function BatchResult(p: HashParams, bins: seq<nat>, hash: nat -> seq<nat>, r: nat, idxs: seq<nat>): Progress
    requires p.Usable() && r < 2
  {
    AfterRounds(p, bins, AllRows(p, hash, r), r, FirstInputs(idxs), 100)
  }

  // The hash rows of all items, as region r stores them.
  ghost function AllRows(p: HashParams, hash: nat -> seq<nat>, r: nat): (rows: seq<seq<nat>>)
    requires r < |p.region|
    ensures |rows| == p.n
  {
    seq(p.n, idx requires 0 <= idx < p.n => if p.region[r].numHashes <= |hash(idx)| then hash(idx)[..p.region[r].numHashes] else [])
  }

  // The main bin an item's first hash points to.
  function FirstBin(p: HashParams, hash: nat -> seq<nat>, idx: nat): nat
    requires p.Usable() && |hash(idx)| > 0
  {
    hash(idx)[0] % p.region[0].binCount
  }

  // Items with enough hashes whose first hashes point to different bins.
  ghost predicate FirstDistinct(p: HashParams, hash: nat -> seq<nat>, idxs: seq<nat>)
    requires p.Usable()
  {
    && (forall k :: 0 <= k < |idxs| ==> idxs[k] < p.n && p.region[0].numHashes <= |hash(idxs[k])|)
    && forall j, k :: 0 <= j < k < |idxs| ==> FirstBin(p, hash, idxs[j]) != FirstBin(p, hash, idxs[k])
  }

  /** A batch whose items' first hashes point to different empty bins is placed with these hashes at once, and nothing
      is set aside. */
  lemma {:induction false} BatchSettles(p: HashParams, bins: seq<nat>, hash: nat -> seq<nat>, idxs: seq<nat>)
    requires p.Usable() && |bins| == p.Bins() && FirstDistinct(p, hash, idxs)
    requires forall k :: 0 <= k < |idxs| ==> bins[FirstBin(p, hash, idxs[k])] == EMPTY
    ensures var end := BatchResult(p, bins, hash, 0, idxs);
      && end.left == [] && |end.bins| == |bins|
      && (forall k :: 0 <= k < |idxs| ==> end.bins[FirstBin(p, hash, idxs[k])] == Encode(idxs[k], 0))
      && forall b :: 0 <= b < |bins| && (forall k :: 0 <= k < |idxs| ==> FirstBin(p, hash, idxs[k]) != b) ==> end.bins[b] == bins[b]
  {
    var rows, ins := AllRows(p, hash, 0), FirstInputs(idxs);
    forall k | 0 <= k < |ins|
      ensures ins[k] == Input(idxs[k], 0) && |rows[idxs[k]]| == p.region[0].numHashes
      ensures Target(p, rows, 0, ins[k]) == FirstBin(p, hash, idxs[k])
    {
      assert Items(ins)[k] == ins[k].idx;
    }
    var e := Exchanges(p, bins, rows, 0, ins);
    AllSettle(p, bins, rows, 0, ins);
    if |ins| > 0 {
      RoundsEnd(p, e.bins, rows, 0, [], 99);
      AfterRoundsStep(p, bins, rows, 0, ins, [], 100, 99);
    }
    forall b | 0 <= b < |bins| && forall k :: 0 <= k < |idxs| ==> FirstBin(p, hash, idxs[k]) != b
      ensures e.bins[b] == bins[b]
    {
      BinUntouched(p, bins, rows, 0, ins, b);
    }
  }

  // A known item has the same row in the stored rows and in the full ones.
  lemma KnownRow(p: HashParams, rows: seq<seq<nat>>, hash: nat -> seq<nat>, r: nat, idx: nat)
    requires r < |p.region| && |rows| == p.n && Known(p, rows, hash, r, idx)
    ensures rows[idx] == AllRows(p, hash, r)[idx]
  {}

  /** An exchange only looks at rows that are stored by then, so it does what it would with all rows. */
  lemma {:induction false} ExchangesAgree(p: HashParams, bins: seq<nat>, rows: seq<seq<nat>>, hash: nat -> seq<nat>, r: nat, ins: seq<Input>)
    requires r < 2 && p.Usable() && |bins| == p.Bins() && |rows| == p.n && Placeable(p, rows, hash, r, ins)
    ensures Fetchable(p, bins, rows, r, ins) && Fetchable(p, bins, AllRows(p, hash, r), r, ins)
    ensures Exchanges(p, bins, rows, r, ins) == Exchanges(p, bins, AllRows(p, hash, r), r, ins)
  {
    if |ins| > 0 {
      var n := |ins| - 1;
      ExchangesAgree(p, bins, rows, hash, r, ins[..n]);
      KnownRow(p, rows, hash, r, ins[n].idx);
    }
  }

  // A round conserves, and leaves the outcome of the remaining rounds.
  lemma {:induction false} RoundOutcome(p: HashParams, bins: seq<nat>, rows: seq<seq<nat>>, others: seq<seq<nat>>, full: seq<seq<nat>>,
                                        hash: nat -> seq<nat>, r: nat, ins: seq<Input>, tries: nat, tries': nat)
    returns (next: seq<Input>, after: seq<nat>)
    requires r < 2 && Ready(p, bins, rows, others, hash, r, ins) && full == AllRows(p, hash, r)
    requires |ins| > 0 && tries == tries' + 1
    ensures Fetchable(p, bins, rows, r, ins) && after == Exchanges(p, bins, rows, r, ins).bins
    ensures next == NextInputs(Kept(Exchanges(p, bins, rows, r, ins).olds), p.region[r].numHashes)
    ensures Ready(p, after, rows, others, hash, r, next)
    ensures Indices(after) + multiset(Items(next)) == Indices(bins) + multiset(Items(ins))
    ensures AfterRounds(p, after, full, r, next, tries') == AfterRounds(p, bins, full, r, ins, tries)
  {
    after := Exchanges(p, bins, rows, r, ins).bins;
    next := RoundConserves(p, bins, rows, others, hash, r, ins);
    ExchangesAgree(p, bins, rows, hash, r, ins);
    AfterRoundsStep(p, bins, full, r, ins, next, tries, tries');
  }

  // The rows passed along with a batch are the first hashes of its items.
  ghost predicate Hashed(p: HashParams, r: nat, hash: nat -> seq<nat>, idxs: seq<nat>, hashs: seq<seq<nat>>)
    requires r < |p.region|
  {
    && |hashs| == |idxs|
    && forall i :: 0 <= i < |idxs| ==>
      idxs[i] < p.n && p.region[r].numHashes <= |hash(idxs[i])| && hashs[i] == hash(idxs[i])[..p.region[r].numHashes]
  }

  function FirstInputs(idxs: seq<nat>): (ins: seq<Input>)
    ensures |ins| == |idxs| && Items(ins) == idxs
  {
    seq(|idxs|, k requires 0 <= k < |idxs| => Input(idxs[k], 0))
  }

  // The rows of a batch's items are stored, and every item starts with its first hash.
  method LoadHashes(p: HashParams, inputIdxs: array<nat>, hashs: seq<seq<nat>>, w: Workspace, r: nat,
                    rows: seq<seq<nat>>, ghost bins: seq<nat>, ghost hash: nat -> seq<nat>)
    returns (rows': seq<seq<nat>>)
    requires r < 2 && p.Usable() && |bins| == p.Bins() && |rows| == p.n && Seated(p, bins, rows, hash, r)
    requires w.For(inputIdxs) && Hashed(p, r, hash, inputIdxs[..], hashs)
    modifies w.curHashIdxs
    ensures |rows'| == p.n && Seated(p, bins, rows', hash, r)
    ensures Placeable(p, rows', hash, r, FirstInputs(inputIdxs[..]))
    ensures Holds(inputIdxs, w.curHashIdxs, FirstInputs(inputIdxs[..]))
  {
    rows' := rows;
    for i := 0 to inputIdxs.Length
      invariant |rows'| == p.n && Seated(p, bins, rows', hash, r)
      invariant forall k :: 0 <= k < i ==> Known(p, rows', hash, r, inputIdxs[k]) && w.curHashIdxs[k] == 0
    {
      assert inputIdxs[..][i] == inputIdxs[i];
      RowStored(p, bins, rows', hash, r, inputIdxs[i]);
      rows' := rows'[inputIdxs[i] := hashs[i]];
      w.curHashIdxs[i] := 0;
    }
  }

  lemma RowStored(p: HashParams, bins: seq<nat>, rows: seq<seq<nat>>, hash: nat -> seq<nat>, r: nat, idx: nat)
    requires r < 2 && p.Usable() && |bins| == p.Bins() && |rows| == p.n && Seated(p, bins, rows, hash, r)
    requires idx < p.n && p.region[r].numHashes <= |hash(idx)|
    ensures Seated(p, bins, rows[idx := hash(idx)[..p.region[r].numHashes]], hash, r)
  {}

  method ToArray(xs: seq<nat>) returns (a: array<nat>)
    ensures fresh(a) && a[..] == xs
  {
    a := new nat[|xs|](i requires 0 <= i < |xs| => xs[i]);
  }

  lemma FrontIs(a: array<nat>, left: seq<nat>)
    requires |left| <= a.Length && forall k :: 0 <= k < |left| ==> a[k] == left[k]
    ensures a[..][..|left|] == left
  {}

  predicate Below(idxs: seq<nat>, n: nat) {
    forall i :: 0 <= i < |idxs| ==> idxs[i] < n
  }

  lemma BelowBoth(a: seq<nat>, b: seq<nat>, n: nat)
    requires Below(b, n)
    ensures Below(a, n) ==> Below(a + b, n)
  {}

  lemma PlaceableBelow(p: HashParams, rows: seq<seq<nat>>, hash: nat -> seq<nat>, r: nat, ins: seq<Input>)
    requires r < |p.region| && |rows| == p.n && Placeable(p, rows, hash, r, ins)
    ensures Below(Items(ins), p.n)
  {}

  lemma {:induction false} SumOfThree(now: multiset<nat>, stash: seq<nat>, before: multiset<nat>, aside: seq<nat>, left: seq<nat>, ins: seq<nat>)
    requires stash == aside + left && now + multiset(left) == before + multiset(ins)
    ensures now + multiset(stash) == before + multiset(aside) + multiset(ins)
  {
    assert now + multiset(aside + left) == (now + multiset(left)) + multiset(aside);
  }

  // ---------------------------------------------------------------- the hasher

  // Every bin's word is an item at one of its own addresses, in both regions.
  ghost predicate GoodTable(p: HashParams, bins: seq<nat>, rows: seq<seq<nat>>, stashRows: seq<seq<nat>>, hash: nat -> seq<nat>)
    requires p.Usable()
  {
    && |bins| == p.Bins() && |rows| == p.n && |stashRows| == p.n
    && Seated(p, bins, rows, hash, 0) && Seated(p, bins, stashRows, hash, 1)
  }

  class CuckooHasher {
    const params: HashParams
    var mHashes: seq<seq<nat>>
    var mStashHashes: seq<seq<nat>>
    var mBins: seq<nat>
    var mStashIdxs: seq<nat>

    ghost predicate Valid(hash: nat -> seq<nat>)
      reads this
    {
      params.Usable() && GoodTable(params, mBins, mHashes, mStashHashes, hash)
    }

    function Rows(r: nat): seq<seq<nat>>
      reads this
    {
      if r == 0 then mHashes else mStashHashes
    }

    // init: all bins empty, no hashes known.
    constructor (p: HashParams)
      requires p.Usable()
      ensures params == p && mStashIdxs == [] && mBins == seq(p.Bins(), _ => EMPTY)
      ensures forall hash :: Valid(hash)
    {
      params := p;
      mHashes := seq(p.n, _ => []);
      mStashHashes := seq(p.n, _ => []);
      mBins := seq(p.Bins(), _ => EMPTY);
      mStashIdxs := [];
    }

    // The bins the inputs go to.
    method FetchAddresses(inputIdxs: array<nat>, w: Workspace, remaining: nat, r: nat, ghost ins: seq<Input>)
      requires Fetchable(params, mBins, Rows(r), r, ins) && w.For(inputIdxs)
      requires remaining == |ins| && Holds(inputIdxs, w.curHashIdxs, ins)
      modifies w.curAddrs
      ensures forall k :: 0 <= k < |ins| ==> w.curAddrs[k] == params.Address(r, Rows(r)[ins[k].idx][ins[k].h])
    {
      for i := 0 to remaining
        invariant forall k :: 0 <= k < i ==> w.curAddrs[k] == params.Address(r, Rows(r)[ins[k].idx][ins[k].h])
      {
        w.curAddrs[i] := params.Address(r, Rows(r)[inputIdxs[i]][w.curHashIdxs[i]]);
      }
    }

    // Every input is written into its bin and the bin's previous word goes to oldVals.
    method Exchange(inputIdxs: array<nat>, w: Workspace, remaining: nat, r: nat, ghost ins: seq<Input>)
      requires Fetchable(params, mBins, Rows(r), r, ins) && w.For(inputIdxs)
      requires remaining == |ins| && Holds(inputIdxs, w.curHashIdxs, ins)
      requires forall k :: 0 <= k < |ins| ==> w.curAddrs[k] == params.Address(r, Rows(r)[ins[k].idx][ins[k].h])
      modifies `mBins, w.oldVals
      ensures mBins == Exchanges(params, old(mBins), Rows(r), r, ins).bins
      ensures w.oldVals[..remaining] == Exchanges(params, old(mBins), Rows(r), r, ins).olds
    {
      ghost var rows := Rows(r);
      for i := 0 to remaining
        invariant mBins == Exchanges(params, old(mBins), rows, r, ins[..i]).bins
        invariant w.oldVals[..i] == Exchanges(params, old(mBins), rows, r, ins[..i]).olds
      {
        assert ins[..i + 1][..i] == ins[..i];
        var newVal := Encode(inputIdxs[i], w.curHashIdxs[i]);
        w.oldVals[i] := mBins[w.curAddrs[i]];
        mBins := mBins[w.curAddrs[i] := newVal];
      }
      assert ins[..remaining] == ins;
    }

    // One round: fetch, exchange, compact.
    method Round(inputIdxs: array<nat>, w: Workspace, remaining: nat, r: nat, ghost ins: seq<Input>) returns (left: nat)
      requires Fetchable(params, mBins, Rows(r), r, ins) && w.For(inputIdxs)
      requires remaining == |ins| && Holds(inputIdxs, w.curHashIdxs, ins)
      modifies `mBins, inputIdxs, w.curAddrs, w.curHashIdxs, w.oldVals
      ensures var e := Exchanges(params, old(mBins), Rows(r), r, ins);
        && mBins == e.bins && left == |Kept(e.olds)|
        && Holds(inputIdxs, w.curHashIdxs, NextInputs(Kept(e.olds), params.region[r].numHashes))
    {
      ghost var olds := Exchanges(params, mBins, Rows(r), r, ins).olds;
      FetchAddresses(inputIdxs, w, remaining, r, ins);
      Exchange(inputIdxs, w, remaining, r, ins);
      assert w.oldVals[..remaining] == olds;
      left := Compact(inputIdxs, w, remaining, params.region[r].numHashes);
      RequeuedHolds(inputIdxs, w.curHashIdxs, Kept(olds), params.region[r].numHashes);
    }

    method ConservingRound(inputIdxs: array<nat>, w: Workspace, remaining: nat, r: nat, ghost ins: seq<Input>,
                           ghost rows: seq<seq<nat>>, ghost others: seq<seq<nat>>, ghost full: seq<seq<nat>>,
                           ghost hash: nat -> seq<nat>, ghost tries: nat)
      returns (left: nat, ghost next: seq<Input>, ghost tries': nat)
      requires r < 2 && w.For(inputIdxs) && rows == Rows(r) && Ready(params, mBins, rows, others, hash, r, ins)
      requires remaining == |ins| > 0 && Holds(inputIdxs, w.curHashIdxs, ins) && tries > 0 && full == AllRows(params, hash, r)
      modifies `mBins, inputIdxs, w.curAddrs, w.curHashIdxs, w.oldVals
      ensures Ready(params, mBins, rows, others, hash, r, next)
      ensures left == |next| && Holds(inputIdxs, w.curHashIdxs, next)
      ensures Indices(mBins) + multiset(Items(next)) == Indices(old(mBins)) + multiset(Items(ins))
      ensures tries' == tries - 1
      ensures AfterRounds(params, mBins, full, r, next, tries') == AfterRounds(params, old(mBins), full, r, ins, tries)
    {
      tries' := tries - 1;
      ghost var after;
      next, after := RoundOutcome(params, mBins, rows, others, full, hash, r, ins, tries, tries');
      left := RoundTo(inputIdxs, w, remaining, r, ins, after, next);
    }

    // A round with its result named.
    method RoundTo(inputIdxs: array<nat>, w: Workspace, remaining: nat, r: nat, ghost ins: seq<Input>,
                   ghost after: seq<nat>, ghost next: seq<Input>)
      returns (left: nat)
      requires Fetchable(params, mBins, Rows(r), r, ins) && w.For(inputIdxs)
      requires remaining == |ins| && Holds(inputIdxs, w.curHashIdxs, ins)
      requires after == Exchanges(params, mBins, Rows(r), r, ins).bins
      requires next == NextInputs(Kept(Exchanges(params, mBins, Rows(r), r, ins).olds), params.region[r].numHashes)
      modifies `mBins, inputIdxs, w.curAddrs, w.curHashIdxs, w.oldVals
      ensures mBins == after && left == |next| && Holds(inputIdxs, w.curHashIdxs, next)
    {
      left := Round(inputIdxs, w, remaining, r, ins);
    }

    // The rounds of one batch: at most a hundred, as long as something is left.
    method InsertRounds(inputIdxs: array<nat>, w: Workspace, r: nat, ghost ins: seq<Input>, ghost hash: nat -> seq<nat>)
      returns (remaining: nat, ghost left: seq<Input>)
      requires r < 2 && w.For(inputIdxs) && Ready(params, mBins, Rows(r), Rows(1 - r), hash, r, ins)
      requires |ins| == inputIdxs.Length && Holds(inputIdxs, w.curHashIdxs, ins)
      modifies `mBins, inputIdxs, w.curAddrs, w.curHashIdxs, w.oldVals
      ensures Ready(params, mBins, Rows(r), Rows(1 - r), hash, r, left)
      ensures remaining == |left| && Holds(inputIdxs, w.curHashIdxs, left)
      ensures Indices(mBins) + multiset(Items(left)) == Indices(old(mBins)) + multiset(Items(ins))
      ensures Progress(mBins, left) == AfterRounds(params, old(mBins), AllRows(params, hash, r), r, ins, 100)
    {
      remaining := inputIdxs.Length;
      left := ins;
      ghost var full := AllRows(params, hash, r);
      ghost var outcome := AfterRounds(params, mBins, full, r, ins, 100);
      ghost var total := Indices(mBins) + multiset(Items(ins));
      ghost var rows, others := Rows(r), Rows(1 - r);
      var tryCount := 0;
      ghost var tries: nat := 100;
      while remaining > 0 && tryCount < 100
        invariant Ready(params, mBins, rows, others, hash, r, left)
        invariant remaining == |left| && Holds(inputIdxs, w.curHashIdxs, left)
        invariant Indices(mBins) + multiset(Items(left)) == total
        invariant tries == 100 - tryCount >= 0 && AfterRounds(params, mBins, full, r, left, tries) == outcome
        decreases 100 - tryCount
      {
        tryCount := tryCount + 1;
        remaining, left, tries := ConservingRound(inputIdxs, w, remaining, r, left, rows, others, full, hash, tries);
      }
    }

    // One batch into region r: its hash rows are stored, then the rounds run.
    method Insert(inputIdxs: array<nat>, hashs: seq<seq<nat>>, w: Workspace, r: nat, ghost hash: nat -> seq<nat>)
      returns (remaining: nat, ghost left: seq<nat>)
      requires r < 2 && Valid(hash) && w.For(inputIdxs) && Hashed(params, r, hash, inputIdxs[..], hashs)
      modifies `mBins, `mHashes, `mStashHashes, inputIdxs, w.curAddrs, w.curHashIdxs, w.oldVals
      ensures Valid(hash) && Below(left, params.n)
      ensures remaining == |left| <= inputIdxs.Length && forall k :: 0 <= k < remaining ==> inputIdxs[k] == left[k]
      ensures Indices(mBins) + multiset(left) == Indices(old(mBins)) + multiset(old(inputIdxs[..]))
      ensures BatchDone(params, old(mBins), hash, r, old(inputIdxs[..]), mBins, left)
    {
      ghost var ins := FirstInputs(inputIdxs[..]);
      var rows := LoadHashes(params, inputIdxs, hashs, w, r, Rows(r), mBins, hash);
      if r == 0 {
        mHashes := rows;
      } else {
        mStashHashes := rows;
      }
      ghost var last;
      remaining, last := InsertRounds(inputIdxs, w, r, ins, hash);
      left := Items(last);
      PlaceableBelow(params, rows, hash, r, last);
    }

    // insertBatch: into the main region; what is left after the last round is set aside for the stash.
    method InsertBatch(inputIdxs: array<nat>, hashs: seq<seq<nat>>, w: Workspace, ghost hash: nat -> seq<nat>)
      returns (ghost left: seq<nat>)
      requires Valid(hash) && w.For(inputIdxs) && Hashed(params, 0, hash, inputIdxs[..], hashs)
      modifies this, inputIdxs, w.curAddrs, w.curHashIdxs, w.oldVals
      ensures Valid(hash)
      ensures Below(old(mStashIdxs), params.n) ==> Below(mStashIdxs, params.n)
      ensures Indices(mBins) + multiset(mStashIdxs) ==
        Indices(old(mBins)) + multiset(old(mStashIdxs)) + multiset(old(inputIdxs[..]))
      ensures old(mStashIdxs) + left == mStashIdxs
      ensures BatchDone(params, old(mBins), hash, 0, old(inputIdxs[..]), mBins, left)
    {
      ghost var idxs, bins, aside := inputIdxs[..], mBins, mStashIdxs;
      var remaining;
      remaining, left := Insert(inputIdxs, hashs, w, 0, hash);
      SetAside(inputIdxs, remaining, left);
      BelowBoth(aside, left, params.n);
      SumOfThree(Indices(mBins), mStashIdxs, Indices(bins), aside, left, idxs);
    }

    method SetAside(inputIdxs: array<nat>, remaining: nat, ghost left: seq<nat>)
      requires remaining == |left| <= inputIdxs.Length && forall k :: 0 <= k < remaining ==> inputIdxs[k] == left[k]
      modifies `mStashIdxs
      ensures mStashIdxs == old(mStashIdxs) + left
    {
      for i := 0 to remaining
        invariant mStashIdxs == old(mStashIdxs) + left[..i]
      {
        TakeSnoc(left, i);
        mStashIdxs := mStashIdxs + [inputIdxs[i]];
      }
      TakeAll(left);
    }

    // insertStashBatch: the items set aside go into the stash region; the source throws when some
    // remain. The list itself is the input array, so its old contents are overwritten.
    method InsertStashBatch(hashs: seq<seq<nat>>, w: Workspace, ghost hash: nat -> seq<nat>) returns (remaining: nat)
      requires Valid(hash) && w.Separate()
      requires w.curAddrs.Length == w.curHashIdxs.Length == w.oldVals.Length == |mStashIdxs|
      requires Hashed(params, 1, hash, mStashIdxs, hashs)
      modifies this, w.curAddrs, w.curHashIdxs, w.oldVals
      ensures Valid(hash) && remaining <= |mStashIdxs|
      ensures Indices(mBins) + multiset(mStashIdxs[..remaining]) == Indices(old(mBins)) + multiset(old(mStashIdxs))
      ensures BatchDone(params, old(mBins), hash, 1, old(mStashIdxs), mBins, mStashIdxs[..remaining])
    {
      var inputIdxs := ToArray(mStashIdxs);
      ghost var left;
      remaining, left := Insert(inputIdxs, hashs, w, 1, hash);
      FrontIs(inputIdxs, left);
      mStashIdxs := inputIdxs[..];
    }
  }
}
