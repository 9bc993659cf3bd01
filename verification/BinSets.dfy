/**
 binSet of XZH26: both hash tables of one party, filled from one buffer of hashes, and how the
 tables of two parties line up.
 */
module BinSets {
  import opened HashParameters
  import opened CuckooHashing
  import Simple = SimpleHashing

  // The hashes of an item are those of the element at its index.
  ghost predicate HashesOf<E>(hash: nat -> seq<nat>, inputs: seq<E>, hashes: E -> seq<nat>) {
    forall idx :: 0 <= idx < |inputs| ==> hash(idx) == hashes(inputs[idx])
  }

  // Every element has as many hashes as the main region uses.
  ghost predicate FullRows<E(!new)>(p: HashParams, hashes: E -> seq<nat>)
    requires |p.region| == 2
  {
    forall e :: |hashes(e)| == p.region[0].numHashes
  }

  // The item indices from, from + 1, ..., to - 1.
  function Range(from: nat, to: nat): (r: seq<nat>)
    requires from <= to
    ensures |r| == to - from && forall k :: 0 <= k < |r| ==> r[k] == from + k
  {
    seq(to - from, k requires 0 <= k < to - from => from + k)
  }

  lemma RangeConcat(a: nat, b: nat, c: nat)
    requires a <= b <= c
    ensures Range(a, c) == Range(a, b) + Range(b, c)
  {}

  lemma {:induction false} RangeCount(from: nat, to: nat, x: nat)
    requires from <= to
    ensures multiset(Range(from, to))[x] == if from <= x < to then 1 else 0
  {
    if from < to {
      RangeCount(from, to - 1, x);
      RangeConcat(from, to - 1, to);
      assert Range(to - 1, to) == [to - 1];
    } else {
      assert Range(from, to) == [];
    }
  }

  // Every item below n exactly once, and nothing else.
  ghost predicate OnceEach(m: multiset<nat>, n: nat) {
    forall x: nat :: m[x] == if x < n then 1 else 0
  }

  lemma {:induction false} RangeTotal(i: nat, next: nat, before: multiset<nat>, after: multiset<nat>)
    requires i <= next && OnceEach(before, i) && after == before + multiset(Range(i, next))
    ensures OnceEach(after, next)
  {
    forall x: nat
      ensures after[x] == if x < next then 1 else 0
    {
      RangeCount(i, next, x);
      assert after[x] == before[x] + multiset(Range(i, next))[x];
    }
  }

  lemma {:induction false} NothingLeft(placed: multiset<nat>, stash: seq<nat>, total: multiset<nat>)
    requires placed + multiset(stash[..0]) == total
    ensures placed == total
  {
    assert stash[..0] == [];
  }

  lemma {:induction false} SomethingLeft(placed: multiset<nat>, left: seq<nat>, total: multiset<nat>, n: nat)
    requires placed + multiset(left) == total && OnceEach(total, n) && |left| > 0
    ensures !OnceEach(placed, n)
  {
    var x := left[0];
    assert multiset(left)[x] > 0;
    assert total[x] == placed[x] + multiset(left)[x];
  }

  // The items below n.
  ghost function FirstItems(n: nat): set<nat> {
    set x | x in Range(0, n)
  }

  lemma {:induction false} FirstItemsGrow(i: nat, next: nat, added: seq<nat>)
    requires i <= next && added == Range(i, next)
    ensures FirstItems(i) + (set x | x in added) == FirstItems(next)
  {
    RangeConcat(0, i, next);
  }

  // ---------------------------------------------------------------- what hashing computes

  // The hash function of a party's items.
  ghost function ItemHash<E>(elements: seq<E>, hashes: E -> seq<nat>): nat -> seq<nat> {
    (i: nat) => if i < |elements| then hashes(elements[i]) else []
  }

  // The cuckoo bins and the items set aside for the stash.
  datatype Main = Main(bins: seq<nat>, stash: seq<nat>)

  // The items from i to next as one batch.
  ghost function MainNext(p: HashParams, hash: nat -> seq<nat>, t: Main, i: nat, next: nat): Main
    requires p.Usable() && i <= next
  {
    var end := BatchResult(p, t.bins, hash, 0, Range(i, next));
    Main(end.bins, t.stash + Items(end.left))
  }

  function StepSize(i: nat, n: nat): nat
    requires i <= n
  {
    if n - i < 128 then n - i else 128
  }

  // The items from i on, in batches of 128.
  ghost function MainFrom(p: HashParams, hash: nat -> seq<nat>, t: Main, i: nat, n: nat): Main
    requires p.Usable() && i <= n
    decreases n - i
  {
    if i == n then t else MainFrom(p, hash, MainNext(p, hash, t, i, i + StepSize(i, n)), i + StepSize(i, n), n)
  }

  lemma {:induction false} MainFromStep(p: HashParams, hash: nat -> seq<nat>, t: Main, t': Main, i: nat, next: nat, n: nat)
    requires p.Usable() && i < n && next == i + StepSize(i, n) && t' == MainNext(p, hash, t, i, next)
    ensures MainFrom(p, hash, t', next, n) == MainFrom(p, hash, t, i, n)
  {
  }

  /** Where all items end up: the main batches and then the items set aside, and what is left over. */
  ghost function CuckooOutcome(p: HashParams, hash: nat -> seq<nat>): Progress
    requires p.Usable()
  {
    var t := MainFrom(p, hash, Main(seq(p.Bins(), _ => EMPTY), []), 0, p.n);
    BatchResult(p, t.bins, hash, 1, t.stash)
  }

  // Hashing goes through: nothing is left over.
  ghost predicate HashingFits(p: HashParams, hash: nat -> seq<nat>)
    requires p.Usable()
  {
    |CuckooOutcome(p, hash).left| == 0
  }

  // Items below i are where their first hashes point, and all other main bins are empty.
  ghost predicate FirstPlaced(p: HashParams, hash: nat -> seq<nat>, t: Main, i: nat)
    requires p.Usable() && FirstDistinct(p, hash, Range(0, p.n)) && i <= p.n
  {
    && |t.bins| == p.Bins() && t.stash == []
    && (forall j: nat :: j < i ==> HasRow(p, hash, j) && t.bins[FirstBin(p, hash, j)] == Encode(j, 0))
    && forall j: nat :: i <= j < p.n ==> HasRow(p, hash, j) && t.bins[FirstBin(p, hash, j)] == EMPTY
  }

  ghost predicate HasRow(p: HashParams, hash: nat -> seq<nat>, j: nat)
    requires p.Usable()
  {
    p.region[0].numHashes <= |hash(j)|
  }

  lemma {:induction false} RowsThere(p: HashParams, hash: nat -> seq<nat>, j: nat, k: nat)
    requires p.Usable() && FirstDistinct(p, hash, Range(0, p.n)) && j < p.n && k < p.n
    ensures HasRow(p, hash, j) && HasRow(p, hash, k)
    ensures j != k ==> FirstBin(p, hash, j) != FirstBin(p, hash, k)
  {
    var all := Range(0, p.n);
    assert all[j] == j && all[k] == k;
  }

  lemma {:induction false} FirstPlacedNext(p: HashParams, hash: nat -> seq<nat>, t: Main, i: nat, next: nat)
    requires p.Usable() && FirstDistinct(p, hash, Range(0, p.n)) && i <= next <= p.n && FirstPlaced(p, hash, t, i)
    ensures FirstPlaced(p, hash, MainNext(p, hash, t, i, next), next)
  {
    var idxs := Range(i, next);
    forall k | 0 <= k < |idxs|
      ensures p.region[0].numHashes <= |hash(idxs[k])| && t.bins[FirstBin(p, hash, idxs[k])] == EMPTY
    {
      RowsThere(p, hash, idxs[k], idxs[k]);
    }
    forall j, k | 0 <= j < k < |idxs|
      ensures FirstBin(p, hash, idxs[j]) != FirstBin(p, hash, idxs[k])
    {
      RowsThere(p, hash, idxs[j], idxs[k]);
    }
    BatchSettles(p, t.bins, hash, idxs);
    var t' := MainNext(p, hash, t, i, next);
    assert Items([]) == [];
    forall j: nat | j < p.n
      ensures HasRow(p, hash, j) && t'.bins[FirstBin(p, hash, j)] == if j < next then Encode(j, 0) else EMPTY
    {
      RowsThere(p, hash, j, j);
      if i <= j < next {
        assert idxs[j - i] == j;
      } else {
        forall k | 0 <= k < |idxs|
          ensures FirstBin(p, hash, idxs[k]) != FirstBin(p, hash, j)
        {
          RowsThere(p, hash, idxs[k], j);
        }
      }
    }
  }

  lemma {:induction false} FirstPlacedFrom(p: HashParams, hash: nat -> seq<nat>, t: Main, i: nat)
    requires p.Usable() && FirstDistinct(p, hash, Range(0, p.n)) && i <= p.n && FirstPlaced(p, hash, t, i)
    ensures FirstPlaced(p, hash, MainFrom(p, hash, t, i, p.n), p.n)
    decreases p.n - i
  {
    if i < p.n {
      var next := i + StepSize(i, p.n);
      var t' := MainNext(p, hash, t, i, next);
      FirstPlacedNext(p, hash, t, i, next);
      MainFromStep(p, hash, t, t', i, next, p.n);
      FirstPlacedFrom(p, hash, t', next);
    } else {
      assert MainFrom(p, hash, t, i, p.n) == t;
    }
  }

  /** Hashing goes through for every set whose items' first hashes point to different main bins, and then every item
      is in that bin, with hash number 0. */
  lemma {:induction false} DistinctFit(p: HashParams, hash: nat -> seq<nat>)
    requires p.Usable() && forall i: nat :: i < p.n ==> p.region[0].numHashes <= |hash(i)|
    requires forall i: nat, j: nat :: i < j < p.n ==> hash(i)[0] % p.region[0].binCount != hash(j)[0] % p.region[0].binCount
    ensures HashingFits(p, hash)
    ensures forall i: nat :: i < p.n ==>
      var b := hash(i)[0] % p.region[0].binCount;
      b < |CuckooOutcome(p, hash).bins| && CuckooOutcome(p, hash).bins[b] == Encode(i, 0)
  {
    var start := Main(seq(p.Bins(), _ => EMPTY), []);
    var all := Range(0, p.n);
    forall j, k | 0 <= j < k < |all|
      ensures FirstBin(p, hash, all[j]) != FirstBin(p, hash, all[k])
    {
      assert all[j] == j && all[k] == k;
    }
    FirstPlacedFrom(p, hash, start, 0);
    var t := MainFrom(p, hash, start, 0, p.n);
    RoundsEnd(p, t.bins, AllRows(p, hash, 1), 1, FirstInputs([]), 100);
    forall i: nat | i < p.n
      ensures t.bins[FirstBin(p, hash, i)] == Encode(i, 0)
    {
      assert HasRow(p, hash, i);
    }
  }

  // The simple table of the first n items.
  ghost function SimpleTable(p: HashParams, hash: nat -> seq<nat>, n: nat): (r: seq<Simple.Bin>)
    requires p.Usable()
    ensures |r| == p.Bins()
  {
    Simple.InsertedItems(p, Simple.EmptyBins(p), hash, Range(0, n))
  }

  lemma {:induction false} SimpleTableNext(p: HashParams, hash: nat -> seq<nat>, i: nat, next: nat)
    requires p.Usable() && i <= next
    ensures SimpleTable(p, hash, next) == Simple.InsertedItems(p, SimpleTable(p, hash, i), hash, Range(i, next))
  {
    RangeConcat(0, i, next);
    Simple.InsertedConcat(p, Simple.EmptyBins(p), hash, Range(0, i), Range(i, next));
  }

  class BinSet<E(!new)> {
    const params: HashParams
    const mCuckooBins: CuckooHasher
    const mSimpleBins: Simple.SimpleHasher

    ghost predicate Shape()
      reads this, mCuckooBins, mSimpleBins
    {
      && params.Usable() && mCuckooBins.params == params && mSimpleBins.params == params
    }

    // Everything the cuckoo table holds, in its bins or set aside.
    ghost function Held(): multiset<nat>
      reads this, mCuckooBins
    {
      Indices(mCuckooBins.mBins) + multiset(mCuckooBins.mStashIdxs)
    }

    ghost function Table(): Main
      reads this, mCuckooBins
    {
      Main(mCuckooBins.mBins, mCuckooBins.mStashIdxs)
    }

    // Nothing was hashed yet.
    ghost predicate Empty()
      reads this, mCuckooBins, mSimpleBins
    {
      && |params.region| == 2 && Table() == Main(seq(params.Bins(), _ => EMPTY), []) && Held() == multiset{}
      && mSimpleBins.mBins == Simple.EmptyBins(params)
    }

    constructor (p: HashParams)
      requires p.Usable()
      ensures params == p && Shape() && fresh(mCuckooBins) && fresh(mSimpleBins)
      ensures Empty()
      ensures forall hash :: mCuckooBins.Valid(hash) && mSimpleBins.Valid(hash, FirstItems(0))
    {
      params := p;
      mCuckooBins := new CuckooHasher(p);
      mSimpleBins := new Simple.SimpleHasher(p);
      new;
      IndicesEmpty(p.Bins());
      assert FirstItems(0) == {};
    }

    // One batch of consecutive items into both tables.
    method HashBatch(inputs: seq<E>, hashes: E -> seq<nat>, i: nat, currentStepSize: nat, ghost hash: nat -> seq<nat>)
      returns (next: nat)
      requires i + currentStepSize <= |inputs| == params.n
      requires Shape() && mCuckooBins.Valid(hash) && mSimpleBins.Valid(hash, FirstItems(i))
      requires FullRows(params, hashes) && HashesOf(hash, inputs, hashes)
      modifies mCuckooBins, mSimpleBins
      ensures next == i + currentStepSize
      ensures Shape() && mCuckooBins.Valid(hash) && mSimpleBins.Valid(hash, FirstItems(next))
      ensures Below(old(mCuckooBins.mStashIdxs), params.n) ==> Below(mCuckooBins.mStashIdxs, params.n)
      ensures Held() == old(Held()) + multiset(Range(i, next))
      ensures Table() == MainNext(params, hash, old(Table()), i, next)
      ensures mSimpleBins.mBins == Simple.InsertedItems(params, old(mSimpleBins.mBins), hash, Range(i, next))
    {
      next := i + currentStepSize;
      var w := new Workspace(currentStepSize);
      var rows := seq(currentStepSize, j requires 0 <= j < currentStepSize => hashes(inputs[i + j]));
      var tempIdxBuff := ToArray(Range(i, next));
      ghost var items := mSimpleBins.InsertBatch(tempIdxBuff[..], rows, hash, FirstItems(i));
      FirstItemsGrow(i, next, tempIdxBuff[..]);
      ghost var left := mCuckooBins.InsertBatch(tempIdxBuff, rows, w, hash);
    }

    // The items set aside go into the stash region.
    method HashStash(inputs: seq<E>, hashes: E -> seq<nat>, ghost hash: nat -> seq<nat>) returns (remaining: nat)
      requires Shape() && mCuckooBins.Valid(hash) && mSimpleBins.Valid(hash, FirstItems(params.n))
      requires |inputs| == params.n && FullRows(params, hashes) && HashesOf(hash, inputs, hashes)
      requires Below(mCuckooBins.mStashIdxs, params.n)
      modifies mCuckooBins
      ensures Shape() && mCuckooBins.Valid(hash) && mSimpleBins.Valid(hash, FirstItems(params.n))
      ensures remaining <= |mCuckooBins.mStashIdxs|
      ensures Indices(mCuckooBins.mBins) + multiset(mCuckooBins.mStashIdxs[..remaining]) == old(Held())
      ensures BatchDone(params, old(mCuckooBins.mBins), hash, 1, old(mCuckooBins.mStashIdxs),
                        mCuckooBins.mBins, mCuckooBins.mStashIdxs[..remaining])
    {
      var idxs, width := mCuckooBins.mStashIdxs, params.region[1].numHashes;
      var stashW := new Workspace(|idxs|);
      var stashHashes := seq(|idxs|, j requires 0 <= j < |idxs| && Below(idxs, |inputs|) && FullRows(params, hashes) && HashesOf(hash, inputs, hashes)
                               && width <= params.region[0].numHashes => hashes(inputs[idxs[j]])[..width]);
      remaining := mCuckooBins.InsertStashBatch(stashHashes, stashW, hash);
    }

    // All batches.
    method HashAll(inputs: seq<E>, hashes: E -> seq<nat>, ghost hash: nat -> seq<nat>)
      requires Shape() && mCuckooBins.Valid(hash) && mSimpleBins.Valid(hash, FirstItems(0))
      requires Empty()
      requires |inputs| == params.n && FullRows(params, hashes) && HashesOf(hash, inputs, hashes)
      modifies mCuckooBins, mSimpleBins
      ensures Shape() && mCuckooBins.Valid(hash) && mSimpleBins.Valid(hash, FirstItems(params.n))
      ensures Below(mCuckooBins.mStashIdxs, params.n) && OnceEach(Held(), params.n)
      ensures Table() == MainFrom(params, hash, old(Table()), 0, params.n) && mSimpleBins.mBins == SimpleTable(params, hash, params.n)
    {
      ghost var outcome := MainFrom(params, hash, Table(), 0, params.n);
      assert Range(0, 0) == [];
      var i, n := 0, |inputs|;
      while i < n
        invariant i <= n && Shape() && mCuckooBins.Valid(hash) && mSimpleBins.Valid(hash, FirstItems(i))
        invariant Below(mCuckooBins.mStashIdxs, params.n) && OnceEach(Held(), i)
        invariant MainFrom(params, hash, Table(), i, params.n) == outcome && mSimpleBins.mBins == SimpleTable(params, hash, i)
      {
        i := HashNext(inputs, hashes, i, hash);
      }
    }

    // The next batch: at most 128 items, right after the items below i.
    method HashNext(inputs: seq<E>, hashes: E -> seq<nat>, i: nat, ghost hash: nat -> seq<nat>) returns (next: nat)
      requires i < |inputs| == params.n
      requires Shape() && mCuckooBins.Valid(hash) && mSimpleBins.Valid(hash, FirstItems(i))
      requires FullRows(params, hashes) && HashesOf(hash, inputs, hashes)
      requires Below(mCuckooBins.mStashIdxs, params.n) && OnceEach(Held(), i)
      modifies mCuckooBins, mSimpleBins
      ensures i < next <= |inputs| && next == if |inputs| - i < 128 then |inputs| else i + 128
      ensures Shape() && mCuckooBins.Valid(hash) && mSimpleBins.Valid(hash, FirstItems(next))
      ensures Below(mCuckooBins.mStashIdxs, params.n) && OnceEach(Held(), next)
      ensures MainFrom(params, hash, Table(), next, params.n) == MainFrom(params, hash, old(Table()), i, params.n)
      ensures old(mSimpleBins.mBins) == SimpleTable(params, hash, i) ==> mSimpleBins.mBins == SimpleTable(params, hash, next)
    {
      var currentStepSize := if |inputs| - i < 128 then |inputs| - i else 128;
      ghost var total, before := Held(), Table();
      next := HashBatch(inputs, hashes, i, currentStepSize, hash);
      RangeTotal(i, next, total, Held());
      MainFromStep(params, hash, before, Table(), i, next, params.n);
      SimpleTableNext(params, hash, i, next);
    }

    /** hashing2Bins, on one thread: batches of 128 items into both tables, then the stash. It goes
        through, instead of throwing over a stash that overflows, exactly when every item ends up in
        one cuckoo bin; the simple table then has every item in all its bins. */
    method Hashing2Bins(inputs: seq<E>, hashes: E -> seq<nat>, ghost hash: nat -> seq<nat>) returns (ok: bool)
      requires Shape() && mCuckooBins.Valid(hash) && mSimpleBins.Valid(hash, FirstItems(0))
      requires Empty()
      requires FullRows(params, hashes) && HashesOf(hash, inputs, hashes)
      modifies mCuckooBins, mSimpleBins
      ensures |inputs| == params.n ==> Shape() && mCuckooBins.Valid(hash) && mSimpleBins.Valid(hash, FirstItems(params.n))
      ensures |inputs| != params.n ==> !ok
      ensures |inputs| == params.n ==> (ok <==> OnceEach(Indices(mCuckooBins.mBins), params.n))
      ensures |inputs| == params.n ==> (ok <==> HashingFits(params, hash))
      ensures |inputs| == params.n ==> mCuckooBins.mBins == CuckooOutcome(params, hash).bins
      ensures |inputs| == params.n ==> mSimpleBins.mBins == SimpleTable(params, hash, params.n)
    {
      if |inputs| != params.n {
        return false;
      }
      HashAll(inputs, hashes, hash);
      ghost var total := Held();
      var remaining := HashStash(inputs, hashes, hash);
      ok := remaining == 0;
      if ok {
        NothingLeft(Indices(mCuckooBins.mBins), mCuckooBins.mStashIdxs, total);
      } else {
        SomethingLeft(Indices(mCuckooBins.mBins), mCuckooBins.mStashIdxs[..remaining], total, params.n);
      }
    }
  }

  /** Every item has its one bin. */
  lemma {:induction false} OneBinEach(bins: seq<nat>, n: nat, x: nat) returns (b: nat)
    requires OnceEach(Indices(bins), n) && x < n
    ensures b < |bins| && bins[b] != EMPTY && IdxOf(bins[b]) == x
    ensures forall c :: 0 <= c < |bins| && bins[c] != EMPTY && IdxOf(bins[c]) == x ==> c == b
  {
    b := IndicesAt(bins, x);
    forall c | 0 <= c < |bins| && bins[c] != EMPTY && IdxOf(bins[c]) == x
      ensures c == b
    {
      if c < b {
        IndicesTwice(bins, c, b);
      } else if b < c {
        IndicesTwice(bins, b, c);
      }
    }
  }

  /** Alignment of two parties' tables: wherever the first party's cuckoo bin holds an element, the
      second party, if it has that element and the same set size, has it in its simple bin of the
      same number. */
  lemma {:induction false} BinsAlign<E>(p: HashParams, cuckoo: CuckooHasher, simple: Simple.SimpleHasher,
                                        mine: seq<E>, theirs: seq<E>, hashes: E -> seq<nat>,
                                        hash: nat -> seq<nat>, hash': nat -> seq<nat>, b: nat, j: nat)
    requires cuckoo.params == p && simple.params == p && cuckoo.Valid(hash) && HashesOf(hash, mine, hashes)
    requires simple.Valid(hash', FirstItems(|theirs|)) && HashesOf(hash', theirs, hashes)
    requires b < |cuckoo.mBins| && cuckoo.mBins[b] != EMPTY && IdxOf(cuckoo.mBins[b]) < |mine|
    requires j < |theirs| && theirs[j] == mine[IdxOf(cuckoo.mBins[b])]
    ensures b < |simple.mBins| && j in simple.mBins[b].mIdx
  {
    var i, h := IdxOf(cuckoo.mBins[b]), HashOf(cuckoo.mBins[b]);
    assert hash'(j) == hash(i);
    assert j in FirstItems(|theirs|) by { assert Range(0, |theirs|)[j] == j; }
    var number := if b < p.region[0].binCount then h else p.region[0].numHashes + h;
    assert Simple.BinOf(p, hash'(j), number) == b;
    assert Simple.Placed(p, hash', simple.mBins, j, Simple.HashNumbers(p));
  }
}
