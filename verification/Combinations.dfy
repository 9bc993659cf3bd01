/**
 get_combinations_iterative of YYH26: all k-subsets of 0..n-1 as increasing lists, in lexicographic
 order, by stepping one index array from each list to the next.
 */
module Combinations {
  import opened NumberTheory

  // A strictly increasing list of k numbers below n.
  ghost predicate Combination(c: seq<nat>, n: nat, k: nat) {
    |c| == k && (forall i :: 0 <= i < k ==> c[i] < n) && forall i, j :: 0 <= i < j < k ==> c[i] < c[j]
  }

  // a comes before b, decided at position p.
  ghost predicate LessAt(a: seq<nat>, b: seq<nat>, p: nat) {
    |a| == |b| && p < |a| && (forall i :: 0 <= i < p ==> a[i] == b[i]) && a[p] < b[p]
  }

  ghost predicate Less(a: seq<nat>, b: seq<nat>) {
    exists p: nat :: LessAt(a, b, p)
  }

  lemma {:induction false} LessTransitive(a: seq<nat>, b: seq<nat>, c: seq<nat>)
    requires Less(a, b) && Less(b, c)
    ensures Less(a, c)
  {
    var p: nat :| LessAt(a, b, p);
    var q: nat :| LessAt(b, c, q);
    assert LessAt(a, c, if p < q then p else q);
  }

  // Two different lists of one length differ first somewhere.
  lemma {:induction false} FirstDifference(a: seq<nat>, b: seq<nat>, from: nat) returns (p: nat)
    requires |a| == |b| && a != b && from <= |a| && forall i :: 0 <= i < from ==> a[i] == b[i]
    ensures p < |a| && a[p] != b[p] && forall i :: 0 <= i < p ==> a[i] == b[i]
    decreases |a| - from
  {
    if from < |a| {
      p := from;
      if a[from] == b[from] {
        p := FirstDifference(a, b, from + 1);
      }
    }
  }

  lemma {:induction false} Trichotomy(a: seq<nat>, b: seq<nat>)
    requires |a| == |b|
    ensures a == b || Less(a, b) || Less(b, a)
  {
    if a != b {
      var p := FirstDifference(a, b, 0);
      assert LessAt(a, b, p) || LessAt(b, a, p);
    }
  }

  // ---------------------------------------------------------------- how high an entry can be

  // Entry p leaves room for the k - 1 - p entries after it.
  lemma {:induction false} EntryBound(c: seq<nat>, n: nat, k: nat, p: nat)
    requires Combination(c, n, k) && p < k <= n
    ensures c[p] <= n - k + p
    decreases k - p
  {
    if p + 1 < k {
      EntryBound(c, n, k, p + 1);
    }
  }

  // Entries grow by at least one per position.
  lemma {:induction false} EntryGrowth(c: seq<nat>, n: nat, k: nat, p: nat, q: nat)
    requires Combination(c, n, k) && p <= q < k
    ensures c[q] >= c[p] + (q - p)
  {
    if p < q {
      EntryGrowth(c, n, k, p, q - 1);
    }
  }

  // ---------------------------------------------------------------- the next list

  // Entries after position i are as high as they can be.
  ghost predicate FullAfter(c: seq<nat>, n: nat, k: nat, i: int)
    requires |c| == k <= n
  {
    forall j: nat :: i < j < k ==> c[j] == n - k + j
  }

  // c with entry i raised by one and consecutive numbers after it.
  ghost predicate Successor(c: seq<nat>, d: seq<nat>, i: nat) {
    && |c| == |d| && i < |c| && (forall j :: 0 <= j < i ==> d[j] == c[j])
    && forall j :: i <= j < |c| ==> d[j] == c[i] + 1 + (j - i)
  }

  lemma {:induction false} SuccessorValid(c: seq<nat>, d: seq<nat>, n: nat, k: nat, i: nat)
    requires Combination(c, n, k) && k <= n && Successor(c, d, i) && c[i] != n - k + i
    ensures Combination(d, n, k) && LessAt(c, d, i)
  {
    EntryBound(c, n, k, i);
  }

  /** Nothing lies between a list and its successor. */
  lemma {:induction false} NothingBetween(c: seq<nat>, d: seq<nat>, e: seq<nat>, n: nat, k: nat, i: nat)
    requires Combination(c, n, k) && Combination(e, n, k) && k <= n && Successor(c, d, i) && FullAfter(c, n, k, i)
    requires Less(c, e)
    ensures e == d || Less(d, e)
  {
    var p: nat :| LessAt(c, e, p);
    if p > i {
      EntryBound(e, n, k, p);
    } else if p < i {
      assert LessAt(d, e, p);
    } else {
      AtPosition(c, d, e, n, k, i);
    }
  }

  lemma {:induction false} AtPosition(c: seq<nat>, d: seq<nat>, e: seq<nat>, n: nat, k: nat, i: nat)
    requires Combination(e, n, k) && |c| == k && Successor(c, d, i) && LessAt(c, e, i)
    ensures e == d || Less(d, e)
  {
    if e != d {
      var q := FirstDifference(d, e, 0);
      assert q >= i;
      EntryGrowth(e, n, k, i, q);
      assert LessAt(d, e, q);
    }
  }

  // A list whose entries are all as high as they can be is the last one.
  lemma {:induction false} LastOne(c: seq<nat>, e: seq<nat>, n: nat, k: nat)
    requires Combination(c, n, k) && Combination(e, n, k) && k <= n && FullAfter(c, n, k, -1)
    ensures !Less(c, e)
  {
    if Less(c, e) {
      var p: nat :| LessAt(c, e, p);
      EntryBound(e, n, k, p);
    }
  }

  // The list 0, 1, ..., k-1 comes before every other.
  lemma {:induction false} FirstOne(c: seq<nat>, e: seq<nat>, n: nat, k: nat)
    requires |c| == k && (forall i :: 0 <= i < k ==> c[i] == i) && Combination(e, n, k)
    ensures !Less(e, c)
  {
    if Less(e, c) {
      var p: nat :| LessAt(e, c, p);
      EntryGrowth(e, n, k, 0, p);
    }
  }

  // ---------------------------------------------------------------- termination

  // A number that falls from each list to the next.
  function Rank(c: seq<nat>, n: nat): nat
    requires forall i :: 0 <= i < |c| ==> c[i] < n
  {
    if |c| == 0 then 0 else Rank(c[..|c| - 1], n) * (n + 1) + (n - c[|c| - 1])
  }

  lemma {:induction false} RankFalls(a: seq<nat>, b: seq<nat>, n: nat, p: nat)
    requires LessAt(a, b, p) && (forall i :: 0 <= i < |a| ==> a[i] < n) && (forall i :: 0 <= i < |b| ==> b[i] < n)
    ensures Rank(a, n) > Rank(b, n)
  {
    var m := |a| - 1;
    if p < m {
      RankFalls(a[..m], b[..m], n, p);
      Carry(Rank(a[..m], n), Rank(b[..m], n), n, n - a[m], n - b[m]);
    } else {
      assert a[..m] == b[..m];
    }
  }

  // A higher leading digit outweighs the last one.
  lemma {:induction false} Carry(x: nat, y: nat, n: nat, u: nat, v: nat)
    requires x > y && v <= n
    ensures x * (n + 1) + u > y * (n + 1) + v
  {
    MulMono(n + 1, y + 1, x);
    Distribute(n + 1, y, 1);
  }

  // ---------------------------------------------------------------- the method

  // Exactly the combinations before c, in strictly increasing order.
  ghost predicate ListsBelow(all: seq<seq<nat>>, c: seq<nat>, n: nat, k: nat) {
    && (forall e :: e in all <==> Combination(e, n, k) && Less(e, c))
    && forall i, j :: 0 <= i < j < |all| ==> Less(all[i], all[j])
  }

  // All combinations, each once, in lexicographic order.
  ghost predicate ListsAll(all: seq<seq<nat>>, n: nat, k: nat) {
    && (forall e :: e in all <==> Combination(e, n, k))
    && forall i, j :: 0 <= i < j < |all| ==> Less(all[i], all[j])
  }

  lemma {:induction false} ExtendSorted(all: seq<seq<nat>>, c: seq<nat>, n: nat, k: nat)
    requires ListsBelow(all, c, n, k)
    ensures forall i, j :: 0 <= i < j < |all| + 1 ==> Less((all + [c])[i], (all + [c])[j])
  {
    forall i, j | 0 <= i < j < |all| + 1
      ensures Less((all + [c])[i], (all + [c])[j])
    {
      if j == |all| {
        assert all[i] in all;
      }
    }
  }

  lemma {:induction false} ExtendToNext(all: seq<seq<nat>>, c: seq<nat>, d: seq<nat>, n: nat, k: nat, i: nat)
    requires ListsBelow(all, c, n, k) && Combination(c, n, k) && k <= n && Successor(c, d, i) && FullAfter(c, n, k, i)
    requires c[i] != n - k + i
    ensures ListsBelow(all + [c], d, n, k)
  {
    SuccessorValid(c, d, n, k, i);
    ExtendSorted(all, c, n, k);
    forall e
      ensures e in all + [c] <==> Combination(e, n, k) && Less(e, d)
    {
      assert LessAt(c, d, i);
      if e in all {
        LessTransitive(e, c, d);
      }
      if Combination(e, n, k) && Less(e, d) {
        Trichotomy(e, c);
        if Less(c, e) {
          NothingBetween(c, d, e, n, k, i);
          NotBoth(d, e);
        }
      }
    }
  }

  lemma {:induction false} NotBoth(a: seq<nat>, b: seq<nat>)
    requires Less(b, a)
    ensures a != b && !Less(a, b)
  {
    if Less(a, b) {
      LessTransitive(a, b, a);
    }
  }

  lemma {:induction false} ExtendToAll(all: seq<seq<nat>>, c: seq<nat>, n: nat, k: nat)
    requires ListsBelow(all, c, n, k) && Combination(c, n, k) && k <= n && FullAfter(c, n, k, -1)
    ensures ListsAll(all + [c], n, k)
  {
    ExtendSorted(all, c, n, k);
    forall e
      ensures e in all + [c] <==> Combination(e, n, k)
    {
      if Combination(e, n, k) {
        Trichotomy(e, c);
        LastOne(c, e, n, k);
      }
    }
  }

  // The last position whose entry can still grow, or -1.
  method FindRoom(indices: array<nat>, n: nat) returns (i: int)
    requires indices.Length <= n
    ensures -1 <= i < indices.Length && FullAfter(indices[..], n, indices.Length, i)
    ensures i >= 0 ==> indices[i] != n - indices.Length + i
  {
    var k := indices.Length;
    i := k - 1;
    while i >= 0 && indices[i] == n - k + i
      invariant -1 <= i < k && FullAfter(indices[..], n, k, i)
    {
      i := i - 1;
    }
  }

  // Raise entry i and renumber what follows.
  method Advance(indices: array<nat>, i: nat)
    requires i < indices.Length
    modifies indices
    ensures Successor(old(indices[..]), indices[..], i)
  {
    ghost var c := indices[..];
    indices[i] := indices[i] + 1;
    for j := i + 1 to indices.Length
      invariant forall m :: 0 <= m < i ==> indices[m] == c[m]
      invariant forall m :: i <= m < j ==> indices[m] == c[i] + 1 + (m - i)
    {
      indices[j] := indices[j - 1] + 1;
    }
  }

  /** get_combinations_iterative. */
  method GetCombinations(totalNumShares: nat, threshold: nat) returns (all: seq<seq<nat>>)
    requires threshold <= totalNumShares
    ensures ListsAll(all, totalNumShares, threshold)
  {
    var indices := new nat[threshold](i => i);
    all := [];
    NoneBelowFirst(indices[..], totalNumShares, threshold);
    while true
      invariant Combination(indices[..], totalNumShares, threshold)
      invariant ListsBelow(all, indices[..], totalNumShares, threshold)
      decreases Rank(indices[..], totalNumShares)
    {
      ghost var c, before := indices[..], all;
      all := all + [indices[..]];
      var i := FindRoom(indices, totalNumShares);
      if i < 0 {
        ExtendToAll(before, c, totalNumShares, threshold);
        break;
      }
      Advance(indices, i);
      SuccessorValid(c, indices[..], totalNumShares, threshold, i);
      ExtendToNext(before, c, indices[..], totalNumShares, threshold, i);
      RankFalls(c, indices[..], totalNumShares, i);
    }
  }

  lemma {:induction false} NoneBelowFirst(c: seq<nat>, n: nat, k: nat)
    requires |c| == k <= n && forall i :: 0 <= i < k ==> c[i] == i
    ensures Combination(c, n, k) && ListsBelow([], c, n, k)
  {
    forall e | Combination(e, n, k)
      ensures !Less(e, c)
    {
      FirstOne(c, e, n, k);
    }
  }
}
