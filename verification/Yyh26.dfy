/**
 YYH26: the leader shares each of its elements among all parties modulo four primes, the shares are
 refreshed with masks that cancel, and an element belongs to the result when the leader's share and
 those of threshold - 1 clients reconstruct it modulo every prime.
 */
module Yyh26 {
  import opened NumberTheory
  import opened Polynomials
  import opened Shamir
  import opened Lanes
  import opened Combinations
  import opened OleRefresh
  import opened RefreshDelivery
  import opened Reconstruction
  import opened BlockRows
  import Flags = Selection
  import opened ShareDelivery

  // ---------------------------------------------------------------- one element's shares

  // The random coefficients of one element's four sharings.
  ghost predicate ValidHigher(higher: seq<seq<int>>, t: nat) {
    |higher| == 4 && forall k :: 0 <= k < 4 ==> |higher[k]| == if t == 0 then 0 else t - 1
  }

  // What party u's share of x is modulo prime k.
  function ShareValue(x: nat, higher: seq<seq<int>>, ms: seq<nat>, k: nat, u: nat): nat
    requires |higher| == |ms| == 4 && k < 4 && ms[k] > 0
  {
    Eval([x % ms[k]] + higher[k], u + 1) % ms[k]
  }

  // The shares of one element: four lists of n.
  ghost predicate Shared(shares: seq<seq<nat>>, x: nat, higher: seq<seq<int>>, ms: seq<nat>, n: nat)
    requires LaneModuli(ms) && |higher| == 4
  {
    |shares| == 4 && forall k :: 0 <= k < 4 ==>
      |shares[k]| == n && forall u :: 0 <= u < n ==> shares[k][u] == ShareValue(x, higher, ms, k, u)
  }

  /** The four sharings of one element: modulo every prime, any `threshold` shares lie on a polynomial with
      the element as constant term. */
  method ShareLanes(x: nat, n: nat, t: nat, higher: seq<seq<int>>, ms: seq<nat>) returns (shares: seq<seq<nat>>)
    requires LaneModuli(ms) && ValidHigher(higher, t)
    ensures Shared(shares, x, higher, ms, n)
    ensures forall k :: 0 <= k < 4 ==> Dealt(shares[k], t, ms[k], x)
  {
    shares := [];
    for k := 0 to 4
      invariant |shares| == k
      invariant forall j :: 0 <= j < k ==>
        |shares[j]| == n && forall u :: 0 <= u < n ==> shares[j][u] == ShareValue(x, higher, ms, j, u)
      invariant forall j :: 0 <= j < k ==> Dealt(shares[j], t, ms[j], x)
    {
      var lane := ShareSecret(x, n, t, ms[k], higher[k]);
      shares := shares + [lane];
    }
  }

  // Party u's four shares.
  function SharesOf(shares: seq<seq<nat>>, u: nat): (r: seq<nat>)
    requires |shares| == 4 && forall k :: 0 <= k < 4 ==> u < |shares[k]|
    ensures |r| == 4 && forall k :: 0 <= k < 4 ==> r[k] == shares[k][u]
  {
    [shares[0][u], shares[1][u], shares[2][u], shares[3][u]]
  }

  // ---------------------------------------------------------------- one element at the leader

  // Everything the parties draw for the refresh, and the common sizes.
  datatype Setting = Setting(n: nat, t: nat, ds: seq<Draws>, ms: seq<nat>)

  ghost predicate ValidSetting(e: Setting) {
    && 1 <= e.t <= e.n && |e.ds| == e.n - 1 && LaneModuli(e.ms)
    && forall j :: 0 <= j < |e.ds| ==> ValidDraws(e.ds[j], e.t)
  }

  // The word of party u is its refreshed share of x, in every lane.
  ghost predicate GoodWord(word: nat, e: Setting, x: nat, higher: seq<seq<int>>, b: nat, u: nat)
    requires LaneModuli(e.ms) && |higher| == 4
  {
    forall k :: 0 <= k < 4 ==> RefreshedLane(word, ShareValue(x, higher, e.ms, k, u), e.ds, b, u, e.ms, k)
  }

  /** The word in full: in every lane the value of the sharing polynomial at the party's point plus all updates. */
  lemma {:induction false} GoodWordIff(word: nat, e: Setting, x: nat, higher: seq<seq<int>>, b: nat, u: nat)
    requires LaneModuli(e.ms) && |higher| == 4
    ensures GoodWord(word, e, x, higher, b, u) <==> forall k :: 0 <= k < 4 ==>
      Lane(word, k) < e.ms[k] && Cong(Lane(word, k), Eval([x % e.ms[k]] + higher[k], u + 1) + UpdateSum(e.ds, k, b, u), e.ms[k])
  {
    forall k | 0 <= k < 4
      ensures RefreshedLane(word, ShareValue(x, higher, e.ms, k, u), e.ds, b, u, e.ms, k) <==>
        Lane(word, k) < e.ms[k] && Cong(Lane(word, k), Eval([x % e.ms[k]] + higher[k], u + 1) + UpdateSum(e.ds, k, b, u), e.ms[k])
    {
      var v, s, m := Eval([x % e.ms[k]] + higher[k], u + 1), UpdateSum(e.ds, k, b, u), e.ms[k];
      CongMod(v, m);
      CongAdd(v % m, v, s, s, m);
    }
  }

  predicate FourLists(shares: seq<seq<nat>>, n: nat) {
    |shares| == 4 && forall k :: 0 <= k < 4 ==> |shares[k]| == n
  }

  // One client's rows for the bin the element sits in, read with the leader's OPRF values.
  ghost predicate Readable(rows: seq<Row>) {
    |rows| == 5 && forall k :: 0 <= k < 5 ==> rows[k].Full()
  }

  ghost predicate ServesElement(rows: seq<Row>, values: nat -> nat, e: Setting, x: nat, shares: seq<seq<nat>>, b: nat, u: nat)
    requires LaneModuli(e.ms) && Readable(rows) && FourLists(shares, e.n) && u < e.n
  {
    Served(SlotsRead(rows, values), values, SharesOf(shares, u), e.ds, x, u, b, e.ms)
  }

  // A word as it is collected: in every lane the leader's half for the slot number it reads, and what it reads.
  ghost predicate CollectedWord(word: nat, rows: seq<Row>, values: nat -> nat, e: Setting, x: nat, b: nat, u: nat)
    requires LaneModuli(e.ms) && Readable(rows)
  {
    WordFrom(word, SlotsRead(rows, values), values, e, x, b, u)
  }

  ghost predicate WordFrom(word: nat, slots: Slots, values: nat -> nat, e: Setting, x: nat, b: nat, u: nat)
    requires LaneModuli(e.ms)
  {
    |slots.shares| == 4 && forall k :: 0 <= k < 4 ==> Collected(word, slots, values, e.ds, x, Cell(u, Shown(slots.index, values(4)), b), e.ms, k)
  }

  /** The leader's word for one client: whatever it reads, with its own half added; if the rows serve the element
      it is the client's refreshed share. */
  method ClientWord(e: Setting, x: nat, b: nat, u: nat, rows: seq<Row>, values: nat -> nat, ghost shares: seq<seq<nat>>,
                    ghost higher: seq<seq<int>>)
    returns (word: nat)
    requires ValidSetting(e) && ValidHigher(higher, e.t) && x < LANE && u < e.n - 1 && Readable(rows)
    requires Shared(shares, x, higher, e.ms, e.n)
    ensures ServesElement(rows, values, e, x, shares, b, u) ==> GoodWord(word, e, x, higher, b, u)
    ensures CollectedWord(word, rows, values, e, x, b, u)
  {
    var slots := ReadSlots(rows, values);
    word := CollectShare(slots, values, e.ds, e.n, e.t, x, u, b, e.ms);
    if ServesElement(rows, values, e, x, shares, b, u) {
      ghost var mine := SharesOf(shares, u);
      ServedRefreshes(word, slots, values, mine, e.ds, x, u, b, e.ms);
      WordOfShares(word, e, x, higher, b, u, mine);
    }
  }

  lemma {:induction false} WordOfShares(word: nat, e: Setting, x: nat, higher: seq<seq<int>>, b: nat, u: nat, mine: seq<nat>)
    requires LaneModuli(e.ms) && |higher| == 4 && |mine| == 4
    requires forall k :: 0 <= k < 4 ==> mine[k] == ShareValue(x, higher, e.ms, k, u)
    requires RefreshedWord(word, mine, e.ds, b, u, e.ms)
    ensures GoodWord(word, e, x, higher, b, u)
  {
    forall k | 0 <= k < 4
      ensures RefreshedLane(word, ShareValue(x, higher, e.ms, k, u), e.ds, b, u, e.ms, k)
    {
      assert RefreshedLane(word, mine[k], e.ds, b, u, e.ms, k);
    }
  }

  method AddTotal(mine: seq<nat>, total: nat, ghost ds: seq<Draws>, ms: seq<nat>, ghost b: nat, ghost i: nat) returns (word: nat)
    requires LaneModuli(ms) && |mine| == 4
    requires forall k :: 0 <= k < 4 ==> Cong(Lane(total, k), UpdateSum(ds, k, b, i), ms[k])
    ensures RefreshedWord(word, mine, ds, b, i, ms)
  {
    var lanes: seq<nat> := [];
    for k := 0 to 4
      invariant |lanes| == k
      invariant forall j :: 0 <= j < k ==> lanes[j] < ms[j] && Cong(lanes[j], mine[j] + UpdateSum(ds, j, b, i), ms[j])
    {
      var next := AddMod(mine[k], Lane(total, k), ms[k], UpdateSum(ds, k, b, i));
      lanes := lanes + [next];
    }
    word := Pack(lanes);
    forall k | 0 <= k < 4
      ensures RefreshedLane(word, mine[k], ds, b, i, ms, k)
    {
      assert Lane(word, k) == lanes[k];
    }
  }

  method AddMod(a: nat, b: nat, m: nat, ghost sum: int) returns (r: nat)
    requires m > 0 && Cong(b, sum, m)
    ensures r < m && Cong(r, a + sum, m)
  {
    CongMod(a + b, m);
    CongAdd(a, a, b, sum, m);
    r := (a + b) % m;
  }

  // The leader's own share plus all clients' updates for it.
  method LeaderWord(e: Setting, x: nat, b: nat, shares: seq<seq<nat>>, ghost higher: seq<seq<int>>) returns (word: nat)
    requires ValidSetting(e) && ValidHigher(higher, e.t) && Shared(shares, x, higher, e.ms, e.n)
    ensures GoodWord(word, e, x, higher, b, e.n - 1)
  {
    var leader := e.n - 1;
    var mine := SharesOf(shares, leader);
    var total := UpdateTotal(e.ds, e.ms, e.n, e.t, b, leader);
    word := AddTotal(mine, total, e.ds, e.ms, b, leader);
    WordOfShares(word, e, x, higher, b, leader, mine);
  }

  // The words of all parties: refreshed shares wherever the element is held, and at the leader.
  ghost predicate GoodWords(words: seq<nat>, held: seq<bool>, e: Setting, x: nat, higher: seq<seq<int>>, b: nat)
    requires LaneModuli(e.ms) && |higher| == 4 && e.n > 0
  {
    |words| == e.n == |held| + 1 && GoodWord(words[e.n - 1], e, x, higher, b, e.n - 1) && GoodFirst(words, held, e, x, higher, b, e.n - 1)
  }

  ghost predicate GoodFirst(words: seq<nat>, held: seq<bool>, e: Setting, x: nat, higher: seq<seq<int>>, b: nat, count: nat)
    requires LaneModuli(e.ms) && |higher| == 4
  {
    count <= |words| && count <= |held| && forall u :: 0 <= u < count && held[u] ==> GoodWord(words[u], e, x, higher, b, u)
  }

  lemma {:induction false} GoodNext(words: seq<nat>, word: nat, held: seq<bool>, e: Setting, x: nat, higher: seq<seq<int>>, b: nat, u: nat)
    requires LaneModuli(e.ms) && |higher| == 4 && |words| == u < |held| && GoodFirst(words, held, e, x, higher, b, u)
    requires held[u] ==> GoodWord(word, e, x, higher, b, u)
    ensures GoodFirst(words + [word], held, e, x, higher, b, u + 1)
  {
  }

  // What the leader reads for one element: rows and OPRF values, one per client; whoever holds the element serves it.
  ghost predicate AllServe(rows: seq<seq<Row>>, values: seq<nat -> nat>, held: seq<bool>, e: Setting, x: nat, shares: seq<seq<nat>>, b: nat)
    requires LaneModuli(e.ms) && e.n > 0 && FourLists(shares, e.n)
  {
    && |rows| == |values| == |held| == e.n - 1 && (forall u :: 0 <= u < |rows| ==> Readable(rows[u]))
    && forall u :: 0 <= u < |held| && held[u] ==> ServesElement(rows[u], values[u], e, x, shares, b, u)
  }

  // The clients' words are what was collected.
  ghost predicate WordsCollected(words: seq<nat>, rows: seq<seq<Row>>, values: seq<nat -> nat>, e: Setting, x: nat, b: nat, upto: nat)
    requires LaneModuli(e.ms)
  {
    && upto <= |words| && upto <= |rows| == |values|
    && forall u :: 0 <= u < upto ==> Readable(rows[u]) && CollectedWord(words[u], rows[u], values[u], e, x, b, u)
  }

  lemma {:induction false} CollectedMore(words: seq<nat>, word: nat, rows: seq<seq<Row>>, values: seq<nat -> nat>, e: Setting, x: nat,
                                         b: nat, u: nat)
    requires LaneModuli(e.ms) && |words| == u && WordsCollected(words, rows, values, e, x, b, u)
    requires u < |rows| ==> Readable(rows[u]) && CollectedWord(word, rows[u], values[u], e, x, b, u)
    ensures WordsCollected(words + [word], rows, values, e, x, b, if u < |rows| then u + 1 else u)
  {
  }

  method CollectElement(e: Setting, x: nat, b: nat, rows: seq<seq<Row>>, values: seq<nat -> nat>, shares: seq<seq<nat>>,
                        ghost higher: seq<seq<int>>, ghost held: seq<bool>)
    returns (words: seq<nat>)
    requires ValidSetting(e) && ValidHigher(higher, e.t) && x < LANE && Shared(shares, x, higher, e.ms, e.n)
    requires AllServe(rows, values, held, e, x, shares, b)
    ensures GoodWords(words, held, e, x, higher, b) && WordsCollected(words, rows, values, e, x, b, e.n - 1)
  {
    words := [];
    for u := 0 to |rows|
      invariant |words| == u && GoodFirst(words, held, e, x, higher, b, u) && WordsCollected(words, rows, values, e, x, b, u)
    {
      var word := ClientWord(e, x, b, u, rows[u], values[u], shares, higher);
      GoodNext(words, word, held, e, x, higher, b, u);
      CollectedMore(words, word, rows, values, e, x, b, u);
      words := words + [word];
    }
    var own := LeaderWord(e, x, b, shares, higher);
    CollectedMore(words, own, rows, values, e, x, b, |rows|);
    words := words + [own];
  }

  // ---------------------------------------------------------------- the decision

  // threshold - 1 clients, in order, and then the leader.
  ghost predicate Selection(sel: seq<nat>, n: nat, t: nat) {
    Combination(sel, n, t) && 1 <= t <= n && sel[t - 1] == n - 1
  }

  // Some threshold - 1 clients together with the leader reconstruct the element.
  ghost predicate Reconstructs(words: seq<nat>, ms: seq<nat>, t: nat, x: nat)
    requires LaneModuli(ms)
  {
    exists sel: seq<nat> :: Selection(sel, |words|, t) && FitsAll(sel, words, ms, x)
  }

  /** Some clients in increasing order, threshold - 1 of them, and then the leader. */
  lemma {:induction false} ReconstructsIff(words: seq<nat>, ms: seq<nat>, t: nat, x: nat)
    requires LaneModuli(ms)
    ensures Reconstructs(words, ms, t, x) <==> exists sel: seq<nat> ::
      && |sel| == t && 1 <= t <= |words| && (forall i :: 0 <= i < t ==> sel[i] < |words|)
      && (forall i, j :: 0 <= i < j < t ==> sel[i] < sel[j]) && sel[t - 1] == |words| - 1 && FitsAll(sel, words, ms, x)
  {
  }

  // The leader's index goes to the end of every combination.
  method WithLeader(combinations: seq<seq<nat>>, leader: nat) returns (r: seq<seq<nat>>)
    ensures |r| == |combinations| && forall i :: 0 <= i < |r| ==> r[i] == combinations[i] + [leader]
  {
    r := [];
    for i := 0 to |combinations|
      invariant |r| == i && forall j :: 0 <= j < i ==> r[j] == combinations[j] + [leader]
    {
      r := r + [combinations[i] + [leader]];
    }
  }

  /** The list the leader goes through: exactly the selections of threshold - 1 clients and itself. */
  method Selections(n: nat, t: nat) returns (all: seq<seq<nat>>)
    requires 1 <= t <= n
    ensures forall sel: seq<nat> :: sel in all <==> Selection(sel, n, t)
  {
    var clients := GetCombinations(n - 1, t - 1);
    all := WithLeader(clients, n - 1);
    forall sel: seq<nat> | sel in all
      ensures Selection(sel, n, t)
    {
      var i :| 0 <= i < |all| && all[i] == sel;
      assert Combination(clients[i], n - 1, t - 1);
    }
    forall sel: seq<nat> | Selection(sel, n, t)
      ensures sel in all
    {
      var c := sel[..t - 1];
      assert Combination(c, n - 1, t - 1) && c in clients;
      var i :| 0 <= i < |clients| && clients[i] == c;
      assert all[i] == sel;
    }
  }

  method TrySelection(sel: seq<nat>, words: seq<nat>, ms: seq<nat>, t: nat, x: nat) returns (res: bool)
    requires PrimeLanes(ms) && Selection(sel, |words|, t) && forall k :: 0 <= k < 4 ==> |words| < ms[k]
    ensures res <==> FitsAll(sel, words, ms, x)
  {
    res := Reconstruct(sel, words, ms, x);
  }

  // The loop over the selections for one element, leaving at the first that reconstructs.
  method Decide(words: seq<nat>, all: seq<seq<nat>>, ms: seq<nat>, t: nat, x: nat) returns (marked: bool)
    requires PrimeLanes(ms) && forall k :: 0 <= k < 4 ==> |words| < ms[k]
    requires forall sel: seq<nat> :: sel in all <==> Selection(sel, |words|, t)
    ensures marked <==> Reconstructs(words, ms, t, x)
  {
    for i := 0 to |all|
      invariant forall j :: 0 <= j < i ==> Selection(all[j], |words|, t) && !FitsAll(all[j], words, ms, x)
    {
      assert all[i] in all && Selection(all[i], |words|, t);
      var res := TrySelection(all[i], words, ms, t, x);
      if res {
        return true;
      }
    }
    marked := false;
  }

  // ---------------------------------------------------------------- completeness

  function CountHeld(held: seq<bool>): nat {
    if |held| == 0 then 0 else CountHeld(held[..|held| - 1]) + if held[|held| - 1] then 1 else 0
  }

  /** The holders, counted. */
  lemma {:induction false} HeldCounts(held: seq<bool>, k: nat)
    requires k <= |held|
    ensures CountHeld(held[..k]) == |Flags.Flagged(held, k)|
  {
    if k == 0 {
      Flags.NothingFlagged(held);
    } else {
      HeldCounts(held, k - 1);
      assert held[..k][..k - 1] == held[..k - 1];
      Flags.FlaggedNext(held, k - 1);
    }
  }

  // When at least k clients hold an element, some k of them can be listed in order.
  lemma {:induction false} SomeHolders(held: seq<bool>, k: nat) returns (c: seq<nat>)
    requires CountHeld(held) >= k
    ensures Combination(c, |held|, k) && forall i :: 0 <= i < k ==> held[c[i]]
  {
    if k == 0 {
      c := [];
    } else {
      var n := |held| - 1;
      if held[n] {
        var front := SomeHolders(held[..n], k - 1);
        c := front + [n];
      } else {
        c := SomeHolders(held[..n], k);
      }
    }
  }

  /** Completeness for one element: with threshold - 1 holders besides the leader it reconstructs, for
      all sharing polynomials, updates, masks and OPRF values. */
  lemma {:induction false} EnoughHolders(words: seq<nat>, held: seq<bool>, e: Setting, x: nat, higher: seq<seq<int>>, b: nat)
    requires ValidSetting(e) && ValidHigher(higher, e.t) && GoodWords(words, held, e, x, higher, b)
    requires CountHeld(held) >= e.t - 1
    ensures Reconstructs(words, e.ms, e.t, x)
  {
    var c := SomeHolders(held, e.t - 1);
    var sel := c + [e.n - 1];
    forall k | 0 <= k < 4
      ensures Fits(PointsOf(sel), ValuesOf(sel, words, k, e.ms[k]), e.ms[k], x)
    {
      forall i | 0 <= i < |sel|
        ensures RefreshedLane(words[sel[i]], Eval([x % e.ms[k]] + higher[k], sel[i] + 1) % e.ms[k], e.ds, b, sel[i], e.ms, k)
      {
        assert GoodWord(words[sel[i]], e, x, higher, b, sel[i]);
        assert ShareValue(x, higher, e.ms, k, sel[i]) == Eval([x % e.ms[k]] + higher[k], sel[i] + 1) % e.ms[k];
        assert RefreshedLane(words[sel[i]], ShareValue(x, higher, e.ms, k, sel[i]), e.ds, b, sel[i], e.ms, k);
      }
      RefreshedFits(sel, words, e.ms, k, e.ds, b, e.t, higher[k], x);
    }
    assert Selection(sel, |words|, e.t) && FitsAll(sel, words, e.ms, x);
  }
}
