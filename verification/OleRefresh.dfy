/**
 The oblivious refresh of YYH26: every client masks the leader's and the other clients' linear
 evaluations with values of its own, and all masks cancel when a client's and the leader's halves meet.
 */
module OleRefresh {
  import opened NumberTheory
  import opened Polynomials
  import opened Shamir
  import opened Lanes

  // The moduli of the four lanes.
  ghost predicate LaneModuli(ms: seq<nat>) {
    |ms| == 4 && forall k :: 0 <= k < 4 ==> 1 < ms[k] < LANE
  }

  // A client's random masks and offsets, for receiver u, slot s and bin b, and the higher coefficients
  // of its update polynomials, for lane k and bin b.
  datatype Draws = Draws(random: (nat, nat, nat) -> nat, part: (nat, nat, nat) -> nat, higher: (nat, nat) -> seq<int>)

  ghost predicate ValidDraws(d: Draws, t: nat) {
    forall k, b :: |d.higher(k, b)| == if t == 0 then 0 else t - 1
  }

  // What the refresh is about: the receiving client, the slot and bin, and the element.
  datatype Cell = Cell(u: nat, s: nat, b: nat)

  function Factor(d: Draws, ms: seq<nat>, k: nat, c: Cell): nat
    requires k < 4 && |ms| == 4 && ms[k] > 0
  {
    Lane(d.random(c.u, c.s, c.b), k) % ms[k]
  }

  function Offset(d: Draws, ms: seq<nat>, k: nat, c: Cell): nat
    requires k < 4 && |ms| == 4 && ms[k] > 0
  {
    Lane(d.part(c.u, c.s, c.b), k) % ms[k]
  }

  // The client's update for party i: its zero-constant polynomial at i + 1.
  function Update(d: Draws, k: nat, b: nat, i: nat): int {
    Eval([0] + d.higher(k, b), i + 1)
  }

  // ---------------------------------------------------------------- the two halves

  // One client's share of the leader's half: a x + (update - offset).
  function LeaderTerm(d: Draws, ms: seq<nat>, k: nat, c: Cell, x: nat): int
    requires k < 4 && |ms| == 4 && ms[k] > 0
  {
    Factor(d, ms, k, c) * x + Update(d, k, c.b, c.u) - Offset(d, ms, k, c)
  }

  // The same client's share of the receiving client's half: -a x + offset.
  function ClientTerm(d: Draws, ms: seq<nat>, k: nat, c: Cell, x: nat): int
    requires k < 4 && |ms| == 4 && ms[k] > 0
  {
    Offset(d, ms, k, c) - Factor(d, ms, k, c) * x
  }

  function LeaderSum(ds: seq<Draws>, ms: seq<nat>, k: nat, c: Cell, x: nat): int
    requires k < 4 && |ms| == 4 && ms[k] > 0
  {
    if |ds| == 0 then 0 else LeaderSum(ds[..|ds| - 1], ms, k, c, x) + LeaderTerm(ds[|ds| - 1], ms, k, c, x)
  }

  function ClientSum(ds: seq<Draws>, ms: seq<nat>, k: nat, c: Cell, x: nat): int
    requires k < 4 && |ms| == 4 && ms[k] > 0
  {
    if |ds| == 0 then 0 else ClientSum(ds[..|ds| - 1], ms, k, c, x) + ClientTerm(ds[|ds| - 1], ms, k, c, x)
  }

  function UpdateSum(ds: seq<Draws>, k: nat, b: nat, i: nat): int {
    if |ds| == 0 then 0 else UpdateSum(ds[..|ds| - 1], k, b, i) + Update(ds[|ds| - 1], k, b, i)
  }

  // The terms in full: the leader gets a x + update - offset, the receiving client offset - a x.
  lemma {:induction false} TermsInFull(d: Draws, ms: seq<nat>, k: nat, c: Cell, x: nat)
    requires k < 4 && |ms| == 4 && ms[k] > 0
    ensures var a, offset := Lane(d.random(c.u, c.s, c.b), k) % ms[k], Lane(d.part(c.u, c.s, c.b), k) % ms[k];
      && LeaderTerm(d, ms, k, c, x) == a * x + Eval([0] + d.higher(k, c.b), c.u + 1) - offset
      && ClientTerm(d, ms, k, c, x) == offset - a * x
    ensures Update(d, k, c.b, c.u) == Eval([0] + d.higher(k, c.b), c.u + 1)
  {
  }

  /** The sums start at nothing and grow by one client's term. */
  lemma {:induction false} SumsGrow(ds: seq<Draws>, d: Draws, ms: seq<nat>, k: nat, c: Cell, x: nat)
    requires k < 4 && |ms| == 4 && ms[k] > 0
    ensures LeaderSum([], ms, k, c, x) == 0 && ClientSum([], ms, k, c, x) == 0 && UpdateSum([], k, c.b, c.u) == 0
    ensures LeaderSum(ds + [d], ms, k, c, x) == LeaderSum(ds, ms, k, c, x) + LeaderTerm(d, ms, k, c, x)
    ensures ClientSum(ds + [d], ms, k, c, x) == ClientSum(ds, ms, k, c, x) + ClientTerm(d, ms, k, c, x)
    ensures UpdateSum(ds + [d], k, c.b, c.u) == UpdateSum(ds, k, c.b, c.u) + Eval([0] + d.higher(k, c.b), c.u + 1)
  {
    assert (ds + [d])[..|ds|] == ds;
  }

  /** The masks of all clients cancel: what is left is the sum of their updates. */
  lemma {:induction false} MasksCancel(ds: seq<Draws>, ms: seq<nat>, k: nat, c: Cell, x: nat)
    requires k < 4 && |ms| == 4 && ms[k] > 0
    ensures LeaderSum(ds, ms, k, c, x) + ClientSum(ds, ms, k, c, x) == UpdateSum(ds, k, c.b, c.u)
  {
    if |ds| > 0 {
      MasksCancel(ds[..|ds| - 1], ms, k, c, x);
    }
  }

  // ---------------------------------------------------------------- oblivious linear evaluation

  // What the receiver of one OLE instance gets for its input x from a sender with a and b.
  function Ole(a: nat, x: nat, b: nat, m: nat): nat
    requires m > 0
  {
    (a * x + b) % m
  }


  // One client's OLE with the leader, lane by lane; the leader's input has the element in every lane.
  method OleWithLeader(d: Draws, ms: seq<nat>, updates: nat, input: nat, c: Cell, ghost x: nat) returns (word: nat)
    requires LaneModuli(ms) && forall k :: 0 <= k < 4 ==> Lane(input, k) == x
    requires forall k :: 0 <= k < 4 ==> Cong(Lane(updates, k), Update(d, k, c.b, c.u), ms[k])
    ensures forall k :: 0 <= k < 4 ==> Lane(word, k) < ms[k] && Cong(Lane(word, k), LeaderTerm(d, ms, k, c, x), ms[k])
    ensures forall k :: 0 <= k < 4 ==> Cong(Lane(word, k), (Lane(d.random(c.u, c.s, c.b), k) % ms[k]) * x
      + Eval([0] + d.higher(k, c.b), c.u + 1) - Lane(d.part(c.u, c.s, c.b), k) % ms[k], ms[k])
  {
    var lanes: seq<nat> := [];
    for k := 0 to 4
      invariant |lanes| == k
      invariant forall j :: 0 <= j < k ==> lanes[j] < ms[j] && Cong(lanes[j], LeaderTerm(d, ms, j, c, x), ms[j])
    {
      var m := ms[k];
      var a := Lane(d.random(c.u, c.s, c.b), k) % m;
      var randnumA := Lane(d.part(c.u, c.s, c.b), k) % m;
      var randnumB := Lane(updates, k) % m;
      var b := (randnumB + m - randnumA) % m;
      LeaderLane(a, x, randnumA, Lane(updates, k), Update(d, k, c.b, c.u), m);
      lanes := lanes + [Ole(a, Lane(input, k), b, m)];
    }
    word := Pack(lanes);
  }

  lemma {:induction false} LeaderLane(a: nat, x: nat, offset: nat, u: nat, update: int, m: nat)
    requires m > 1 && offset < m && Cong(u, update, m)
    ensures u % m + m - offset >= 0
    ensures Ole(a, x, (u % m + m - offset) % m, m) < m
    ensures Cong(Ole(a, x, (u % m + m - offset) % m, m), a * x + update - offset, m)
  {
    var r := u % m;
    var b := r + m - offset;
    CongMod(u, m);
    CongIntro(b, r - offset, m, 1);
    CongAdd(r, update, offset, offset, m);
    CongMod(b, m);
    CongAdd(a * x, a * x, b % m, update - offset, m);
    CongMod(a * x + b % m, m);
  }

  // One client's OLE with another client, or its own term: the mask enters negated.
  method OleWithClient(d: Draws, ms: seq<nat>, input: nat, c: Cell, ghost x: nat) returns (word: nat)
    requires LaneModuli(ms) && forall k :: 0 <= k < 4 ==> Lane(input, k) == x
    ensures forall k :: 0 <= k < 4 ==> Lane(word, k) < ms[k] && Cong(Lane(word, k), ClientTerm(d, ms, k, c, x), ms[k])
    ensures forall k :: 0 <= k < 4 ==> Cong(Lane(word, k),
      Lane(d.part(c.u, c.s, c.b), k) % ms[k] - (Lane(d.random(c.u, c.s, c.b), k) % ms[k]) * x, ms[k])
  {
    var lanes: seq<nat> := [];
    for k := 0 to 4
      invariant |lanes| == k
      invariant forall j :: 0 <= j < k ==> lanes[j] < ms[j] && Cong(lanes[j], ClientTerm(d, ms, j, c, x), ms[j])
    {
      var m := ms[k];
      var randnum := Lane(d.random(c.u, c.s, c.b), k) % m;
      var b := Lane(d.part(c.u, c.s, c.b), k) % m;
      ClientLane(randnum, x, b, m);
      lanes := lanes + [Ole(m - randnum, Lane(input, k), b, m)];
    }
    word := Pack(lanes);
  }

  lemma {:induction false} ClientLane(a: nat, x: nat, offset: nat, m: nat)
    requires m > 1 && a < m
    ensures Ole(m - a, x, offset, m) < m && Cong(Ole(m - a, x, offset, m), offset - a * x, m)
  {
    var p := (m - a) * x;
    NegatedFactor(a, x, m);
    CongAdd(p, 0 - a * x, offset, offset, m);
    CongMod(p + offset, m);
  }

  lemma {:induction false} NegatedFactor(a: int, x: int, m: int)
    requires m > 0
    ensures Cong((m - a) * x, 0 - a * x, m)
  {
    Distribute(x, m, 0 - a);
    assert (0 - a) * x == 0 - a * x;
    CongIntro((m - a) * x, 0 - a * x, m, x);
  }

  // Adding two words lane by lane.
  method AddWords(v: nat, w: nat, ms: seq<nat>) returns (res: nat)
    requires LaneModuli(ms)
    ensures forall k :: 0 <= k < 4 ==> Lane(res, k) < ms[k] && Cong(Lane(res, k), Lane(v, k) + Lane(w, k), ms[k])
  {
    var lanes: seq<nat> := [];
    for k := 0 to 4
      invariant |lanes| == k
      invariant forall j :: 0 <= j < k ==> lanes[j] < ms[j] && Cong(lanes[j], Lane(v, j) + Lane(w, j), ms[j])
    {
      var m := ms[k];
      CongMod(Lane(v, k), m);
      CongMod(Lane(w, k), m);
      CongAdd(Lane(v, k) % m, Lane(v, k), Lane(w, k) % m, Lane(w, k), m);
      CongMod(Lane(v, k) % m + Lane(w, k) % m, m);
      lanes := lanes + [(Lane(v, k) % m + Lane(w, k) % m) % m];
    }
    res := Pack(lanes);
  }

  lemma {:induction false} AddLane(sum: int, v: int, term: int, w: int, r: int, m: nat)
    requires m > 0 && Cong(v, sum, m) && Cong(w, term, m) && Cong(r, v + w, m)
    ensures Cong(r, sum + term, m)
  {
    CongAdd(v, sum, w, term, m);
  }

  // ---------------------------------------------------------------- the sums

  // The updates of one client for party i and bin b, one per lane.
  method UpdateWord(d: Draws, ms: seq<nat>, n: nat, t: nat, b: nat, i: nat) returns (word: nat)
    requires LaneModuli(ms) && ValidDraws(d, t) && i < n
    ensures forall k :: 0 <= k < 4 ==> Lane(word, k) < ms[k] && Cong(Lane(word, k), Update(d, k, b, i), ms[k])
  {
    var lanes: seq<nat> := [];
    for k := 0 to 4
      invariant |lanes| == k
      invariant forall j :: 0 <= j < k ==> lanes[j] < ms[j] && Cong(lanes[j], Update(d, j, b, i), ms[j])
    {
      var updates := GenerateUpdateValues(n, t, ms[k], d.higher(k, b));
      CongMod(Update(d, k, b, i), ms[k]);
      lanes := lanes + [updates[i]];
    }
    word := Pack(lanes);
  }

  // The leader's half for one cell: the OLE results of all clients, added up.
  method LeaderHalf(ds: seq<Draws>, ms: seq<nat>, n: nat, t: nat, x: nat, c: Cell) returns (word: nat)
    requires LaneModuli(ms) && x < LANE && c.u < n && forall j :: 0 <= j < |ds| ==> ValidDraws(ds[j], t)
    ensures forall k :: 0 <= k < 4 ==> Lane(word, k) < ms[k] && Cong(Lane(word, k), LeaderSum(ds, ms, k, c, x), ms[k])
  {
    var input := Pack([x, x, x, x]);
    word := 0;
    for j := 0 to |ds|
      invariant forall k :: 0 <= k < 4 ==> Lane(word, k) < ms[k] && Cong(Lane(word, k), LeaderSum(ds[..j], ms, k, c, x), ms[k])
    {
      var updates := UpdateWord(ds[j], ms, n, t, c.b, c.u);
      var part := OleWithLeader(ds[j], ms, updates, input, c, x);
      var next := AddWords(word, part, ms);
      assert ds[..j + 1][..j] == ds[..j];
      forall k | 0 <= k < 4
        ensures Cong(Lane(next, k), LeaderSum(ds[..j + 1], ms, k, c, x), ms[k])
      {
        AddLane(LeaderSum(ds[..j], ms, k, c, x), Lane(word, k), LeaderTerm(ds[j], ms, k, c, x), Lane(part, k), Lane(next, k), ms[k]);
      }
      word := next;
    }
    assert ds[..|ds|] == ds;
  }

  // The receiving client's half: its own term and the OLE results from all other clients.
  method ClientHalf(ds: seq<Draws>, ms: seq<nat>, x: nat, c: Cell) returns (word: nat)
    requires LaneModuli(ms) && x < LANE && |ds| > 0
    ensures forall k :: 0 <= k < 4 ==> Lane(word, k) < ms[k] && Cong(Lane(word, k), ClientSum(ds, ms, k, c, x), ms[k])
  {
    var input := Pack([x, x, x, x]);
    word := OleWithClient(ds[0], ms, input, c, x);
    assert ds[..1][..0] == [];
    for i := 1 to |ds|
      invariant forall k :: 0 <= k < 4 ==> Lane(word, k) < ms[k] && Cong(Lane(word, k), ClientSum(ds[..i], ms, k, c, x), ms[k])
    {
      var part := OleWithClient(ds[i], ms, input, c, x);
      var next := AddWords(word, part, ms);
      assert ds[..i + 1][..i] == ds[..i];
      forall k | 0 <= k < 4
        ensures Cong(Lane(next, k), ClientSum(ds[..i + 1], ms, k, c, x), ms[k])
      {
        AddLane(ClientSum(ds[..i], ms, k, c, x), Lane(word, k), ClientTerm(ds[i], ms, k, c, x), Lane(part, k), Lane(next, k), ms[k]);
      }
      word := next;
    }
    assert ds[..|ds|] == ds;
  }

  // The sum of all clients' updates for the leader.
  method UpdateTotal(ds: seq<Draws>, ms: seq<nat>, n: nat, t: nat, b: nat, i: nat) returns (word: nat)
    requires LaneModuli(ms) && i < n && forall j :: 0 <= j < |ds| ==> ValidDraws(ds[j], t)
    ensures forall k :: 0 <= k < 4 ==> Lane(word, k) < ms[k] && Cong(Lane(word, k), UpdateSum(ds, k, b, i), ms[k])
  {
    word := 0;
    for j := 0 to |ds|
      invariant forall k :: 0 <= k < 4 ==> Lane(word, k) < ms[k] && Cong(Lane(word, k), UpdateSum(ds[..j], k, b, i), ms[k])
    {
      var updates := UpdateWord(ds[j], ms, n, t, b, i);
      var next := AddWords(word, updates, ms);
      assert ds[..j + 1][..j] == ds[..j];
      forall k | 0 <= k < 4
        ensures Cong(Lane(next, k), UpdateSum(ds[..j + 1], k, b, i), ms[k])
      {
        AddLane(UpdateSum(ds[..j], k, b, i), Lane(word, k), Update(ds[j], k, b, i), Lane(updates, k), Lane(next, k), ms[k]);
      }
      word := next;
    }
    assert ds[..|ds|] == ds;
  }
}
