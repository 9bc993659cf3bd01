/**
 The batches of YYH26: laid out in rows, evaluated and read back, they give every cell exactly the terms
 that the leader's and the clients' halves of the refresh add up.
 */
module OleBatches {
  import opened NumberTheory
  import opened OleRefresh
  import opened Shamir
  import Layout = OleLayout

  // Which input the receiver of the evaluations has for party i, bin b and slot j.
  type Inputs = (nat, nat, nat) -> nat

  // The summand of a cell: the reduced update less the offset.
  function Summand(d: Draws, ms: seq<nat>, k: nat, update: nat, c: Cell): nat
    requires k < 4 && |ms| == 4 && ms[k] > 0
  {
    (update % ms[k] + ms[k] - Offset(d, ms, k, c)) % ms[k]
  }

  lemma {:induction false} LeaderCell(d: Draws, ms: seq<nat>, k: nat, update: nat, c: Cell, x: nat)
    requires LaneModuli(ms) && k < 4 && Cong(update, Update(d, k, c.b, c.u), ms[k])
    ensures var v := Ole(Factor(d, ms, k, c), x, Summand(d, ms, k, update, c), ms[k]);
      v < ms[k] && Cong(v, LeaderTerm(d, ms, k, c, x), ms[k])
  {
    LeaderLane(Factor(d, ms, k, c), x, Offset(d, ms, k, c), update, Update(d, k, c.b, c.u), ms[k]);
  }

  /** One client's batch with the leader, in lane k: one cell for every other client, bin and slot. */
  method LeaderEvaluations(d: Draws, ms: seq<nat>, k: nat, sizes: seq<nat>, n: nat, maxSize: nat, width: nat,
                           updates: (nat, nat) -> nat, inputs: Inputs)
    returns (out: array3<nat>)
    requires LaneModuli(ms) && k < 4 && width > 0 && forall b :: 0 <= b < |sizes| ==> sizes[b] <= maxSize
    requires forall i, b :: Cong(updates(i, b), Update(d, k, b, i), ms[k])
    ensures forall i: nat, b: nat, j: nat :: i < n && b < |sizes| && j < sizes[b] ==>
      && i < out.Length0 && j < out.Length1 && b < out.Length2
      && out[i, j, b] < ms[k] && Cong(out[i, j, b], LeaderTerm(d, ms, k, Cell(i, j, b), inputs(i, b, j)), ms[k])
  {
    var m := ms[k];
    out := Layout.BatchedOle(sizes, n, maxSize, width, m, (i, b, j) => Factor(d, ms, k, Cell(i, j, b)), inputs,
                             (i, b, j) => Summand(d, ms, k, updates(i, b), Cell(i, j, b)));
    forall i: nat, b: nat, j: nat | i < n && b < |sizes| && j < sizes[b]
      ensures out[i, j, b] < m && Cong(out[i, j, b], LeaderTerm(d, ms, k, Cell(i, j, b), inputs(i, b, j)), m)
    {
      LeaderCell(d, ms, k, updates(i, b), Cell(i, j, b), inputs(i, b, j));
    }
  }

  /** One client's batch with client u, in lane k: the same layout for a single party, the mask negated. */
  method ClientEvaluations(d: Draws, ms: seq<nat>, k: nat, sizes: seq<nat>, u: nat, maxSize: nat, width: nat, inputs: (nat, nat) -> nat)
    returns (out: array3<nat>)
    requires LaneModuli(ms) && k < 4 && width > 0 && forall b :: 0 <= b < |sizes| ==> sizes[b] <= maxSize
    ensures forall b: nat, j: nat :: b < |sizes| && j < sizes[b] ==>
      && 0 < out.Length0 && j < out.Length1 && b < out.Length2
      && out[0, j, b] < ms[k] && Cong(out[0, j, b], ClientTerm(d, ms, k, Cell(u, j, b), inputs(b, j)), ms[k])
  {
    var m := ms[k];
    out := Layout.BatchedOle(sizes, 1, maxSize, width, m, (i, b, j) => m - Factor(d, ms, k, Cell(u, j, b)),
                             (i, b, j) => inputs(b, j), (i, b, j) => Offset(d, ms, k, Cell(u, j, b)));
    forall b: nat, j: nat | b < |sizes| && j < sizes[b]
      ensures out[0, j, b] < m && Cong(out[0, j, b], ClientTerm(d, ms, k, Cell(u, j, b), inputs(b, j)), m)
    {
      ClientLane(Factor(d, ms, k, Cell(u, j, b)), inputs(b, j), Offset(d, ms, k, Cell(u, j, b)), m);
    }
  }

  // ---------------------------------------------------------------- all batches together

  /** At a cell where the leader and the receiving client entered the same element, the results of all
      batches add up to the sum of all clients' updates: whatever was drawn has cancelled. */
  lemma {:induction false} BatchesCancel(ds: seq<Draws>, ms: seq<nat>, k: nat, c: Cell, x: nat, leader: seq<int>, client: seq<int>)
    requires LaneModuli(ms) && k < 4 && |leader| == |client| == |ds|
    requires forall j :: 0 <= j < |ds| ==> Cong(leader[j], LeaderTerm(ds[j], ms, k, c, x), ms[k])
    requires forall j :: 0 <= j < |ds| ==> Cong(client[j], ClientTerm(ds[j], ms, k, c, x), ms[k])
    ensures Cong(SumInts(leader) + SumInts(client), UpdateSum(ds, k, c.b, c.u), ms[k])
  {
    if |ds| > 0 {
      var n, m := |ds| - 1, ms[k];
      BatchesCancel(ds[..n], ms, k, c, x, leader[..n], client[..n]);
      var l, t := LeaderTerm(ds[n], ms, k, c, x), ClientTerm(ds[n], ms, k, c, x);
      CongAdd(leader[n], l, client[n], t, m);
      var rest := SumInts(leader[..n]) + SumInts(client[..n]);
      CongAdd(rest, UpdateSum(ds[..n], k, c.b, c.u), leader[n] + client[n], l + t, m);
    }
  }
}
