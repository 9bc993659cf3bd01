/**
 How one refreshed share of YYH26 reaches the leader: the client programs its share plus its half of
 the refresh, masked by the OPRF, and the slot number; the leader unmasks, picks the half that belongs
 to that slot, and adds.
 */
module RefreshDelivery {
  import opened NumberTheory
  import opened Bits
  import opened Lanes
  import opened OleRefresh

  // What the sender programs for an element, and what the receiver makes of a slot.
  function Masked(payload: nat, oprf: nat, m: nat): (r: nat)
    requires m > 0
    ensures r < m
  {
    (oprf + payload) % m
  }

  function Unmasked(slot: nat, oprf: nat, m: nat): (r: nat)
    requires m > 0
    ensures r < m
  {
    (slot - oprf) % m
  }

  /** The value programmed for an element comes out with the same OPRF value. */
  lemma {:induction false} MaskRoundTrip(payload: nat, oprf: nat, m: nat)
    requires m > 0
    ensures Unmasked(Masked(payload, oprf, m), oprf, m) == payload % m
  {
    CongMod(oprf + payload, m);
    CongAdd((oprf + payload) % m, oprf + payload, oprf, oprf, m);
  }

  // The slot number travels in the low six bits; the bits above are whatever they are.
  function WithIndex(junk: nat, i: nat): nat {
    junk * 64 + i
  }

  function IndexOf(v: nat): (i: nat)
    ensures i < 64
  {
    v % 64
  }

  lemma {:induction false} IndexRoundTrip(junk: nat, i: nat)
    ensures IndexOf(WithIndex(junk, i)) == i % 64
  {
  }

  // What the sender enters for slot number i, and what the receiver makes of it: the OPRF value is or-ed in
  // exclusively and taken out again.
  function Hidden(oprf: nat, junk: nat, i: nat): nat {
    Xor(oprf, WithIndex(junk, i))
  }

  function Shown(slot: nat, oprf: nat): (i: nat)
    ensures i < 64
  {
    IndexOf(Xor(slot, oprf))
  }

  /** A slot number below 64 comes out with the same OPRF value. */
  lemma {:induction false} IndexDelivered(oprf: nat, junk: nat, i: nat)
    ensures Shown(Hidden(oprf, junk, i), oprf) == i % 64
  {
    XorCancels(WithIndex(junk, i), oprf);
    IndexRoundTrip(junk, i);
  }

  /** The same on machine words. */
  lemma IndexWord(oprf: bv128, junk: bv128, i: bv128)
    requires i < 64
    ensures ((oprf ^ ((junk << 6) | i)) ^ oprf) & 0x3F == i
  {}

  // ---------------------------------------------------------------- a client programs

  // What the leader reads for an element from one client: four share slots and the index slot. The OPRF
  // values of the four share tables are numbered 0 to 3, that of the index table 4.
  datatype Slots = Slots(shares: seq<nat>, index: nat)

  // The payload of one lane: share plus half, both reduced.
  function Payload(share: nat, half: nat, m: nat): nat
    requires m > 0
  {
    (share % m + half % m) % m
  }

  lemma {:induction false} PayloadUnmasks(share: nat, half: nat, oprf: nat, m: nat)
    requires m > 0
    ensures Unmasked(Masked(Payload(share, half, m), oprf, m), oprf, m) == (share + half) % m
    ensures Cong(Masked(Payload(share, half, m), oprf, m), oprf + share + half, m)
  {
    var payload := Payload(share, half, m);
    MaskRoundTrip(payload, oprf, m);
    CongMod(payload, m);
    CongMod(share % m + half % m, m);
    CongMod(share, m);
    CongMod(half, m);
    CongAdd(share % m, share, half % m, half, m);
    CongMod(oprf + payload, m);
    CongAdd(oprf, oprf, payload, share + half, m);
  }

  /** What the client programs for an element: with its OPRF values the leader unmasks the sum of share
      and half in every lane, and reads the slot number. */
  method ProgramShare(shares: seq<nat>, half: nat, oprf: nat -> nat, junk: nat, s: nat, ms: seq<nat>) returns (slots: Slots)
    requires LaneModuli(ms) && |shares| == 4
    ensures |slots.shares| == 4 && Shown(slots.index, oprf(4)) == s % 64
    ensures forall k :: 0 <= k < 4 ==>
      slots.shares[k] < ms[k] && Unmasked(slots.shares[k], oprf(k), ms[k]) == (shares[k] + Lane(half, k)) % ms[k]
    ensures forall k :: 0 <= k < 4 ==> slots.shares[k] < ms[k] && Cong(slots.shares[k], oprf(k) + shares[k] + Lane(half, k), ms[k])
    ensures slots.index == Xor(oprf(4), junk * 64 + s)
  {
    var masked: seq<nat> := [];
    for k := 0 to 4
      invariant |masked| == k
      invariant forall j :: 0 <= j < k ==>
        masked[j] < ms[j] && Unmasked(masked[j], oprf(j), ms[j]) == (shares[j] + Lane(half, j)) % ms[j]
      invariant forall j :: 0 <= j < k ==> Cong(masked[j], oprf(j) + shares[j] + Lane(half, j), ms[j])
    {
      var slot := Masked(Payload(shares[k], Lane(half, k), ms[k]), oprf(k), ms[k]);
      PayloadUnmasks(shares[k], Lane(half, k), oprf(k), ms[k]);
      masked := masked + [slot];
    }
    IndexDelivered(oprf(4), junk, s);
    slots := Slots(masked, Hidden(oprf(4), junk, s));
  }

  // ---------------------------------------------------------------- the leader collects

  method UnmaskWord(slots: Slots, oprf: nat -> nat, ms: seq<nat>) returns (word: nat)
    requires LaneModuli(ms) && |slots.shares| == 4
    ensures forall k :: 0 <= k < 4 ==> Lane(word, k) == Unmasked(slots.shares[k], oprf(k), ms[k])
  {
    var lanes: seq<nat> := [];
    for k := 0 to 4
      invariant |lanes| == k && forall j :: 0 <= j < k ==> lanes[j] == Unmasked(slots.shares[j], oprf(j), ms[j]) < LANE
    {
      lanes := lanes + [Unmasked(slots.shares[k], oprf(k), ms[k])];
    }
    word := Pack(lanes);
  }

  // The word's lane k is the leader's half for the cell plus what was received in that lane.
  ghost predicate Collected(word: nat, slots: Slots, oprf: nat -> nat, ds: seq<Draws>, x: nat, c: Cell, ms: seq<nat>, k: nat)
    requires LaneModuli(ms) && |slots.shares| == 4 && k < 4
  {
    Lane(word, k) < ms[k] && Cong(Lane(word, k), LeaderSum(ds, ms, k, c, x) + Unmasked(slots.shares[k], oprf(k), ms[k]), ms[k])
  }

  // The word in full: the half and what is read, without the OPRF value.
  lemma {:induction false} CollectedInFull(word: nat, slots: Slots, oprf: nat -> nat, ds: seq<Draws>, x: nat, c: Cell, ms: seq<nat>, k: nat)
    requires LaneModuli(ms) && |slots.shares| == 4 && k < 4
    ensures Collected(word, slots, oprf, ds, x, c, ms, k) <==>
      Lane(word, k) < ms[k] && Cong(Lane(word, k), LeaderSum(ds, ms, k, c, x) + slots.shares[k] - oprf(k), ms[k])
  {
    var v, h, m := slots.shares[k] - oprf(k), LeaderSum(ds, ms, k, c, x), ms[k];
    CongMod(v, m);
    CongAdd(h, h, v % m, v, m);
  }

  method CollectShare(slots: Slots, oprf: nat -> nat, ds: seq<Draws>, n: nat, t: nat, x: nat, u: nat, b: nat, ms: seq<nat>)
    returns (word: nat)
    requires LaneModuli(ms) && |slots.shares| == 4 && x < LANE && u < n && forall j :: 0 <= j < |ds| ==> ValidDraws(ds[j], t)
    ensures forall k :: 0 <= k < 4 ==> Collected(word, slots, oprf, ds, x, Cell(u, Shown(slots.index, oprf(4)), b), ms, k)
    ensures forall k :: 0 <= k < 4 ==> Lane(word, k) < ms[k] && Cong(Lane(word, k),
      LeaderSum(ds, ms, k, Cell(u, Xor(slots.index, oprf(4)) % 64, b), x) + slots.shares[k] - oprf(k), ms[k])
  {
    var c := Cell(u, Shown(slots.index, oprf(4)), b);
    var received := UnmaskWord(slots, oprf, ms);
    var half := LeaderHalf(ds, ms, n, t, x, c);
    word := AddWords(half, received, ms);
    AllCollected(word, half, received, slots, oprf, ds, x, c, ms);
    AllInFull(word, slots, oprf, ds, x, c, ms);
  }

  lemma {:induction false} AllInFull(word: nat, slots: Slots, oprf: nat -> nat, ds: seq<Draws>, x: nat, c: Cell, ms: seq<nat>)
    requires LaneModuli(ms) && |slots.shares| == 4 && forall k :: 0 <= k < 4 ==> Collected(word, slots, oprf, ds, x, c, ms, k)
    ensures forall k :: 0 <= k < 4 ==>
      Lane(word, k) < ms[k] && Cong(Lane(word, k), LeaderSum(ds, ms, k, c, x) + slots.shares[k] - oprf(k), ms[k])
  {
    forall k | 0 <= k < 4
      ensures Lane(word, k) < ms[k] && Cong(Lane(word, k), LeaderSum(ds, ms, k, c, x) + slots.shares[k] - oprf(k), ms[k])
    {
      CollectedInFull(word, slots, oprf, ds, x, c, ms, k);
    }
  }

  lemma {:induction false} AllCollected(word: nat, half: nat, received: nat, slots: Slots, oprf: nat -> nat, ds: seq<Draws>, x: nat,
                                        c: Cell, ms: seq<nat>)
    requires LaneModuli(ms) && |slots.shares| == 4
    requires forall k :: 0 <= k < 4 ==> Lane(received, k) == Unmasked(slots.shares[k], oprf(k), ms[k])
    requires forall k :: 0 <= k < 4 ==> Cong(Lane(half, k), LeaderSum(ds, ms, k, c, x), ms[k])
    requires forall k :: 0 <= k < 4 ==> Lane(word, k) < ms[k] && Cong(Lane(word, k), Lane(half, k) + Lane(received, k), ms[k])
    ensures forall k :: 0 <= k < 4 ==> Collected(word, slots, oprf, ds, x, c, ms, k)
  {
    forall k | 0 <= k < 4
      ensures Collected(word, slots, oprf, ds, x, c, ms, k)
    {
      var r := Lane(received, k);
      AddLane(LeaderSum(ds, ms, k, c, x), Lane(half, k), r, r, Lane(word, k), ms[k]);
    }
  }

  // ---------------------------------------------------------------- the whole way

  // A share with all clients' updates added, in lane k.
  ghost predicate RefreshedLane(word: nat, share: int, ds: seq<Draws>, b: nat, i: nat, ms: seq<nat>, k: nat)
    requires LaneModuli(ms) && k < 4
  {
    Lane(word, k) < ms[k] && Cong(Lane(word, k), share + UpdateSum(ds, k, b, i), ms[k])
  }

  ghost predicate RefreshedWord(word: nat, shares: seq<nat>, ds: seq<Draws>, b: nat, i: nat, ms: seq<nat>)
    requires LaneModuli(ms) && |shares| == 4
  {
    forall k :: 0 <= k < 4 ==> RefreshedLane(word, shares[k], ds, b, i, ms, k)
  }

  // In every lane the leader unmasks this share plus the client's half for the slot number it reads.
  ghost predicate Served(slots: Slots, oprf: nat -> nat, mine: seq<nat>, ds: seq<Draws>, x: nat, u: nat, b: nat, ms: seq<nat>)
    requires LaneModuli(ms) && |mine| == 4
  {
    |slots.shares| == 4 && forall k :: 0 <= k < 4 ==> ServedLane(slots, oprf, mine[k], ds, x, Cell(u, Shown(slots.index, oprf(4)), b), ms, k)
  }

  ghost predicate ServedLane(slots: Slots, oprf: nat -> nat, share: nat, ds: seq<Draws>, x: nat, c: Cell, ms: seq<nat>, k: nat)
    requires LaneModuli(ms) && |slots.shares| == 4 && k < 4
  {
    Cong(Unmasked(slots.shares[k], oprf(k), ms[k]), share + ClientSum(ds, ms, k, c, x), ms[k])
  }

  // A served lane in full: the slot is OPRF value, share and the client's half together.
  lemma {:induction false} ServedInFull(slots: Slots, oprf: nat -> nat, share: nat, ds: seq<Draws>, x: nat, c: Cell, ms: seq<nat>, k: nat)
    requires LaneModuli(ms) && |slots.shares| == 4 && k < 4
    ensures ServedLane(slots, oprf, share, ds, x, c, ms, k) <==>
      Cong(slots.shares[k], oprf(k) + share + ClientSum(ds, ms, k, c, x), ms[k])
  {
    UnmaskedIs(slots.shares[k], oprf(k), share + ClientSum(ds, ms, k, c, x), ms[k]);
  }

  lemma {:induction false} UnmaskedIs(slot: nat, v: nat, h: int, m: nat)
    requires m > 0
    ensures Cong(Unmasked(slot, v, m), h, m) <==> Cong(slot, v + h, m)
  {
    CongMod(slot - v, m);
    DifferenceIs(slot, v, h, Unmasked(slot, v, m), m);
  }

  lemma {:induction false} DifferenceIs(slot: int, v: int, h: int, r: int, m: nat)
    requires m > 0 && Cong(r, slot - v, m)
    ensures Cong(r, h, m) <==> Cong(slot, v + h, m)
  {
    if Cong(r, h, m) {
      CongAdd(r, h, v, v, m);
      CongAdd(r, slot - v, v, v, m);
    } else if Cong(slot, v + h, m) {
      var w := -v;
      CongAdd(slot, v + h, w, w, m);
    }
  }

  /** What a client programs for an element it holds serves the leader. */
  method ServeShare(shares: seq<nat>, oprf: nat -> nat, junk: nat, ds: seq<Draws>, x: nat, c: Cell, ms: seq<nat>) returns (slots: Slots)
    requires LaneModuli(ms) && |shares| == 4 && x < LANE && |ds| > 0 && c.s < 64
    ensures Served(slots, oprf, shares, ds, x, c.u, c.b, ms)
    ensures Xor(slots.index, oprf(4)) % 64 == c.s && Entered(slots, oprf, shares, junk, ds, x, c, ms)
  {
    var half := ClientHalf(ds, ms, x, c);
    slots := ProgramShare(shares, half, oprf, junk, c.s, ms);
    ProgrammedServes(slots, oprf, shares, half, ds, x, c, ms);
    assert Cell(c.u, c.s, c.b) == c;
    forall k | 0 <= k < 4
      ensures EnteredLane(slots.shares[k], oprf(k), shares[k], ds, x, c, ms, k)
    {
      ServedInFull(slots, oprf, shares[k], ds, x, c, ms, k);
    }
  }

  // The entries in full: in every lane OPRF value, share and the client's half together, reduced; and the slot number
  // behind the OPRF value.
  ghost predicate Entered(slots: Slots, oprf: nat -> nat, shares: seq<nat>, junk: nat, ds: seq<Draws>, x: nat, c: Cell, ms: seq<nat>)
    requires LaneModuli(ms) && |shares| == 4
  {
    && |slots.shares| == 4 && slots.index == Xor(oprf(4), junk * 64 + c.s)
    && forall k :: 0 <= k < 4 ==> EnteredLane(slots.shares[k], oprf(k), shares[k], ds, x, c, ms, k)
  }

  ghost predicate EnteredLane(slot: nat, v: nat, share: nat, ds: seq<Draws>, x: nat, c: Cell, ms: seq<nat>, k: nat)
    requires LaneModuli(ms) && k < 4
  {
    slot < ms[k] && Cong(slot, v + share + ClientSum(ds, ms, k, c, x), ms[k])
  }

  lemma {:induction false} ProgrammedServes(slots: Slots, oprf: nat -> nat, shares: seq<nat>, half: nat, ds: seq<Draws>, x: nat,
                                            c: Cell, ms: seq<nat>)
    requires LaneModuli(ms) && |shares| == 4 && |slots.shares| == 4 && Shown(slots.index, oprf(4)) == c.s
    requires forall k :: 0 <= k < 4 ==> Unmasked(slots.shares[k], oprf(k), ms[k]) == (shares[k] + Lane(half, k)) % ms[k]
    requires forall k :: 0 <= k < 4 ==> Cong(Lane(half, k), ClientSum(ds, ms, k, c, x), ms[k])
    ensures Served(slots, oprf, shares, ds, x, c.u, c.b, ms)
  {
    assert Cell(c.u, c.s, c.b) == c;
    forall k | 0 <= k < 4
      ensures ServedLane(slots, oprf, shares[k], ds, x, c, ms, k)
    {
      ServedSum(Unmasked(slots.shares[k], oprf(k), ms[k]), shares[k], Lane(half, k), ClientSum(ds, ms, k, c, x), ms[k]);
    }
  }

  lemma {:induction false} ServedSum(v: nat, share: nat, half: nat, client: int, m: nat)
    requires m > 0 && v == (share + half) % m && Cong(half, client, m)
    ensures Cong(v, share + client, m)
  {
    CongMod(share + half, m);
    CongAdd(share, share, half, client, m);
  }

  /** Refresh of one share: what serves the leader, with the leader's half for the slot number added, is the
      old share plus the sum of all updates; every mask has cancelled. */
  lemma {:induction false} ServedRefreshes(word: nat, slots: Slots, oprf: nat -> nat, mine: seq<nat>, ds: seq<Draws>, x: nat, u: nat,
                                           b: nat, ms: seq<nat>)
    requires LaneModuli(ms) && |mine| == 4 && Served(slots, oprf, mine, ds, x, u, b, ms)
    requires forall k :: 0 <= k < 4 ==> Collected(word, slots, oprf, ds, x, Cell(u, Shown(slots.index, oprf(4)), b), ms, k)
    ensures RefreshedWord(word, mine, ds, b, u, ms)
  {
    var c := Cell(u, Shown(slots.index, oprf(4)), b);
    forall k | 0 <= k < 4
      ensures RefreshedLane(word, mine[k], ds, b, u, ms, k)
    {
      assert Collected(word, slots, oprf, ds, x, c, ms, k) && ServedLane(slots, oprf, mine[k], ds, x, c, ms, k);
      MasksCancel(ds, ms, k, c, x);
      RefreshLane(mine[k], Unmasked(slots.shares[k], oprf(k), ms[k]), LeaderSum(ds, ms, k, c, x), ClientSum(ds, ms, k, c, x),
                  Lane(word, k), ms[k]);
    }
  }

  lemma {:induction false} RefreshLane(share: nat, received: nat, leader: int, client: int, word: nat, m: nat)
    requires m > 0 && Cong(received, share + client, m) && Cong(word, leader + received, m)
    ensures Cong(word, share + (leader + client), m)
  {
    CongAdd(leader, leader, received, share + client, m);
  }
}
