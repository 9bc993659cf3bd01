/**
 The two table transfers of YYH26 between the leader and one client: the leader's shares go down, every client
 adds its half of the refresh and sends its shares up with the number of the slot they are in.
 */
module ShareDelivery {
  import opened NumberTheory
  import opened HashParameters
  import Simple = SimpleHashing
  import opened BinSets
  import opened Bits
  import opened Lanes
  import opened OleRefresh
  import opened RefreshDelivery
  import opened BlockRows
  import opened ShareTables

  // ---------------------------------------------------------------- one share table, down

  // The receiver has the sender's value for every element both have.
  ghost predicate Handed(mine: seq<nat>, theirs: seq<nat>, values: seq<nat>, received: seq<nat>)
    requires |values| == |mine|
  {
    |received| == |theirs| && forall i, j :: 0 <= i < |mine| && 0 <= j < |theirs| && mine[i] == theirs[j] ==> received[j] == values[i]
  }

  // A bin's entries: every item's value behind the item's OPRF value.
  method MaskBin(bin: Simple.Bin, mine: seq<nat>, keys: Keys, b: nat, values: seq<nat>, m: nat) returns (entries: seq<nat>)
    requires m > 0 && |values| == |mine| && Simple.InRange(bin, |mine|)
    ensures |entries| == |bin.mIdx|
    ensures forall s :: 0 <= s < |entries| ==> entries[s] == Masked(values[bin.mIdx[s]], keys.oprf(b, mine[bin.mIdx[s]]), m)
  {
    entries := [];
    for s := 0 to |bin.mIdx|
      invariant |entries| == s
      invariant forall r :: 0 <= r < s ==> entries[r] == Masked(values[bin.mIdx[r]], keys.oprf(b, mine[bin.mIdx[r]]), m)
    {
      var idx := bin.mIdx[s];
      entries := entries + [Masked(values[idx], keys.oprf(b, mine[idx]), m)];
    }
  }

  // Every row offers its items' values, masked.
  ghost predicate OffersMasked(row: Row, bin: Simple.Bin, mine: seq<nat>, keys: Keys, b: nat, values: seq<nat>, m: nat)
    requires m > 0 && |values| == |mine|
  {
    && row.Full() && Simple.InRange(bin, |mine|)
    && forall s :: 0 <= s < |bin.mIdx| ==>
         var v := keys.oprf(b, mine[bin.mIdx[s]]);
         Slot(row, v) == Masked(values[bin.mIdx[s]], v, m)
  }

  // What a receiver makes of the row of the bin its item sits in.
  function Taken(row: Row, v: nat, m: nat): nat
    requires row.Full() && m > 0
  {
    Unmasked(Slot(row, v), v, m)
  }

  // What a receiver with OPRF value v makes of a bin: the value of the item with the same mask, unmasked with v
  // instead of that item's OPRF value, or an empty slot unmasked with v.
  ghost predicate ReadsValue(bin: Simple.Bin, mine: seq<nat>, keys: Keys, b: nat, values: seq<nat>, v: nat, m: nat, got: nat)
    requires m > 0
  {
    && Simple.InRange(bin, |mine|) && |values| == |mine|
    && (forall s :: 0 <= s < |bin.mIdx| && BlockMask(keys.oprf(b, mine[bin.mIdx[s]]), keys.pos(b)) == BlockMask(v, keys.pos(b)) ==>
          got == Unmasked(keys.oprf(b, mine[bin.mIdx[s]]) + values[bin.mIdx[s]], v, m))
    && ((forall s :: 0 <= s < |bin.mIdx| ==> BlockMask(keys.oprf(b, mine[bin.mIdx[s]]), keys.pos(b)) != BlockMask(v, keys.pos(b))) ==>
          got == Unmasked(0, v, m))
  }

  lemma {:induction false} UnmaskOther(slot: nat, w: nat, value: nat, v: nat, m: nat)
    requires m > 0 && slot == Masked(value, w, m)
    ensures Unmasked(slot, v, m) == Unmasked(w + value, v, m)
  {
    var x := w + value;
    CongMod(x, m);
    CongAdd(x % m, x, 0 - v, 0 - v, m);
  }

  // In a row one reads what the sender's bin says, with any value.
  ghost predicate ReadsMasked(row: Row, bin: Simple.Bin, mine: seq<nat>, keys: Keys, b: nat, values: seq<nat>, m: nat)
    requires m > 0
  {
    row.Full() && forall v :: ReadsValue(bin, mine, keys, b, values, v, m, Taken(row, v, m))
  }

  lemma {:induction false} TakenReads(row: Row, bin: Simple.Bin, mine: seq<nat>, keys: Keys, b: nat, values: seq<nat>, entries: seq<nat>,
                                      v: nat, m: nat)
    requires m > 0 && |values| == |mine| && Offers(row, bin, mine, keys, b, entries) && NothingElse(row, bin, mine, keys, b)
    requires forall s :: 0 <= s < |entries| ==> entries[s] == Masked(values[bin.mIdx[s]], keys.oprf(b, mine[bin.mIdx[s]]), m)
    ensures ReadsValue(bin, mine, keys, b, values, v, m, Taken(row, v, m))
  {
    ReadAnything(row, bin, mine, keys, b, entries, v);
    forall s | 0 <= s < |bin.mIdx| && BlockMask(keys.oprf(b, mine[bin.mIdx[s]]), keys.pos(b)) == BlockMask(v, keys.pos(b))
      ensures Taken(row, v, m) == Unmasked(keys.oprf(b, mine[bin.mIdx[s]]) + values[bin.mIdx[s]], v, m)
    {
      var w, value, slot := keys.oprf(b, mine[bin.mIdx[s]]), values[bin.mIdx[s]], Slot(row, v);
      UnmaskOther(slot, w, value, v, m);
    }
  }

  method SendMasked(p: HashParams, bin: Simple.Bin, mine: seq<nat>, keys: Keys, b: nat, values: seq<nat>, m: nat) returns (row: Row)
    requires SixBits(p) && m > 0 && |values| == |mine| && Simple.InRange(bin, |mine|) && Searched(p, bin, mine, keys, b)
    ensures OffersMasked(row, bin, mine, keys, b, values, m)
    ensures ReadsMasked(row, bin, mine, keys, b, values, m)
  {
    var entries := MaskBin(bin, mine, keys, b, values, m);
    row := SendRow(p, bin, mine, keys, b, entries);
    forall v
      ensures ReadsValue(bin, mine, keys, b, values, v, m, Taken(row, v, m))
    {
      TakenReads(row, bin, mine, keys, b, values, entries, v, m);
    }
  }

  method SendValues(p: HashParams, bins: seq<Simple.Bin>, mine: seq<nat>, keys: Keys, values: seq<nat>, m: nat) returns (rows: seq<Row>)
    requires SixBits(p) && m > 0 && |values| == |mine| && AllSearched(p, bins, mine, keys)
    ensures |rows| == |bins| && forall b :: 0 <= b < |bins| ==> OffersMasked(rows[b], bins[b], mine, keys, b, values, m)
    ensures forall b :: 0 <= b < |bins| ==> ReadsMasked(rows[b], bins[b], mine, keys, b, values, m)
  {
    rows := [];
    for b := 0 to |bins|
      invariant |rows| == b && forall c :: 0 <= c < b ==> OffersMasked(rows[c], bins[c], mine, keys, c, values, m)
      invariant forall c :: 0 <= c < b ==> ReadsMasked(rows[c], bins[c], mine, keys, c, values, m)
    {
      var row := SendMasked(p, bins[b], mine, keys, b, values, m);
      rows := rows + [row];
    }
  }

  method TakeValues(rows: seq<Row>, numbers: seq<nat>, theirs: seq<nat>, keys: Keys, m: nat) returns (received: seq<nat>)
    requires m > 0 && |numbers| == |theirs|
    requires forall j :: 0 <= j < |numbers| ==> numbers[j] < |rows| && rows[numbers[j]].Full()
    ensures |received| == |theirs|
    ensures forall j :: 0 <= j < |theirs| ==> received[j] == Taken(rows[numbers[j]], keys.oprf(numbers[j], theirs[j]), m)
  {
    received := [];
    for j := 0 to |theirs|
      invariant |received| == j
      invariant forall k :: 0 <= k < j ==> received[k] == Taken(rows[numbers[k]], keys.oprf(numbers[k], theirs[k]), m)
    {
      var v := keys.oprf(numbers[j], theirs[j]);
      var slot := ReadSlot(rows[numbers[j]], v);
      received := received + [Unmasked(slot, v, m)];
    }
  }

  lemma {:induction false} NumbersBelow(p: HashParams, hashes: nat -> seq<nat>, theirs: seq<nat>, t: Hashed, j: nat)
    requires p.Usable() && FullRows(p, hashes) && HashedSet(p, hashes, theirs, t) && j < |theirs|
    ensures t.numbers[j] < p.Bins()
  {
    var h :| 0 <= h < Simple.HashNumbers(p) && Simple.BinOf(p, hashes(theirs[j]), h) == t.numbers[j];
  }

  lemma {:induction false} TakenIsSent(row: Row, bin: Simple.Bin, mine: seq<nat>, keys: Keys, b: nat, values: seq<nat>, m: nat, s: nat)
    requires m > 0 && |values| == |mine| && OffersMasked(row, bin, mine, keys, b, values, m) && s < |bin.mIdx|
    requires values[bin.mIdx[s]] < m
    ensures Taken(row, keys.oprf(b, mine[bin.mIdx[s]]), m) == values[bin.mIdx[s]]
  {
    var v := keys.oprf(b, mine[bin.mIdx[s]]);
    MaskRoundTrip(values[bin.mIdx[s]], v, m);
    ModUnique(values[bin.mIdx[s]], m, 0, values[bin.mIdx[s]]);
  }

  // What the receiver has for its element y, which sits in bin b.
  ghost predicate ValueRead(bins: seq<Simple.Bin>, mine: seq<nat>, keys: Keys, values: seq<nat>, m: nat, b: nat, y: nat, got: nat)
    requires m > 0
  {
    b < |bins| && ReadsValue(bins[b], mine, keys, b, values, keys.oprf(b, y), m, got)
  }

  /** One share table: whatever the sender entered for an element the receiver also has arrives there. */
  method DeliverValues(p: HashParams, hashes: nat -> seq<nat>, mine: seq<nat>, t: Hashed, theirs: seq<nat>, t': Hashed,
                       keys: Keys, values: seq<nat>, m: nat)
    returns (received: seq<nat>)
    requires SixBits(p) && FullRows(p, hashes) && HashedSet(p, hashes, mine, t) && HashedSet(p, hashes, theirs, t')
    requires AllSearched(p, t.bins, mine, keys)
    requires m > 0 && |values| == |mine| && forall i :: 0 <= i < |values| ==> values[i] < m
    ensures Handed(mine, theirs, values, received) && |received| == |theirs|
    ensures forall i, j :: 0 <= i < |mine| && 0 <= j < |theirs| && mine[i] == theirs[j] ==> received[j] == values[i]
    ensures forall j :: 0 <= j < |theirs| ==> ValueRead(t.bins, mine, keys, values, m, t'.numbers[j], theirs[j], received[j])
  {
    var rows := SendValues(p, t.bins, mine, keys, values, m);
    forall j | 0 <= j < |theirs|
      ensures t'.numbers[j] < |rows|
    {
      NumbersBelow(p, hashes, theirs, t', j);
    }
    received := TakeValues(rows, t'.numbers, theirs, keys, m);
    forall i, j | 0 <= i < |mine| && 0 <= j < |theirs| && mine[i] == theirs[j]
      ensures received[j] == values[i]
    {
      var s := SlotOf(p, hashes, theirs, t', mine, t, j, i);
      TakenIsSent(rows[t'.numbers[j]], t.bins[t'.numbers[j]], mine, keys, t'.numbers[j], values, m, s);
    }
  }

  // ---------------------------------------------------------------- up: what a client enters

  // The tables between the leader and one client: four down, five up, and the bits above the slot numbers.
  datatype Link = Link(down: seq<Keys>, up: seq<Keys>, junk: (nat, nat) -> nat)

  // The OPRF values of an element in a bin, one per table.
  function ValueAt(keys: seq<Keys>, b: nat, x: nat, k: nat): nat {
    if k < |keys| then keys[k].oprf(b, x) else 0
  }

  function Values(keys: seq<Keys>, b: nat, x: nat): nat -> nat {
    k => ValueAt(keys, b, x, k)
  }

  // A client's four shares of its item j.
  function Four(received: seq<seq<nat>>, j: nat): (r: seq<nat>)
    requires |received| == 4 && forall k :: 0 <= k < 4 ==> j < |received[k]|
    ensures |r| == 4 && forall k :: 0 <= k < 4 ==> r[k] == received[k][j]
  {
    [received[0][j], received[1][j], received[2][j], received[3][j]]
  }

  ghost predicate Received(received: seq<seq<nat>>, n: nat) {
    |received| == 4 && forall k :: 0 <= k < 4 ==> |received[k]| == n
  }

  // Slot s of bin b serves the leader.
  ghost predicate Serves(entry: Slots, link: Link, theirs: seq<nat>, received: seq<seq<nat>>, ds: seq<Draws>, u: nat, b: nat, j: nat,
                         ms: seq<nat>)
    requires LaneModuli(ms) && Received(received, |theirs|) && j < |theirs|
  {
    Served(entry, Values(link.up, b, theirs[j]), Four(received, j), ds, theirs[j], u, b, ms)
  }

  ghost predicate BinServes(entries: seq<Slots>, bin: Simple.Bin, link: Link, theirs: seq<nat>, received: seq<seq<nat>>, ds: seq<Draws>,
                            u: nat, b: nat, ms: seq<nat>)
    requires LaneModuli(ms) && Received(received, |theirs|)
  {
    && Simple.InRange(bin, |theirs|) && |entries| == |bin.mIdx|
    && forall s :: 0 <= s < |entries| ==> |entries[s].shares| == 4 && Serves(entries[s], link, theirs, received, ds, u, b, bin.mIdx[s], ms)
  }

  // One table's entries of all bins: share table k, or the index table.
  function TableEntry(entry: Slots, k: nat): nat
    requires |entry.shares| == 4
  {
    if k < 4 then entry.shares[k] else entry.index
  }

  // What table k holds for slot s of bin b, which is the client's item j: OPRF value, share and the client's half of
  // the refresh together, or the slot number behind the OPRF value.
  ghost predicate SlotIs(slot: nat, k: nat, link: Link, theirs: seq<nat>, received: seq<seq<nat>>, ds: seq<Draws>, u: nat, b: nat,
                         s: nat, j: nat, ms: seq<nat>)
    requires LaneModuli(ms) && Received(received, |theirs|) && j < |theirs|
  {
    var v := ValueAt(link.up, b, theirs[j], k);
    if k < 4 then slot < ms[k] && Cong(slot, v + received[k][j] + ClientSum(ds, ms, k, Cell(u, s, b), theirs[j]), ms[k])
    else slot == Xor(v, link.junk(b, s) * 64 + s)
  }

  ghost predicate Programmed(entry: Slots, link: Link, theirs: seq<nat>, received: seq<seq<nat>>, ds: seq<Draws>, u: nat, b: nat,
                             s: nat, j: nat, ms: seq<nat>)
    requires LaneModuli(ms) && Received(received, |theirs|) && j < |theirs|
  {
    |entry.shares| == 4 && forall k :: 0 <= k < 5 ==> SlotIs(TableEntry(entry, k), k, link, theirs, received, ds, u, b, s, j, ms)
  }

  // One slot of a bin.
  method ProgramSlot(link: Link, theirs: seq<nat>, received: seq<seq<nat>>, ds: seq<Draws>, u: nat, b: nat, s: nat, j: nat, ms: seq<nat>)
    returns (entry: Slots)
    requires LaneModuli(ms) && Received(received, |theirs|) && j < |theirs| && s < 64 && |ds| > 0 && theirs[j] < LANE
    ensures |entry.shares| == 4 && Serves(entry, link, theirs, received, ds, u, b, j, ms)
    ensures Programmed(entry, link, theirs, received, ds, u, b, s, j, ms)
  {
    var mine, values, x, c := Four(received, j), Values(link.up, b, theirs[j]), theirs[j], Cell(u, s, b);
    entry := ServeShare(mine, values, link.junk(b, s), ds, x, c, ms);
    IsProgrammed(entry, mine, values, link, theirs, received, ds, u, b, s, j, ms, x, c);
  }

  lemma {:induction false} IsProgrammed(entry: Slots, mine: seq<nat>, values: nat -> nat, link: Link, theirs: seq<nat>,
                                        received: seq<seq<nat>>, ds: seq<Draws>, u: nat, b: nat, s: nat, j: nat, ms: seq<nat>, x: nat, c: Cell)
    requires LaneModuli(ms) && Received(received, |theirs|) && j < |theirs| && x == theirs[j] && c == Cell(u, s, b)
    requires mine == Four(received, j) && values == Values(link.up, b, x)
    requires Entered(entry, values, mine, link.junk(b, s), ds, x, c, ms)
    ensures Programmed(entry, link, theirs, received, ds, u, b, s, j, ms)
  {
    forall k | 0 <= k < 5
      ensures SlotIs(TableEntry(entry, k), k, link, theirs, received, ds, u, b, s, j, ms)
    {
      var v := ValueAt(link.up, b, x, k);
      assert values(k) == v;
      if k < 4 {
        assert mine[k] == received[k][j];
        assert EnteredLane(entry.shares[k], v, mine[k], ds, x, c, ms, k);
      }
    }
  }

  ghost predicate BinProgrammed(entries: seq<Slots>, bin: Simple.Bin, link: Link, theirs: seq<nat>, received: seq<seq<nat>>,
                                ds: seq<Draws>, u: nat, b: nat, ms: seq<nat>)
    requires LaneModuli(ms) && Received(received, |theirs|)
  {
    && Simple.InRange(bin, |theirs|) && |entries| == |bin.mIdx|
    && forall s :: 0 <= s < |entries| ==> Programmed(entries[s], link, theirs, received, ds, u, b, s, bin.mIdx[s], ms)
  }

  method ProgramBin(bin: Simple.Bin, link: Link, theirs: seq<nat>, received: seq<seq<nat>>, ds: seq<Draws>, u: nat, b: nat, ms: seq<nat>)
    returns (entries: seq<Slots>)
    requires LaneModuli(ms) && Received(received, |theirs|) && Simple.InRange(bin, |theirs|) && |bin.mIdx| <= 64 && |ds| > 0
    requires InLanes(theirs)
    ensures BinServes(entries, bin, link, theirs, received, ds, u, b, ms)
    ensures BinProgrammed(entries, bin, link, theirs, received, ds, u, b, ms)
  {
    entries := [];
    for s := 0 to |bin.mIdx|
      invariant |entries| == s
      invariant forall r :: 0 <= r < s ==> |entries[r].shares| == 4 && Serves(entries[r], link, theirs, received, ds, u, b, bin.mIdx[r], ms)
      invariant forall r :: 0 <= r < s ==> Programmed(entries[r], link, theirs, received, ds, u, b, r, bin.mIdx[r], ms)
    {
      var entry := ProgramSlot(link, theirs, received, ds, u, b, s, bin.mIdx[s], ms);
      entries := entries + [entry];
    }
  }

  method TableEntries(entries: seq<Slots>, k: nat) returns (column: seq<nat>)
    requires forall s :: 0 <= s < |entries| ==> |entries[s].shares| == 4
    ensures |column| == |entries| && forall s :: 0 <= s < |column| ==> column[s] == TableEntry(entries[s], k)
  {
    column := [];
    for s := 0 to |entries|
      invariant |column| == s && forall r :: 0 <= r < s ==> column[r] == TableEntry(entries[r], k)
    {
      column := column + [TableEntry(entries[s], k)];
    }
  }

  // ---------------------------------------------------------------- up: rows

  // A client's rows for one bin, one per table.
  ghost predicate OffersSlots(rows: seq<Row>, bin: Simple.Bin, theirs: seq<nat>, up: seq<Keys>, b: nat, entries: seq<Slots>, upto: nat)
    requires |up| == 5
  {
    && |rows| == upto <= 5 && Simple.InRange(bin, |theirs|) && |entries| == |bin.mIdx|
    && (forall k :: 0 <= k < upto ==> rows[k].Full())
    && forall k, s :: 0 <= k < upto && 0 <= s < |entries| ==>
         |entries[s].shares| == 4 && Slot(rows[k], up[k].oprf(b, theirs[bin.mIdx[s]])) == TableEntry(entries[s], k)
  }

  method SendBin(p: HashParams, bin: Simple.Bin, theirs: seq<nat>, up: seq<Keys>, b: nat, entries: seq<Slots>) returns (rows: seq<Row>)
    requires SixBits(p) && |up| == 5 && Simple.InRange(bin, |theirs|) && forall k :: 0 <= k < 5 ==> Searched(p, bin, theirs, up[k], b)
    requires |entries| == |bin.mIdx| && forall s :: 0 <= s < |entries| ==> |entries[s].shares| == 4
    ensures OffersSlots(rows, bin, theirs, up, b, entries, 5)
    ensures OnlySlots(rows, bin, theirs, up, b, 5)
  {
    rows := [];
    for k := 0 to 5
      invariant OffersSlots(rows, bin, theirs, up, b, entries, k) && OnlySlots(rows, bin, theirs, up, b, k)
    {
      var column := TableEntries(entries, k);
      var row := SendRow(p, bin, theirs, up[k], b, column);
      SlotsNext(rows, row, bin, theirs, up, b, entries, column, k);
      rows := rows + [row];
    }
  }

  // And nothing else is in them.
  ghost predicate OnlySlots(rows: seq<Row>, bin: Simple.Bin, theirs: seq<nat>, up: seq<Keys>, b: nat, upto: nat) {
    |rows| == upto <= |up| && forall k :: 0 <= k < upto ==> NothingElse(rows[k], bin, theirs, up[k], b)
  }

  lemma {:induction false} SlotsNext(rows: seq<Row>, row: Row, bin: Simple.Bin, theirs: seq<nat>, up: seq<Keys>, b: nat,
                                     entries: seq<Slots>, column: seq<nat>, k: nat)
    requires k < 5 == |up| && OffersSlots(rows, bin, theirs, up, b, entries, k) && OnlySlots(rows, bin, theirs, up, b, k)
    requires Offers(row, bin, theirs, up[k], b, column) && NothingElse(row, bin, theirs, up[k], b)
    requires |column| == |entries| && forall s :: 0 <= s < |column| ==> |entries[s].shares| == 4 && column[s] == TableEntry(entries[s], k)
    ensures OffersSlots(rows + [row], bin, theirs, up, b, entries, k + 1) && OnlySlots(rows + [row], bin, theirs, up, b, k + 1)
  {
  }

  // What is read in table k with any value: the slot of the client's item with the same mask, or zero.
  ghost predicate SlotReads(slot: nat, v: nat, k: nat, bin: Simple.Bin, link: Link, theirs: seq<nat>, received: seq<seq<nat>>,
                            ds: seq<Draws>, u: nat, b: nat, ms: seq<nat>)
    requires LaneModuli(ms) && Received(received, |theirs|) && k < |link.up|
  {
    var keys := link.up[k];
    && Simple.InRange(bin, |theirs|)
    && (forall s :: 0 <= s < |bin.mIdx| && BlockMask(keys.oprf(b, theirs[bin.mIdx[s]]), keys.pos(b)) == BlockMask(v, keys.pos(b)) ==>
          SlotIs(slot, k, link, theirs, received, ds, u, b, s, bin.mIdx[s], ms))
    && ((forall s :: 0 <= s < |bin.mIdx| ==> BlockMask(keys.oprf(b, theirs[bin.mIdx[s]]), keys.pos(b)) != BlockMask(v, keys.pos(b))) ==>
          slot == 0)
  }

  ghost predicate RowReads(row: Row, k: nat, bin: Simple.Bin, link: Link, theirs: seq<nat>, received: seq<seq<nat>>, ds: seq<Draws>,
                           u: nat, b: nat, ms: seq<nat>)
    requires LaneModuli(ms) && Received(received, |theirs|) && k < |link.up|
  {
    row.Full() && forall v :: SlotReads(Slot(row, v), v, k, bin, link, theirs, received, ds, u, b, ms)
  }

  lemma {:induction false} SentReads(row: Row, k: nat, bin: Simple.Bin, link: Link, theirs: seq<nat>, received: seq<seq<nat>>,
                                     ds: seq<Draws>, u: nat, b: nat, entries: seq<Slots>, column: seq<nat>, ms: seq<nat>)
    requires LaneModuli(ms) && Received(received, |theirs|) && k < 5 == |link.up|
    requires BinProgrammed(entries, bin, link, theirs, received, ds, u, b, ms) && NothingElse(row, bin, theirs, link.up[k], b)
    requires |column| == |entries| && forall s :: 0 <= s < |entries| ==>
      |entries[s].shares| == 4 && column[s] == TableEntry(entries[s], k) == Slot(row, link.up[k].oprf(b, theirs[bin.mIdx[s]]))
    ensures RowReads(row, k, bin, link, theirs, received, ds, u, b, ms)
  {
    var keys := link.up[k];
    forall v
      ensures SlotReads(Slot(row, v), v, k, bin, link, theirs, received, ds, u, b, ms)
    {
      ReadAnything(row, bin, theirs, keys, b, column, v);
      forall s | 0 <= s < |bin.mIdx| && BlockMask(keys.oprf(b, theirs[bin.mIdx[s]]), keys.pos(b)) == BlockMask(v, keys.pos(b))
        ensures SlotIs(Slot(row, v), k, link, theirs, received, ds, u, b, s, bin.mIdx[s], ms)
      {
        assert Programmed(entries[s], link, theirs, received, ds, u, b, s, bin.mIdx[s], ms);
        assert Slot(row, v) == column[s] == TableEntry(entries[s], k);
      }
    }
  }

  // All five rows of a bin.
  ghost predicate BinReads(rows: seq<Row>, bin: Simple.Bin, link: Link, theirs: seq<nat>, received: seq<seq<nat>>, ds: seq<Draws>,
                           u: nat, b: nat, ms: seq<nat>)
    requires LaneModuli(ms) && Received(received, |theirs|)
  {
    |rows| == 5 == |link.up| && forall k :: 0 <= k < 5 ==> RowReads(rows[k], k, bin, link, theirs, received, ds, u, b, ms)
  }

  lemma {:induction false} AllRowsRead(rows: seq<Row>, bin: Simple.Bin, link: Link, theirs: seq<nat>, received: seq<seq<nat>>,
                                       ds: seq<Draws>, u: nat, b: nat, entries: seq<Slots>, ms: seq<nat>)
    requires LaneModuli(ms) && Received(received, |theirs|) && |link.up| == 5
    requires BinProgrammed(entries, bin, link, theirs, received, ds, u, b, ms) && OffersSlots(rows, bin, theirs, link.up, b, entries, 5)
    requires OnlySlots(rows, bin, theirs, link.up, b, 5)
    ensures BinReads(rows, bin, link, theirs, received, ds, u, b, ms)
  {
    forall k | 0 <= k < 5
      ensures RowReads(rows[k], k, bin, link, theirs, received, ds, u, b, ms)
    {
      forall s | 0 <= s < |entries|
        ensures |entries[s].shares| == 4 && Slot(rows[k], link.up[k].oprf(b, theirs[bin.mIdx[s]])) == TableEntry(entries[s], k)
      {
      }
      var column := seq<nat>(|entries|, s requires 0 <= s < |entries| && |entries[s].shares| == 4 => TableEntry(entries[s], k));
      SentReads(rows[k], k, bin, link, theirs, received, ds, u, b, entries, column, ms);
    }
  }

  // What the leader reads with its OPRF values.
  function SlotsRead(rows: seq<Row>, v: nat -> nat): (r: Slots)
    requires |rows| == 5 && forall k :: 0 <= k < 5 ==> rows[k].Full()
    ensures |r.shares| == 4
  {
    Slots([Slot(rows[0], v(0)), Slot(rows[1], v(1)), Slot(rows[2], v(2)), Slot(rows[3], v(3))], Slot(rows[4], v(4)))
  }

  method ReadSlots(rows: seq<Row>, v: nat -> nat) returns (slots: Slots)
    requires |rows| == 5 && forall k :: 0 <= k < 5 ==> rows[k].Full()
    ensures slots == SlotsRead(rows, v)
  {
    var shares: seq<nat> := [];
    for k := 0 to 4
      invariant |shares| == k && forall l :: 0 <= l < k ==> shares[l] == Slot(rows[l], v(l))
    {
      var slot := ReadSlot(rows[k], v(k));
      shares := shares + [slot];
    }
    var index := ReadSlot(rows[4], v(4));
    assert shares == SlotsRead(rows, v).shares;
    slots := Slots(shares, index);
  }

  // The leader reads exactly what the client entered.
  lemma {:induction false} ReadIsEntered(rows: seq<Row>, bin: Simple.Bin, theirs: seq<nat>, up: seq<Keys>, b: nat, entries: seq<Slots>, s: nat)
    requires |up| == 5 && OffersSlots(rows, bin, theirs, up, b, entries, 5) && s < |entries| && |entries[s].shares| == 4
    ensures SlotsRead(rows, Values(up, b, theirs[bin.mIdx[s]])) == entries[s]
  {
    var r, e := SlotsRead(rows, Values(up, b, theirs[bin.mIdx[s]])), entries[s];
    forall k | 0 <= k < 5
      ensures TableEntry(r, k) == TableEntry(e, k)
    {
      assert Slot(rows[k], up[k].oprf(b, theirs[bin.mIdx[s]])) == TableEntry(e, k);
    }
    forall k | 0 <= k < 4
      ensures r.shares[k] == e.shares[k]
    {
      assert TableEntry(r, k) == TableEntry(e, k);
    }
    assert TableEntry(r, 4) == TableEntry(e, 4);
    assert r.shares == e.shares;
  }

  // ---------------------------------------------------------------- one client

  // A client's rows for all bins.
  ghost predicate FullTables(tables: seq<seq<Row>>, count: nat) {
    |tables| == count && forall b :: 0 <= b < count ==> |tables[b]| == 5 && forall k :: 0 <= k < 5 ==> tables[b][k].Full()
  }

  // Reading in bin b with an element of the client's that is there serves the leader.
  ghost predicate TableServes(rows: seq<Row>, bin: Simple.Bin, link: Link, theirs: seq<nat>, received: seq<seq<nat>>, ds: seq<Draws>,
                              u: nat, b: nat, ms: seq<nat>)
    requires LaneModuli(ms) && Received(received, |theirs|)
  {
    && |rows| == 5 && (forall k :: 0 <= k < 5 ==> rows[k].Full()) && Simple.InRange(bin, |theirs|)
    && forall s :: 0 <= s < |bin.mIdx| ==>
         Serves(SlotsRead(rows, Values(link.up, b, theirs[bin.mIdx[s]])), link, theirs, received, ds, u, b, bin.mIdx[s], ms)
  }

  ghost predicate LinkSearched(p: HashParams, link: Link, theirs: seq<nat>, bin: Simple.Bin, b: nat)
    requires |p.region| == 2
  {
    |link.up| == 5 && Simple.InRange(bin, |theirs|) && forall k :: 0 <= k < 5 ==> Searched(p, bin, theirs, link.up[k], b)
  }

  method ServeBin(p: HashParams, bin: Simple.Bin, link: Link, theirs: seq<nat>, received: seq<seq<nat>>, ds: seq<Draws>,
                  u: nat, b: nat, ms: seq<nat>)
    returns (rows: seq<Row>)
    requires SixBits(p) && LaneModuli(ms) && Received(received, |theirs|) && |ds| > 0 && LinkSearched(p, link, theirs, bin, b)
    requires InLanes(theirs)
    ensures TableServes(rows, bin, link, theirs, received, ds, u, b, ms) && BinReads(rows, bin, link, theirs, received, ds, u, b, ms)
  {
    FewItems(p, bin, theirs, link.up[0], b);
    var entries := ProgramBin(bin, link, theirs, received, ds, u, b, ms);
    rows := SendBin(p, bin, theirs, link.up, b, entries);
    AllRowsRead(rows, bin, link, theirs, received, ds, u, b, entries, ms);
    forall s | 0 <= s < |bin.mIdx|
      ensures Serves(SlotsRead(rows, Values(link.up, b, theirs[bin.mIdx[s]])), link, theirs, received, ds, u, b, bin.mIdx[s], ms)
    {
      ReadIsEntered(rows, bin, theirs, link.up, b, entries, s);
    }
  }

  ghost predicate TablesServe(tables: seq<seq<Row>>, bins: seq<Simple.Bin>, link: Link, theirs: seq<nat>, received: seq<seq<nat>>,
                              ds: seq<Draws>, u: nat, ms: seq<nat>, upto: nat)
    requires LaneModuli(ms) && Received(received, |theirs|)
  {
    |tables| == upto <= |bins| && forall b :: 0 <= b < upto ==> TableServes(tables[b], bins[b], link, theirs, received, ds, u, b, ms)
  }

  ghost predicate TablesRead(tables: seq<seq<Row>>, bins: seq<Simple.Bin>, link: Link, theirs: seq<nat>, received: seq<seq<nat>>,
                             ds: seq<Draws>, u: nat, ms: seq<nat>, upto: nat)
    requires LaneModuli(ms) && Received(received, |theirs|)
  {
    |tables| == upto <= |bins| && forall b :: 0 <= b < upto ==> BinReads(tables[b], bins[b], link, theirs, received, ds, u, b, ms)
  }

  lemma {:induction false} TablesReadNext(tables: seq<seq<Row>>, rows: seq<Row>, bins: seq<Simple.Bin>, link: Link, theirs: seq<nat>,
                                          received: seq<seq<nat>>, ds: seq<Draws>, u: nat, ms: seq<nat>, b: nat)
    requires LaneModuli(ms) && Received(received, |theirs|) && b < |bins|
    requires TablesRead(tables, bins, link, theirs, received, ds, u, ms, b) && BinReads(rows, bins[b], link, theirs, received, ds, u, b, ms)
    ensures TablesRead(tables + [rows], bins, link, theirs, received, ds, u, ms, b + 1)
  {
    forall c | 0 <= c < b + 1
      ensures BinReads((tables + [rows])[c], bins[c], link, theirs, received, ds, u, c, ms)
    {
      if c < b {
        assert BinReads(tables[c], bins[c], link, theirs, received, ds, u, c, ms);
      }
    }
  }

  lemma {:induction false} TablesServeNext(tables: seq<seq<Row>>, rows: seq<Row>, bins: seq<Simple.Bin>, link: Link, theirs: seq<nat>,
                                           received: seq<seq<nat>>, ds: seq<Draws>, u: nat, ms: seq<nat>, b: nat)
    requires LaneModuli(ms) && Received(received, |theirs|) && b < |bins|
    requires TablesServe(tables, bins, link, theirs, received, ds, u, ms, b)
    requires TableServes(rows, bins[b], link, theirs, received, ds, u, b, ms)
    ensures TablesServe(tables + [rows], bins, link, theirs, received, ds, u, ms, b + 1)
  {
    forall c | 0 <= c < b + 1
      ensures TableServes((tables + [rows])[c], bins[c], link, theirs, received, ds, u, c, ms)
    {
      if c < b {
        assert TableServes(tables[c], bins[c], link, theirs, received, ds, u, c, ms);
      }
    }
  }

  ghost predicate LinkReady(p: HashParams, link: Link, theirs: seq<nat>, bins: seq<Simple.Bin>)
    requires |p.region| == 2
  {
    forall b :: 0 <= b < |bins| ==> LinkSearched(p, link, theirs, bins[b], b)
  }

  predicate InLanes(elements: seq<nat>) {
    forall j :: 0 <= j < |elements| ==> elements[j] < LANE
  }

  /** All of a client's rows: with an element the client has, read in a bin where the client has it, they serve
      the leader. */
  method ServeBins(p: HashParams, bins: seq<Simple.Bin>, link: Link, theirs: seq<nat>, received: seq<seq<nat>>, ds: seq<Draws>,
                   u: nat, ms: seq<nat>)
    returns (tables: seq<seq<Row>>)
    requires SixBits(p) && LaneModuli(ms) && Received(received, |theirs|) && |ds| > 0
    requires LinkReady(p, link, theirs, bins) && InLanes(theirs)
    ensures TablesServe(tables, bins, link, theirs, received, ds, u, ms, |bins|)
    ensures TablesRead(tables, bins, link, theirs, received, ds, u, ms, |bins|)
  {
    tables := [];
    for b := 0 to |bins|
      invariant TablesServe(tables, bins, link, theirs, received, ds, u, ms, b)
      invariant TablesRead(tables, bins, link, theirs, received, ds, u, ms, b)
    {
      var rows := ServeBin(p, bins[b], link, theirs, received, ds, u, b, ms);
      TablesServeNext(tables, rows, bins, link, theirs, received, ds, u, ms, b);
      TablesReadNext(tables, rows, bins, link, theirs, received, ds, u, ms, b);
      tables := tables + [rows];
    }
  }
}
