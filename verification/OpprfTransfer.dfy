/**
 The receiving side of the table OPPRF, and the round trip: whatever element the sender also holds,
 the receiver decodes the sender's payload for it.
 */
module OpprfTransfer {
  import opened NumberTheory
  import opened HashParameters
  import opened CuckooHashing
  import Simple = SimpleHashing
  import opened BinSets
  import opened BitPositions
  import opened BitSeparation
  import opened PositionSearch
  import opened Groups
  import opened Opprf

  // ---------------------------------------------------------------- the receiver

  // What the receiver reads from a row with its own OPRF value.
  function Decoded(g: Group, row: Row, region: Region, oprf: Point): Point
    requires |row| == RowLength(region) && region.maxBinSize == Pow(2, region.numBits)
  {
    MaskBits(oprf, row[..region.numBits]);
    g.sub(SlotAt(row, region.numBits, Mask(oprf, row[..region.numBits])), oprf)
  }

  method DecodeRow(g: Group, row: Row, region: Region, myMask: Point) returns (plain: Point)
    requires |row| == RowLength(region) && region.maxBinSize == Pow(2, region.numBits)
    ensures plain == Decoded(g, row, region, myMask)
    ensures var m := Mask(myMask, row[..region.numBits]);
      m < region.maxBinSize && plain == g.sub(SlotAt(row, region.numBits, m), myMask)
  {
    var numBits := region.numBits;
    var bits := new BitPosition(numBits);
    for i := 0 to numBits
      invariant bits.mPos == row[..i]
    {
      bits.mPos := bits.mPos + [row[i]];
    }
    var slot := bits.GetMask(myMask);
    MaskBits(myMask, row[..numBits]);
    var theirMask := SlotAt(row, numBits, slot);
    plain := g.sub(theirMask, myMask);
  }

  /** getOPRFkeysSeperatedandTable of the receiver: throws exactly when an item index is out of bounds. */
  method GetReceiverKeys(bins: seq<nat>, oprfValues: seq<Point>) returns (r: Option<seq<Point>>)
    ensures r.None? <==> exists b :: 0 <= b < |bins| && bins[b] != EMPTY && IdxOf(bins[b]) >= |oprfValues|
    ensures r.Some? ==> |r.value| == |bins| && forall b :: 0 <= b < |bins| && bins[b] != EMPTY ==>
      IdxOf(bins[b]) < |oprfValues| && r.value[b] == oprfValues[IdxOf(bins[b])]
  {
    var keys: seq<Point> := [];
    for b := 0 to |bins|
      invariant |keys| == b
      invariant forall c :: 0 <= c < b && bins[c] != EMPTY ==>
        IdxOf(bins[c]) < |oprfValues| && keys[c] == oprfValues[IdxOf(bins[c])]
    {
      if bins[b] != EMPTY {
        if IdxOf(bins[b]) >= |oprfValues| {
          return None;
        }
        keys := keys + [oprfValues[IdxOf(bins[b])]];
      } else {
        keys := keys + [ZERO_POINT];
      }
    }
    r := Some(keys);
  }

  predicate AllOfLength(rows: seq<Row>, n: nat) {
    forall i :: 0 <= i < |rows| ==> |rows[i]| == n
  }

  // Everything recvSSTableBased reads besides the messages.
  datatype Receiving = Receiving(p: HashParams, bins: seq<nat>, keys: seq<Point>) {
    // Every item of the set of size p.n is in at most one bin.
    ghost predicate Ready() {
      && p.Usable() && |bins| == |keys| == p.Bins()
      && p.region[0].maxBinSize == Pow(2, p.region[0].numBits) && p.region[1].maxBinSize == Pow(2, p.region[1].numBits)
      && (forall b :: 0 <= b < |bins| && bins[b] != EMPTY ==> IdxOf(bins[b]) < p.n)
      && (forall b, c :: 0 <= b < c < |bins| && bins[b] != EMPTY && bins[c] != EMPTY ==> IdxOf(bins[b]) != IdxOf(bins[c]))
    }

    // No bin from lo to hi holds item x.
    ghost predicate Untouched(lo: nat, hi: nat, x: nat)
      requires lo <= hi <= |bins|
    {
      forall b :: lo <= b < hi ==> bins[b] == EMPTY || IdxOf(bins[b]) != x
    }

    // The row for bin b of region r has been decoded.
    ghost predicate Taken(g: Group, r: nat, b: nat, row: Row, plaintexts: seq<Point>)
      requires r < 2 && Ready() && b < |bins| && |plaintexts| == p.n && |row| == RowLength(p.region[r])
    {
      bins[b] != EMPTY ==> plaintexts[IdxOf(bins[b])] == Decoded(g, row, p.region[r], keys[b])
    }

    // Messages from number `from` on have the sizes the receiver expects for region r.
    ghost predicate Sized(r: nat, messages: seq<seq<Row>>, from: nat)
      requires r < 2 && p.Usable()
    {
      && from + BatchCount(p.region[r].binCount) <= |messages|
      && SizedFirst(r, messages, from, BatchCount(p.region[r].binCount))
    }

    ghost predicate SizedFirst(r: nat, messages: seq<seq<Row>>, from: nat, count: nat)
      requires r < 2 && p.Usable()
    {
      forall j :: 0 <= j < count ==> SizedAt(r, messages, from, j)
    }

    ghost predicate SizedAt(r: nat, messages: seq<seq<Row>>, from: nat, j: nat)
      requires r < 2 && p.Usable()
    {
      && from + j < |messages| && |messages[from + j]| == BatchSize(p.region[r].binCount, j)
      && AllOfLength(messages[from + j], RowLength(p.region[r]))
    }

    // The first `upto` bins of region r have been decoded from messages starting at number `from`.
    ghost predicate Decodes(g: Group, r: nat, messages: seq<seq<Row>>, from: nat, upto: nat, plaintexts: seq<Point>)
      requires r < 2 && Ready() && upto <= p.region[r].binCount && |plaintexts| == p.n
    {
      forall k :: 0 <= k < upto ==>
        && from + k / 16 < |messages| && k % 16 < |messages[from + k / 16]|
        && |messages[from + k / 16][k % 16]| == RowLength(p.region[r])
        && Taken(g, r, p.Base(r) + k, messages[from + k / 16][k % 16], plaintexts)
    }
  }

  // The rows of one message.
  method RecvBatch(g: Group, v: Receiving, r: nat, start: nat, rows: seq<Row>, plaintexts: seq<Point>)
    returns (plaintexts': seq<Point>)
    requires r < 2 && v.Ready() && |plaintexts| == v.p.n && start + |rows| <= |v.bins|
    requires AllOfLength(rows, RowLength(v.p.region[r]))
    ensures |plaintexts'| == v.p.n && forall i :: 0 <= i < |rows| ==> v.Taken(g, r, start + i, rows[i], plaintexts')
    ensures forall x :: 0 <= x < v.p.n && v.Untouched(start, start + |rows|, x) ==> plaintexts'[x] == plaintexts[x]
  {
    plaintexts' := plaintexts;
    for i := 0 to |rows|
      invariant |plaintexts'| == v.p.n && forall k :: 0 <= k < i ==> v.Taken(g, r, start + k, rows[k], plaintexts')
      invariant forall x :: 0 <= x < v.p.n && v.Untouched(start, start + i, x) ==> plaintexts'[x] == plaintexts[x]
    {
      var b := start + i;
      if v.bins[b] != EMPTY {
        var inputIdx := IdxOf(v.bins[b]);
        var plain := DecodeRow(g, rows[i], v.p.region[r], v.keys[b]);
        plaintexts' := plaintexts'[inputIdx := plain];
      }
    }
  }

  lemma {:induction false} BatchDecoded(g: Group, v: Receiving, r: nat, messages: seq<seq<Row>>, from: nat, at: nat,
                                        done: nat, next: nat, before: seq<Point>, after: seq<Point>)
    requires r < 2 && v.Ready() && |before| == |after| == v.p.n && from <= at < |messages|
    requires done == 16 * (at - from) && next == done + |messages[at]| <= v.p.region[r].binCount && |messages[at]| <= 16
    requires AllOfLength(messages[at], RowLength(v.p.region[r]))
    requires v.Decodes(g, r, messages, from, done, before)
    requires forall i :: 0 <= i < |messages[at]| ==> v.Taken(g, r, v.p.Base(r) + done + i, messages[at][i], after)
    requires forall x :: 0 <= x < v.p.n && v.Untouched(v.p.Base(r) + done, v.p.Base(r) + next, x) ==> after[x] == before[x]
    ensures v.Decodes(g, r, messages, from, next, after)
  {
    var base := v.p.Base(r);
    forall k | 0 <= k < next
      ensures from + k / 16 < |messages| && k % 16 < |messages[from + k / 16]|
      ensures |messages[from + k / 16][k % 16]| == RowLength(v.p.region[r])
      ensures v.Taken(g, r, base + k, messages[from + k / 16][k % 16], after)
    {
      if k < done {
        assert v.Taken(g, r, base + k, messages[from + k / 16][k % 16], before);
        if v.bins[base + k] != EMPTY {
          assert v.Untouched(base + done, base + next, IdxOf(v.bins[base + k]));
        }
      } else {
        var i := k - done;
        assert from + k / 16 == at && k % 16 == i;
        assert v.Taken(g, r, base + done + i, messages[at][i], after);
      }
    }
  }

  // Whether the message at hand has the expected number of rows, all of the expected length.
  method CheckMessage(v: Receiving, r: nat, messages: seq<seq<Row>>, from: nat, at: nat, step: nat) returns (fits: bool)
    requires r < 2 && v.p.Usable() && from <= at <= |messages| && 16 * (at - from) < v.p.region[r].binCount
    requires step == BatchSize(v.p.region[r].binCount, at - from)
    ensures fits <==> v.SizedAt(r, messages, from, at - from)
    ensures !fits ==> !v.Sized(r, messages, from)
    ensures fits ==> at < |messages| && |messages[at]| == step && AllOfLength(messages[at], RowLength(v.p.region[r]))
  {
    fits := at < |messages| && |messages[at]| == step && AllOfLength(messages[at], RowLength(v.p.region[r]));
  }

  // The messages of one region; the source throws when a message has the wrong number of rows.
  method RecvRegion(g: Group, v: Receiving, r: nat, messages: seq<seq<Row>>, from: nat, plaintexts: seq<Point>)
    returns (ok: bool, at: nat, plaintexts': seq<Point>)
    requires r < 2 && v.Ready() && |plaintexts| == v.p.n && from <= |messages|
    ensures |plaintexts'| == v.p.n && from <= at <= |messages|
    ensures ok <==> v.Sized(r, messages, from)
    ensures ok ==> at == from + BatchCount(v.p.region[r].binCount)
    ensures ok ==> v.Decodes(g, r, messages, from, v.p.region[r].binCount, plaintexts')
    ensures forall x :: 0 <= x < v.p.n && v.Untouched(v.p.Base(r), v.p.Base(r) + v.p.region[r].binCount, x) ==>
      plaintexts'[x] == plaintexts[x]
  {
    var start, count := v.p.Base(r), v.p.region[r].binCount;
    plaintexts' := plaintexts;
    at := from;
    var done := 0;
    while done < count
      invariant done <= count && from <= at <= |messages| && |plaintexts'| == v.p.n
      invariant (done == 16 * (at - from) || done == count) && at - from == BatchCount(done)
      invariant v.Decodes(g, r, messages, from, done, plaintexts')
      invariant v.SizedFirst(r, messages, from, at - from)
      invariant forall x :: 0 <= x < v.p.n && v.Untouched(start, start + count, x) ==> plaintexts'[x] == plaintexts[x]
    {
      var step := if count - done < 16 then count - done else 16;
      var fits := CheckMessage(v, r, messages, from, at, step);
      if !fits {
        return false, at, plaintexts';
      }
      var next := done + step;
      ghost var before := plaintexts';
      plaintexts' := RecvBatch(g, v, r, start + done, messages[at], plaintexts');
      BatchDecoded(g, v, r, messages, from, at, done, next, before, plaintexts');
      done := next;
      at := at + 1;
    }
    ok := true;
  }


  // Decoding the stash region does not disturb what the main region gave.
  lemma {:induction false} MainKept(g: Group, v: Receiving, messages: seq<seq<Row>>, before: seq<Point>, after: seq<Point>)
    requires v.Ready() && |before| == |after| == v.p.n
    requires v.Decodes(g, 0, messages, 0, v.p.region[0].binCount, before)
    requires forall x :: 0 <= x < v.p.n && v.Untouched(v.p.Base(1), v.p.Base(1) + v.p.region[1].binCount, x) ==> after[x] == before[x]
    ensures v.Decodes(g, 0, messages, 0, v.p.region[0].binCount, after)
  {
    forall k | 0 <= k < v.p.region[0].binCount
      ensures 0 + k / 16 < |messages| && k % 16 < |messages[0 + k / 16]|
      ensures |messages[0 + k / 16][k % 16]| == RowLength(v.p.region[0])
      ensures v.Taken(g, 0, v.p.Base(0) + k, messages[0 + k / 16][k % 16], after)
    {
      assert v.Taken(g, 0, v.p.Base(0) + k, messages[0 + k / 16][k % 16], before);
      if v.bins[k] != EMPTY {
        assert v.Untouched(v.p.Base(1), v.p.Base(1) + v.p.region[1].binCount, IdxOf(v.bins[k]));
      }
    }
  }

  /** recvSSTableBased: exactly messages of the expected sizes are accepted, and every occupied bin's item gets
      the value decoded from its own row. */
  method RecvTable(g: Group, v: Receiving, messages: seq<seq<Row>>, plaintexts: seq<Point>)
    returns (ok: bool, plaintexts': seq<Point>)
    requires v.Ready() && |plaintexts| == v.p.n
    ensures |plaintexts'| == v.p.n
    ensures ok <==> v.Sized(0, messages, 0) && v.Sized(1, messages, BatchCount(v.p.region[0].binCount))
    ensures ok ==> v.Decodes(g, 0, messages, 0, v.p.region[0].binCount, plaintexts')
    ensures ok ==> v.Decodes(g, 1, messages, BatchCount(v.p.region[0].binCount), v.p.region[1].binCount, plaintexts')
  {
    var at, main;
    ok, at, main := RecvRegion(g, v, 0, messages, 0, plaintexts);
    if !ok {
      return false, main;
    }
    ok, at, plaintexts' := RecvRegion(g, v, 1, messages, at, main);
    if ok {
      MainKept(g, v, messages, main, plaintexts');
    }
  }

  /** Exactly these messages are accepted: as many as the region needs, each with sixteen rows or what is
      left, every row with room for its positions and slots. */
  lemma {:induction false} SizedIff(v: Receiving, r: nat, messages: seq<seq<Row>>, from: nat, rest: seq<seq<Row>>)
    requires r < 2 && v.p.Usable() && from <= |messages| && rest == messages[from..]
    ensures v.Sized(r, messages, from) <==>
      ((v.p.region[r].binCount + 15) / 16 <= |rest|
       && forall j :: 0 <= j < (v.p.region[r].binCount + 15) / 16 ==> MessageFits(v.p.region[r], rest[j], j))
  {
    forall j | 0 <= j < BatchCount(v.p.region[r].binCount) && j < |rest|
      ensures v.SizedAt(r, messages, from, j) <==> MessageFits(v.p.region[r], rest[j], j)
    {
    }
    if v.Sized(r, messages, from) {
      forall j | 0 <= j < BatchCount(v.p.region[r].binCount)
        ensures MessageFits(v.p.region[r], rest[j], j)
      {
        assert v.SizedAt(r, messages, from, j);
      }
    }
  }

  // Message j of a region: sixteen rows or what is left, all as long as positions and slots.
  ghost predicate MessageFits(region: Region, rows: seq<Row>, j: nat) {
    && |rows| == (if region.binCount >= 16 * j + 16 then 16 else if region.binCount > 16 * j then region.binCount - 16 * j else 0)
    && forall i :: 0 <= i < |rows| ==> |rows[i]| == region.numBits + 32 * region.maxBinSize
  }

  /** What an occupied bin's item gets: the bin's row is taken apart with the mask of the item's own value. */
  lemma {:induction false} DecodedAt(g: Group, v: Receiving, r: nat, messages: seq<seq<Row>>, from: nat, plaintexts: seq<Point>,
                                     k: nat, q: nat, i: nat, b: nat, m: nat)
    requires r < 2 && v.Ready() && |plaintexts| == v.p.n && k < v.p.region[r].binCount && q == k / 16 && i == k % 16
    requires v.Decodes(g, r, messages, from, v.p.region[r].binCount, plaintexts)
    requires b == (if r == 0 then k else v.p.region[0].binCount + k) && v.bins[b] != EMPTY
    requires from + q < |messages| && i < |messages[from + q]| && v.p.region[r].numBits <= |messages[from + q][i]|
    requires m == Mask(v.keys[b], messages[from + q][i][..v.p.region[r].numBits])
    ensures v.p.region[r].numBits + 32 * m + 32 <= |messages[from + q][i]|
    ensures plaintexts[IdxOf(v.bins[b])] == g.sub(SlotAt(messages[from + q][i], v.p.region[r].numBits, m), v.keys[b])
  {
    assert v.Taken(g, r, v.p.Base(r) + k, messages[from + k / 16][k % 16], plaintexts);
    MaskBits(v.keys[b], messages[from + q][i][..v.p.region[r].numBits]);
  }

  // ---------------------------------------------------------------- the round trip

  /** One bin: a receiver with the OPRF value of the sender's entry i decodes that entry's payload. */
  lemma {:induction false} BinDecodes(g: Group, region: Region, bin: Simple.Bin, table: BinTable, plaintexts: seq<Point>,
                                      row: Row, oprf: Point, i: nat)
    requires Laws(g) && RowOf(g, region, bin, table, plaintexts, row)
    requires i < |bin.mIdx| && oprf == table.oprf[i] && g.valid(oprf) && g.valid(plaintexts[bin.mIdx[i]])
    ensures Decoded(g, row, region, oprf) == plaintexts[bin.mIdx[i]]
  {
    var payload := plaintexts[bin.mIdx[i]];
    assert Mask(oprf, row[..region.numBits]) == table.mMaps[i];
    assert SlotAt(row, region.numBits, table.mMaps[i]) == Encrypted(g, table.oprf, bin.mIdx, plaintexts)[i] == g.add(oprf, payload);
    AddComm(g, oprf, payload);
    SubAdd(g, payload, oprf);
  }

  // The bin's points, if there are three, pass the test of BitSeparation.
  ghost predicate SafeBin(region: Region, oprf: seq<Point>) {
    |oprf| == 3 && FirstDiff(oprf[0], oprf[1], 0) < POINT_BITS ==>
      AlwaysSeparated(oprf[0], oprf[1], oprf[2], region.numBits)
  }

  lemma {:induction false} KeyedSeparates(region: Region, bin: Simple.Bin, oprfValues: seq<Point>, table: BinTable)
    requires Keyed(region, bin, oprfValues, table) && NoRepeat(table.oprf) && SafeBin(region, table.oprf)
    ensures Separates(table.oprf, table.mPos)
  {
    if |table.oprf| == 3 {
      PointsDiffer(table.oprf[0], table.oprf[1]);
      ThreeSeparate(table.oprf, region.numBits, table.mPos);
    } else if 1 <= |table.oprf| <= 2 {
      FewSeparate(table.oprf, region.numBits, table.mPos);
    }
  }

  // The sender's bins list its items, each bin without repeats, and no bin is confusable.
  ghost predicate SafeBins(p: HashParams, bins: seq<Simple.Bin>, oprfValues: seq<Point>)
    requires |p.region| == 2
  {
    forall b :: 0 <= b < |bins| ==>
      && NoRepeat(bins[b].mIdx) && (forall i :: 0 <= i < |bins[b].mIdx| ==> bins[b].mIdx[i] < |oprfValues|)
      && SafeBin(p.region[RegionOf(p, b)], PointsOf(bins[b], oprfValues))
  }

  // A bin that really has one mask per item.
  predicate HasMasks(bin: Simple.Bin, table: BinTable) {
    |bin.mIdx| > 0 ==> |table.mMaps| == |bin.mIdx|
  }

  /** Only a confusable bin can end up without masks. */
  lemma {:induction false} SafeBinsHaveMasks(p: HashParams, bins: seq<Simple.Bin>, oprfValues: seq<Point>, tables: seq<BinTable>, b: nat)
    requires |p.region| == 2 && AllKeyed(p, bins, oprfValues, tables) && b < |bins|
    requires SafeBins(p, bins, oprfValues) && NoRepeat(oprfValues)
    ensures HasMasks(bins[b], tables[b])
  {
    if |bins[b].mIdx| > 0 {
      var region, bin, table := p.region[RegionOf(p, b)], bins[b], tables[b];
      assert Keyed(region, bin, oprfValues, table);
      assert table.oprf == PointsOf(bin, oprfValues);
      KeyedSeparates(region, bin, oprfValues, table);
    }
  }

  lemma {:induction false} SenderReady(s: Sending, oprfValues: seq<Point>)
    requires s.p.Usable() && |s.bins| == s.p.Bins() && AllKeyed(s.p, s.bins, oprfValues, s.tables)
    requires |oprfValues| <= |s.plaintexts| && forall b :: 0 <= b < |s.bins| ==> HasMasks(s.bins[b], s.tables[b])
    requires s.p.region[0].numBits <= 128 && s.p.region[1].numBits <= 128
    requires s.p.region[0].maxBinSize == Pow(2, s.p.region[0].numBits) && s.p.region[1].maxBinSize == Pow(2, s.p.region[1].numBits)
    ensures s.Ready()
  {
    forall b | 0 <= b < |s.bins| && |s.bins[b].mIdx| > 0
      ensures Sendable(s.p.region[RegionOf(s.p, b)], s.bins[b], s.tables[b], s.plaintexts)
    {
      assert Keyed(s.p.region[RegionOf(s.p, b)], s.bins[b], oprfValues, s.tables[b]);
      assert HasMasks(s.bins[b], s.tables[b]);
    }
  }

  lemma {:induction false} ReceiverReady(v: Receiving)
    requires v.p.Usable() && |v.bins| == |v.keys| == v.p.Bins() && OnceEach(Indices(v.bins), v.p.n)
    requires v.p.region[0].maxBinSize == Pow(2, v.p.region[0].numBits) && v.p.region[1].maxBinSize == Pow(2, v.p.region[1].numBits)
    ensures v.Ready()
  {
    ItemsInRange(v.bins, v.p.n);
    forall b, c | 0 <= b < c < |v.bins| && v.bins[b] != EMPTY && v.bins[c] != EMPTY
      ensures IdxOf(v.bins[b]) != IdxOf(v.bins[c])
    {
      if IdxOf(v.bins[b]) == IdxOf(v.bins[c]) {
        IndicesTwice(v.bins, b, c);
      }
    }
  }

  // What the sender sends has the sizes the receiver expects, region by region.
  lemma {:induction false} SentIsSized(g: Group, s: Sending, v: Receiving, r: nat, messages: seq<seq<Row>>, from: nat)
    requires r < 2 && s.p == v.p && s.p.Usable() && |s.bins| == |s.tables| == s.p.Bins()
    requires from + BatchCount(s.p.region[r].binCount) <= |messages|
    requires s.Carried(g, r, messages, from, s.p.region[r].binCount)
    ensures v.Sized(r, messages, from)
  {
    var count := s.p.region[r].binCount;
    forall j | 0 <= j < BatchCount(count)
      ensures |messages[from + j]| == BatchSize(count, j) && AllOfLength(messages[from + j], RowLength(s.p.region[r]))
    {
      assert (16 * j) / 16 == j && 16 * j < count;
      assert |messages[from + (16 * j) / 16]| == BatchSize(count, j);
      var rows := messages[from + j];
      forall i | 0 <= i < |rows|
        ensures |rows[i]| == RowLength(s.p.region[r])
      {
        var k := 16 * j + i;
        assert k / 16 == j && k % 16 == i && k < count;
        assert s.RowFor(g, r, s.p.Base(r) + k, messages[from + k / 16][k % 16]);
      }
    }
  }

  // Both sides compute the same valid OPRF value for a common element, and the sender's are all different.
  ghost predicate Oprfs<E>(g: Group, theirs: seq<E>, mine: seq<E>, senderOprf: seq<Point>, receiverOprf: seq<Point>) {
    && |senderOprf| == |theirs| && |receiverOprf| == |mine| && NoRepeat(senderOprf)
    && (forall j :: 0 <= j < |theirs| ==> g.valid(senderOprf[j])) && (forall i :: 0 <= i < |mine| ==> g.valid(receiverOprf[i]))
    && forall i, j :: 0 <= i < |mine| && 0 <= j < |theirs| && theirs[j] == mine[i] ==> senderOprf[j] == receiverOprf[i]
  }

  // A common element is decoded from the row of the bin where the receiver keeps it.
  lemma {:induction false} ItemInRegion(g: Group, s: Sending, v: Receiving, oprfValues: seq<Point>, row: Row,
                                        received: seq<Point>, r: nat, b: nat, j: nat)
    requires Laws(g) && v.Ready() && s.p == v.p && |received| == v.p.n && r < 2 && r == RegionOf(s.p, b)
    requires b < |s.bins| == |s.tables| == |v.bins| && Keyed(s.p.region[r], s.bins[b], oprfValues, s.tables[b])
    requires s.RowFor(g, r, b, row) && v.Taken(g, r, b, row, received)
    requires v.bins[b] != EMPTY && j in s.bins[b].mIdx && j < |oprfValues| && j < |s.plaintexts|
    requires v.keys[b] == oprfValues[j] && g.valid(oprfValues[j]) && g.valid(s.plaintexts[j])
    ensures received[IdxOf(v.bins[b])] == s.plaintexts[j]
  {
    var i :| 0 <= i < |s.bins[b].mIdx| && s.bins[b].mIdx[i] == j;
    BinDecodes(g, s.p.region[r], s.bins[b], s.tables[b], s.plaintexts, row, v.keys[b], i);
  }

  lemma {:induction false} ItemDelivered(g: Group, s: Sending, v: Receiving, oprfValues: seq<Point>, messages: seq<seq<Row>>,
                                         received: seq<Point>, b: nat, j: nat)
    requires Laws(g) && s.Ready() && v.Ready() && s.p == v.p && |received| == v.p.n
    requires AllKeyed(s.p, s.bins, oprfValues, s.tables)
    requires s.Carried(g, 0, messages, 0, s.p.region[0].binCount)
    requires s.Carried(g, 1, messages, BatchCount(s.p.region[0].binCount), s.p.region[1].binCount)
    requires v.Decodes(g, 0, messages, 0, v.p.region[0].binCount, received)
    requires v.Decodes(g, 1, messages, BatchCount(v.p.region[0].binCount), v.p.region[1].binCount, received)
    requires b < |v.bins| && v.bins[b] != EMPTY && j in s.bins[b].mIdx && j < |oprfValues| && j < |s.plaintexts|
    requires v.keys[b] == oprfValues[j] && g.valid(oprfValues[j]) && g.valid(s.plaintexts[j])
    ensures received[IdxOf(v.bins[b])] == s.plaintexts[j]
  {
    assert Keyed(s.p.region[RegionOf(s.p, b)], s.bins[b], oprfValues, s.tables[b]);
    if b < s.p.region[0].binCount {
      var row := RegionRow(g, s, v, 0, messages, 0, b, received);
      ItemInRegion(g, s, v, oprfValues, row, received, 0, b, j);
    } else {
      var row := RegionRow(g, s, v, 1, messages, BatchCount(s.p.region[0].binCount), b, received);
      ItemInRegion(g, s, v, oprfValues, row, received, 1, b, j);
    }
  }

  // The row sent for a bin is the row read for it.
  lemma {:induction false} RegionRow(g: Group, s: Sending, v: Receiving, r: nat, messages: seq<seq<Row>>, from: nat,
                                     b: nat, received: seq<Point>)
    returns (row: Row)
    requires r < 2 && v.Ready() && s.p == v.p && |s.bins| == |s.tables| == s.p.Bins() && |received| == v.p.n
    requires s.Carried(g, r, messages, from, s.p.region[r].binCount)
    requires v.Decodes(g, r, messages, from, v.p.region[r].binCount, received)
    requires s.p.Base(r) <= b < s.p.Base(r) + s.p.region[r].binCount
    ensures s.RowFor(g, r, b, row) && v.Taken(g, r, b, row, received)
  {
    var k := b - s.p.Base(r);
    row := messages[from + k / 16][k % 16];
  }

  // Every slot of a row holds a group element, so whatever a receiver decodes is one.
  lemma {:induction false} DecodedValid(g: Group, s: Sending, oprfValues: seq<Point>, r: nat, b: nat, row: Row, oprf: Point)
    requires Laws(g) && r < 2 && s.p.Usable() && b < |s.bins| == |s.tables| && s.RowFor(g, r, b, row)
    requires s.p.region[r].maxBinSize == Pow(2, s.p.region[r].numBits) && g.valid(oprf)
    requires |s.bins[b].mIdx| > 0 ==> Keyed(s.p.region[r], s.bins[b], oprfValues, s.tables[b])
    requires (forall j :: 0 <= j < |oprfValues| ==> g.valid(oprfValues[j]))
    requires (forall j :: 0 <= j < |s.plaintexts| ==> g.valid(s.plaintexts[j]))
    ensures g.valid(Decoded(g, row, s.p.region[r], oprf))
  {
    var region, bin, table := s.p.region[r], s.bins[b], s.tables[b];
    var m := Mask(oprf, row[..region.numBits]);
    MaskBits(oprf, row[..region.numBits]);
    if |bin.mIdx| > 0 && m in table.mMaps {
      var i :| 0 <= i < |table.mMaps| && table.mMaps[i] == m;
      assert SlotAt(row, region.numBits, m) == Encrypted(g, table.oprf, bin.mIdx, s.plaintexts)[i];
      AddValid(g, table.oprf[i], s.plaintexts[bin.mIdx[i]]);
    } else {
      assert SlotAt(row, region.numBits, m) == ZERO_POINT;
    }
    AddValid(g, SlotAt(row, region.numBits, m), oprf);
  }

  lemma {:induction false} ItemValid(g: Group, s: Sending, v: Receiving, oprfValues: seq<Point>, messages: seq<seq<Row>>,
                                     received: seq<Point>, b: nat)
    requires Laws(g) && s.Ready() && v.Ready() && s.p == v.p && |received| == v.p.n
    requires AllKeyed(s.p, s.bins, oprfValues, s.tables)
    requires s.Carried(g, 0, messages, 0, s.p.region[0].binCount)
    requires s.Carried(g, 1, messages, BatchCount(s.p.region[0].binCount), s.p.region[1].binCount)
    requires v.Decodes(g, 0, messages, 0, v.p.region[0].binCount, received)
    requires v.Decodes(g, 1, messages, BatchCount(v.p.region[0].binCount), v.p.region[1].binCount, received)
    requires b < |v.bins| && v.bins[b] != EMPTY && g.valid(v.keys[b])
    requires (forall j :: 0 <= j < |oprfValues| ==> g.valid(oprfValues[j]))
    requires (forall j :: 0 <= j < |s.plaintexts| ==> g.valid(s.plaintexts[j]))
    ensures g.valid(received[IdxOf(v.bins[b])])
  {
    var r := RegionOf(s.p, b);
    var from := if r == 0 then 0 else BatchCount(s.p.region[0].binCount);
    var row := RegionRow(g, s, v, r, messages, from, b, received);
    DecodedValid(g, s, oprfValues, r, b, row, v.keys[b]);
  }

  // ---------------------------------------------------------------- what comes out for any element

  // What a receiver reads in a bin with this value: the payload behind the sender's value with the same mask, or
  // the zero point, and its own value subtracted.
  ghost predicate Reads(g: Group, bin: Simple.Bin, oprf: seq<Point>, pos: seq<nat>, payloads: seq<Point>, key: Point, v: Point) {
    && Positions(pos) && Simple.InRange(bin, |oprf|) && Simple.InRange(bin, |payloads|)
    && (forall i :: 0 <= i < |bin.mIdx| && Mask(oprf[bin.mIdx[i]], pos) == Mask(key, pos) ==>
          v == g.sub(g.add(oprf[bin.mIdx[i]], payloads[bin.mIdx[i]]), key))
    && ((forall i :: 0 <= i < |bin.mIdx| ==> Mask(oprf[bin.mIdx[i]], pos) != Mask(key, pos)) ==> v == g.sub(ZERO_POINT, key))
  }

  // The positions a bin's search ends with; none for an empty bin.
  ghost function PositionsAt(p: HashParams, bins: seq<Simple.Bin>, oprfValues: seq<Point>, raw: seq<seq<nat>>, b: nat): seq<nat>
    requires |p.region| == 2 && b < |bins| == |raw|
  {
    var found := BinPositions(p.region[RegionOf(p, b)], bins[b], oprfValues, raw[b]);
    if found.Some? then found.value else []
  }

  // Every occupied bin's item has what its value reads in the sender's bin of the same number.
  ghost predicate AllRead(g: Group, p: HashParams, bins: seq<Simple.Bin>, oprf: seq<Point>, raw: seq<seq<nat>>, payloads: seq<Point>,
                          mine: seq<nat>, keys: seq<Point>, points: seq<Point>)
    requires |p.region| == 2 && |bins| == |raw| == |mine|
  {
    forall b :: 0 <= b < |mine| && mine[b] != EMPTY ==> ReadAt(g, p, bins, oprf, raw, payloads, mine, keys, points, b)
  }

  ghost predicate ReadAt(g: Group, p: HashParams, bins: seq<Simple.Bin>, oprf: seq<Point>, raw: seq<seq<nat>>, payloads: seq<Point>,
                         mine: seq<nat>, keys: seq<Point>, points: seq<Point>, b: nat)
    requires |p.region| == 2 && b < |bins| == |raw| == |mine|
  {
    var i := IdxOf(mine[b]);
    i < |keys| && i < |points| && Reads(g, bins[b], oprf, PositionsAt(p, bins, oprf, raw, b), payloads, keys[i], points[i])
  }

  lemma {:induction false} ReadEmpty(g: Group, bin: Simple.Bin, oprf: seq<Point>, payloads: seq<Point>, region: Region, row: Row, key: Point)
    requires |bin.mIdx| == 0 && region.maxBinSize == Pow(2, region.numBits) && |row| == RowLength(region) && Encodes(row, region, row[..region.numBits], [], [])
    ensures Reads(g, bin, oprf, [], payloads, key, Decoded(g, row, region, key))
  {
    MaskBits(key, row[..region.numBits]);
    assert SlotAt(row, region.numBits, Mask(key, row[..region.numBits])) == ZERO_POINT;
  }

  lemma {:induction false} ReadOccupied(g: Group, bin: Simple.Bin, oprf: seq<Point>, payloads: seq<Point>, region: Region, table: BinTable,
                                        row: Row, key: Point)
    requires RowOf(g, region, bin, table, payloads, row) && Keyed(region, bin, oprf, table)
    ensures Reads(g, bin, oprf, table.mPos, payloads, key, Decoded(g, row, region, key))
  {
    var pos, values := table.mPos, Encrypted(g, table.oprf, bin.mIdx, payloads);
    var m := Mask(key, pos);
    MaskBits(key, pos);
    assert row[..region.numBits] == pos;
    forall i | 0 <= i < |bin.mIdx| && Mask(oprf[bin.mIdx[i]], pos) == m
      ensures SlotAt(row, region.numBits, m) == g.add(oprf[bin.mIdx[i]], payloads[bin.mIdx[i]])
    {
      assert table.mMaps[i] == m && values[i] == g.add(table.oprf[i], payloads[bin.mIdx[i]]);
    }
    if forall i :: 0 <= i < |bin.mIdx| ==> Mask(oprf[bin.mIdx[i]], pos) != m {
      assert m !in table.mMaps;
    }
  }

  // The item in bin b of the receiver.
  lemma {:induction false} ItemReads(g: Group, s: Sending, v: Receiving, oprf: seq<Point>, raw: seq<seq<nat>>, messages: seq<seq<Row>>,
                                     received: seq<Point>, b: nat)
    requires s.Ready() && v.Ready() && s.p == v.p && |received| == v.p.n && |raw| == |s.bins|
    requires AllKeyed(s.p, s.bins, oprf, s.tables) && AllPositioned(s.p, s.bins, oprf, raw, s.tables)
    requires s.Carried(g, 0, messages, 0, s.p.region[0].binCount)
    requires s.Carried(g, 1, messages, BatchCount(s.p.region[0].binCount), s.p.region[1].binCount)
    requires v.Decodes(g, 0, messages, 0, v.p.region[0].binCount, received)
    requires v.Decodes(g, 1, messages, BatchCount(v.p.region[0].binCount), v.p.region[1].binCount, received)
    requires b < |v.bins| && v.bins[b] != EMPTY
    ensures Reads(g, s.bins[b], oprf, PositionsAt(s.p, s.bins, oprf, raw, b), s.plaintexts, v.keys[b], received[IdxOf(v.bins[b])])
  {
    var r := RegionOf(s.p, b);
    var from := if r == 0 then 0 else BatchCount(s.p.region[0].binCount);
    var row := RegionRow(g, s, v, r, messages, from, b, received);
    RowReads(g, s, v, oprf, raw, row, received, r, b);
  }

  lemma {:induction false} RowReads(g: Group, s: Sending, v: Receiving, oprf: seq<Point>, raw: seq<seq<nat>>, row: Row,
                                    received: seq<Point>, r: nat, b: nat)
    requires s.Ready() && v.Ready() && s.p == v.p && |received| == v.p.n && |raw| == |s.bins|
    requires AllKeyed(s.p, s.bins, oprf, s.tables) && AllPositioned(s.p, s.bins, oprf, raw, s.tables)
    requires b < |v.bins| && v.bins[b] != EMPTY && r < 2 && r == RegionOf(s.p, b)
    requires s.RowFor(g, r, b, row) && v.Taken(g, r, b, row, received)
    ensures Reads(g, s.bins[b], oprf, PositionsAt(s.p, s.bins, oprf, raw, b), s.plaintexts, v.keys[b], received[IdxOf(v.bins[b])])
  {
    if |s.bins[b].mIdx| > 0 {
      ReadOccupied(g, s.bins[b], oprf, s.plaintexts, s.p.region[r], s.tables[b], row, v.keys[b]);
    } else {
      ReadEmpty(g, s.bins[b], oprf, s.plaintexts, s.p.region[r], row, v.keys[b]);
    }
  }

  lemma {:induction false} AllItemsRead(g: Group, s: Sending, v: Receiving, oprf: seq<Point>, raw: seq<seq<nat>>, keys: seq<Point>,
                                        messages: seq<seq<Row>>, received: seq<Point>)
    requires s.Ready() && v.Ready() && s.p == v.p && |received| == v.p.n && |raw| == |s.bins|
    requires AllKeyed(s.p, s.bins, oprf, s.tables) && AllPositioned(s.p, s.bins, oprf, raw, s.tables)
    requires s.Carried(g, 0, messages, 0, s.p.region[0].binCount)
    requires s.Carried(g, 1, messages, BatchCount(s.p.region[0].binCount), s.p.region[1].binCount)
    requires v.Decodes(g, 0, messages, 0, v.p.region[0].binCount, received)
    requires v.Decodes(g, 1, messages, BatchCount(v.p.region[0].binCount), v.p.region[1].binCount, received)
    requires forall b :: 0 <= b < |v.bins| && v.bins[b] != EMPTY ==> IdxOf(v.bins[b]) < |keys| && v.keys[b] == keys[IdxOf(v.bins[b])]
    ensures AllRead(g, s.p, s.bins, oprf, raw, s.plaintexts, v.bins, keys, received)
  {
    forall b | 0 <= b < |v.bins| && v.bins[b] != EMPTY
      ensures ReadAt(g, s.p, s.bins, oprf, raw, s.plaintexts, v.bins, keys, received, b)
    {
      ItemReads(g, s, v, oprf, raw, messages, received, b);
    }
  }

  /** What comes out for an item of the receiver, held by the sender or not: it sits in one bin; if one of the sender's
      items in the bin of that number has the same mask, that item's value and payload less the receiver's value; if
      none has, the zero point less the receiver's value. */
  lemma {:induction false} ReadMeans(g: Group, p: HashParams, bins: seq<Simple.Bin>, oprf: seq<Point>, raw: seq<seq<nat>>,
                                     payloads: seq<Point>, mine: seq<nat>, keys: seq<Point>, points: seq<Point>, b: nat, i: nat,
                                     pos: seq<nat>)
    requires |p.region| == 2 && |bins| == |raw| == |mine| && b < |mine| && mine[b] != EMPTY && i == IdxOf(mine[b])
    requires AllRead(g, p, bins, oprf, raw, payloads, mine, keys, points) && Positions(pos)
    requires |bins[b].mIdx| > 0 ==>
      BinPositions(p.region[if b < p.region[0].binCount then 0 else 1], bins[b], oprf, raw[b]) == Some(pos)
    ensures i < |keys| && i < |points| && forall k :: 0 <= k < |bins[b].mIdx| ==> bins[b].mIdx[k] < |oprf| && bins[b].mIdx[k] < |payloads|
    ensures forall k :: 0 <= k < |bins[b].mIdx| && Mask(oprf[bins[b].mIdx[k]], pos) == Mask(keys[i], pos) ==>
      points[i] == g.sub(g.add(oprf[bins[b].mIdx[k]], payloads[bins[b].mIdx[k]]), keys[i])
    ensures (forall k :: 0 <= k < |bins[b].mIdx| ==> Mask(oprf[bins[b].mIdx[k]], pos) != Mask(keys[i], pos)) ==>
      points[i] == g.sub(ZERO_POINT, keys[i])
  {
    assert ReadAt(g, p, bins, oprf, raw, payloads, mine, keys, points, b);
  }

  // ---------------------------------------------------------------- the transfer

  // The parameters come from the table: as many slots as masks, masks of at most a byte.
  ghost predicate Tabled(p: HashParams) {
    && p.Usable()
    && 2 <= p.region[0].numBits <= 8 && p.region[0].maxBinSize == Pow(2, p.region[0].numBits)
    && 2 <= p.region[1].numBits <= 8 && p.region[1].maxBinSize == Pow(2, p.region[1].numBits)
  }

  // How a transfer ends: with the received points, in a search whose stream ran out, or at a bin whose
  // points share a mask, where the source reads past the end of its mask list.
  datatype TransferResult = Done(points: seq<Point>) | StreamEnded | MasksMissing

  // An occupied bin's search ends with positions that give its items different masks.
  ghost predicate WorksAt(p: HashParams, bins: seq<Simple.Bin>, oprfValues: seq<Point>, raw: seq<seq<nat>>, b: nat)
    requires |p.region| == 2 && b < |bins| == |raw|
  {
    |bins[b].mIdx| > 0 ==>
      EndsAt(p, bins, oprfValues, raw, b) && Simple.InRange(bins[b], |oprfValues|)
      && var pos := BinPositions(p.region[RegionOf(p, b)], bins[b], oprfValues, raw[b]).value;
      Positions(pos) && Separates(PointsOf(bins[b], oprfValues), pos)
  }

  ghost predicate AllWork(p: HashParams, bins: seq<Simple.Bin>, oprfValues: seq<Point>, raw: seq<seq<nat>>)
    requires |p.region| == 2 && |bins| == |raw|
  {
    forall b :: 0 <= b < |bins| ==> WorksAt(p, bins, oprfValues, raw, b)
  }

  // A bin has its masks exactly when its search worked.
  lemma {:induction false} MasksIffWorks(p: HashParams, bins: seq<Simple.Bin>, oprfValues: seq<Point>, raw: seq<seq<nat>>,
                                         tables: seq<BinTable>, b: nat)
    requires |p.region| == 2 && |bins| == |raw| == |tables| && b < |bins| && EndsAt(p, bins, oprfValues, raw, b)
    requires AllKeyed(p, bins, oprfValues, tables) && AllPositioned(p, bins, oprfValues, raw, tables)
    ensures HasMasks(bins[b], tables[b]) <==> WorksAt(p, bins, oprfValues, raw, b)
  {
    if |bins[b].mIdx| > 0 {
      assert Keyed(p.region[RegionOf(p, b)], bins[b], oprfValues, tables[b]);
      assert tables[b].oprf == PointsOf(bins[b], oprfValues);
    }
  }

  lemma {:induction false} WorkMeansMasks(p: HashParams, bins: seq<Simple.Bin>, oprfValues: seq<Point>, raw: seq<seq<nat>>,
                                          tables: seq<BinTable>)
    requires |p.region| == 2 && |bins| == |raw| == |tables| && AllEnd(p, bins, oprfValues, raw)
    requires AllKeyed(p, bins, oprfValues, tables) && AllPositioned(p, bins, oprfValues, raw, tables)
    ensures (forall b :: 0 <= b < |bins| ==> HasMasks(bins[b], tables[b])) <==> AllWork(p, bins, oprfValues, raw)
  {
    forall b | 0 <= b < |bins|
      ensures HasMasks(bins[b], tables[b]) <==> WorksAt(p, bins, oprfValues, raw, b)
    {
      assert EndsAt(p, bins, oprfValues, raw, b);
      MasksIffWorks(p, bins, oprfValues, raw, tables, b);
    }
  }

  /** A search works when it ends with positions that give the bin's items different masks. */
  lemma {:induction false} WorksIff(p: HashParams, bins: seq<Simple.Bin>, oprfValues: seq<Point>, raw: seq<seq<nat>>, b: nat,
                                    bin: Simple.Bin, found: Option<seq<nat>>)
    requires |p.region| == 2 && b < |bins| == |raw| && bin == bins[b] && |bin.mIdx| > 0 && Simple.InRange(bin, |oprfValues|)
    requires found == BinPositions(p.region[if b < p.region[0].binCount then 0 else 1], bin, oprfValues, raw[b])
    ensures WorksAt(p, bins, oprfValues, raw, b) <==>
      (found.Some? && Positions(found.value)
       && forall i, j :: 0 <= i < j < |bin.mIdx| ==> Mask(oprfValues[bin.mIdx[i]], found.value) != Mask(oprfValues[bin.mIdx[j]], found.value))
  {
    if found.Some? && Positions(found.value) {
      BinSeparates(bin, oprfValues, found.value, PointsOf(bin, oprfValues));
    }
  }

  lemma {:induction false} BinSeparates(bin: Simple.Bin, oprfValues: seq<Point>, pos: seq<nat>, points: seq<Point>)
    requires Simple.InRange(bin, |oprfValues|) && Positions(pos) && points == PointsOf(bin, oprfValues)
    ensures Separates(points, pos) <==>
      (forall i, j :: 0 <= i < j < |bin.mIdx| ==> Mask(oprfValues[bin.mIdx[i]], pos) != Mask(oprfValues[bin.mIdx[j]], pos))
  {
    SeparatesIs(points, pos);
    assert forall i :: 0 <= i < |points| ==> points[i] == oprfValues[bin.mIdx[i]];
    if Separates(points, pos) {
      forall i, j | 0 <= i < j < |bin.mIdx|
        ensures Mask(oprfValues[bin.mIdx[i]], pos) != Mask(oprfValues[bin.mIdx[j]], pos)
      {
        assert Mask(points[i], pos) != Mask(points[j], pos);
      }
    }
  }

  // All searches work when every occupied bin's does.
  lemma {:induction false} AllWorkIff(p: HashParams, bins: seq<Simple.Bin>, oprfValues: seq<Point>, raw: seq<seq<nat>>)
    requires |p.region| == 2 && |bins| == |raw|
    ensures AllWork(p, bins, oprfValues, raw) <==> forall b :: 0 <= b < |bins| && |bins[b].mIdx| > 0 ==> WorksAt(p, bins, oprfValues, raw, b)
  {
  }

  /** No bin is confusable when it repeats no item and its points, if there are three and the first two
      differ somewhere, are always separated. */
  lemma {:induction false} SafeBinsIff(p: HashParams, bins: seq<Simple.Bin>, oprfValues: seq<Point>)
    requires |p.region| == 2 && forall b :: 0 <= b < |bins| ==> Simple.InRange(bins[b], |oprfValues|) && NoRepeat(bins[b].mIdx)
    ensures SafeBins(p, bins, oprfValues) <==> forall b :: 0 <= b < |bins| && |bins[b].mIdx| == 3 && Simple.InRange(bins[b], |oprfValues|) ==>
      (var x, y, z := oprfValues[bins[b].mIdx[0]], oprfValues[bins[b].mIdx[1]], oprfValues[bins[b].mIdx[2]];
       FirstDiff(x, y, 0) < POINT_BITS ==> AlwaysSeparated(x, y, z, p.region[if b < p.region[0].binCount then 0 else 1].numBits))
  {
  }

  method CheckMasks(bins: seq<Simple.Bin>, tables: seq<BinTable>) returns (ok: bool)
    requires |bins| == |tables|
    ensures ok <==> forall b :: 0 <= b < |bins| ==> HasMasks(bins[b], tables[b])
  {
    for b := 0 to |bins|
      invariant forall c :: 0 <= c < b ==> HasMasks(bins[c], tables[c])
    {
      if !HasMasks(bins[b], tables[b]) {
        return false;
      }
    }
    ok := true;
  }

  /** The whole transfer between two parties with filled tables: when it completes, the receiver has the
      sender's payload for every element both of them hold. It completes exactly when every occupied
      bin's search ends with separating positions, and it only misses masks when some bin holds three
      points that the position search can confuse. */
  method Transfer<E(!new)>(g: Group, sender: Simple.SimpleHasher, receiver: CuckooHasher, senderOprf: seq<Point>,
                           receiverOprf: seq<Point>, payloads: seq<Point>, raw: seq<seq<nat>>,
                           ghost theirs: seq<E>, ghost mine: seq<E>, ghost hashes: E -> seq<nat>,
                           ghost hash: nat -> seq<nat>, ghost hash': nat -> seq<nat>)
    returns (r: TransferResult)
    requires Laws(g) && Tabled(sender.params) && receiver.params == sender.params
    requires |theirs| == |mine| == |payloads| == sender.params.n && forall j :: 0 <= j < |payloads| ==> g.valid(payloads[j])
    requires sender.Valid(hash', FirstItems(|theirs|)) && HashesOf(hash', theirs, hashes)
    requires receiver.Valid(hash) && HashesOf(hash, mine, hashes) && OnceEach(Indices(receiver.mBins), |mine|)
    requires Oprfs(g, theirs, mine, senderOprf, receiverOprf)
    requires |raw| == |sender.mBins|
    ensures r.Done? ==> |r.points| == |mine|
    ensures r.Done? ==> forall i, j :: 0 <= i < |mine| && 0 <= j < |theirs| && theirs[j] == mine[i] ==> r.points[i] == payloads[j]
    ensures r.Done? ==> forall i :: 0 <= i < |mine| ==> g.valid(r.points[i])
    ensures r.Done? ==> AllRead(g, sender.params, sender.mBins, senderOprf, raw, payloads, receiver.mBins, receiverOprf, r.points)
    ensures r.MasksMissing? ==> !SafeBins(sender.params, sender.mBins, senderOprf)
    ensures r.Done? <==> AllWork(sender.params, sender.mBins, senderOprf, raw)
    ensures r.StreamEnded? <==> !AllEnd(sender.params, sender.mBins, senderOprf, raw)
  {
    var p := sender.params;
    BinSizes(sender, hash', |theirs|);
    var tables := GetSenderKeys(p, sender.mBins, senderOprf, raw);
    if tables.None? {
      ghost var b :| 0 <= b < |sender.mBins| && !EndsAt(p, sender.mBins, senderOprf, raw, b);
      assert !WorksAt(p, sender.mBins, senderOprf, raw, b);
      return StreamEnded;
    }
    WorkMeansMasks(p, sender.mBins, senderOprf, raw, tables.value);
    var usable := CheckMasks(sender.mBins, tables.value);
    if !usable {
      ghost var b :| 0 <= b < |sender.mBins| && !HasMasks(sender.mBins[b], tables.value[b]);
      assert !SafeBins(p, sender.mBins, senderOprf) by {
        if SafeBins(p, sender.mBins, senderOprf) {
          SafeBinsHaveMasks(p, sender.mBins, senderOprf, tables.value, b);
        }
      }
      return MasksMissing;
    }
    var s := Sending(p, sender.mBins, tables.value, payloads);
    SenderReady(s, senderOprf);
    var messages := SendTable(g, s);
    ItemsInRange(receiver.mBins, |mine|);
    var keys := GetReceiverKeys(receiver.mBins, receiverOprf);
    var v := Receiving(p, receiver.mBins, keys.value);
    ReceiverReady(v);
    SentIsSized(g, s, v, 0, messages, 0);
    SentIsSized(g, s, v, 1, messages, BatchCount(p.region[0].binCount));
    var ok, received := RecvTable(g, v, messages, seq<Point>(p.n, _ => ZERO_POINT));
    forall i, j | 0 <= i < |mine| && 0 <= j < |theirs| && theirs[j] == mine[i]
      ensures received[i] == payloads[j]
    {
      var b := OneBinEach(receiver.mBins, |mine|, i);
      BinsAlign(p, receiver, sender, mine, theirs, hashes, hash, hash', b, j);
      ItemDelivered(g, s, v, senderOprf, messages, received, b, j);
    }
    forall i | 0 <= i < |mine|
      ensures g.valid(received[i])
    {
      var b := OneBinEach(receiver.mBins, |mine|, i);
      ItemValid(g, s, v, senderOprf, messages, received, b);
    }
    AllItemsRead(g, s, v, senderOprf, raw, receiverOprf, messages, received);
    r := Done(received);
  }

  lemma {:induction false} ItemsInRange(bins: seq<nat>, n: nat)
    requires OnceEach(Indices(bins), n)
    ensures forall b :: 0 <= b < |bins| && bins[b] != EMPTY ==> IdxOf(bins[b]) < n
  {
    forall b | 0 <= b < |bins| && bins[b] != EMPTY
      ensures IdxOf(bins[b]) < n
    {
      IndicesHas(bins, b);
      assert Indices(bins)[IdxOf(bins[b])] > 0;
    }
  }

  lemma {:induction false} BinSizes(simple: Simple.SimpleHasher, hash: nat -> seq<nat>, n: nat)
    requires simple.Valid(hash, FirstItems(n)) && n <= U64_MAX
    ensures forall b :: 0 <= b < |simple.mBins| ==> |simple.mBins[b].mIdx| <= U64_MAX
  {
    forall b | 0 <= b < |simple.mBins|
      ensures |simple.mBins[b].mIdx| <= U64_MAX
    {
      var idxs := simple.mBins[b].mIdx;
      assert Simple.Sound(simple.params, hash, FirstItems(n), b, simple.mBins[b]);
      forall x | x in idxs
        ensures x in Range(0, n)
      {
        var k :| 0 <= k < |idxs| && idxs[k] == x;
        assert Simple.Entry(simple.params, hash, FirstItems(n), b, x, simple.mBins[b].hIdx[k]);
      }
      Pigeonhole(idxs, Range(0, n));
    }
  }
}
