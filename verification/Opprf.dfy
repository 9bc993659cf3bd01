/**
 The table OPPRF of XZH26: for every bin the sender writes a row of bytes, first the bit positions
 that separate the bin's OPRF values, then one 32-byte slot per possible mask holding the sum of OPRF
 value and payload; the receiver computes the mask of its own OPRF value, takes that slot and subtracts.
 */
module Opprf {
  import opened NumberTheory
  import opened HashParameters
  import opened BitPositions
  import opened Groups
  import Simple = SimpleHashing

  type Row = seq<Byte>

  function RowLength(region: Region): nat {
    region.maxBinSize * 32 + region.numBits
  }

  function SlotAt(row: Row, numBits: nat, s: nat): Point
    requires numBits + 32 * s + 32 <= |row|
  {
    row[numBits + 32 * s..numBits + 32 * s + 32]
  }

  // Slot s is the 32 bytes that follow the positions and s slots.
  lemma SlotBytes(row: Row, numBits: nat, s: nat, j: nat)
    requires numBits + 32 * s + 32 <= |row| && j < 32
    ensures SlotAt(row, numBits, s)[j] == row[numBits + 32 * s + j]
  {
  }

  // A slot overwritten with the bytes of p.
  function WithSlot(row: Row, numBits: nat, s: nat, p: Point): (r: Row)
    requires numBits + 32 * s + 32 <= |row|
    ensures |r| == |row|
  {
    row[..numBits + 32 * s] + p + row[numBits + 32 * s + 32..]
  }

  /** Slots are disjoint: writing one changes no other and no position byte. */
  lemma {:induction false} SlotsDisjoint(row: Row, numBits: nat, s: nat, t: nat, p: Point)
    requires numBits + 32 * s + 32 <= |row| && numBits + 32 * t + 32 <= |row|
    ensures SlotAt(WithSlot(row, numBits, s, p), numBits, t) == if s == t then p else SlotAt(row, numBits, t)
    ensures WithSlot(row, numBits, s, p)[..numBits] == row[..numBits]
  {
    var r := WithSlot(row, numBits, s, p);
    if s < t {
      assert r[numBits + 32 * t..] == row[numBits + 32 * t..];
    } else if s > t {
      assert r[..numBits + 32 * s] == row[..numBits + 32 * s];
      assert SlotAt(r, numBits, t) == r[..numBits + 32 * s][numBits + 32 * t..numBits + 32 * t + 32];
    }
  }

  // The first i bytes of p in place, the other bytes as they were.
  ghost predicate Copied(was: Row, at: nat, p: Point, i: nat, row: Row)
    requires i <= 32 && at + 32 <= |was|
  {
    |row| == |was| && forall k :: 0 <= k < |was| ==> row[k] == if at <= k < at + i then p[k - at] else was[k]
  }

  method CopyPoint(row: array<Byte>, numBits: nat, s: nat, p: Point)
    requires numBits + 32 * s + 32 <= row.Length
    modifies row
    ensures row[..] == WithSlot(old(row[..]), numBits, s, p)
  {
    var at := numBits + 32 * s;
    ghost var was := row[..];
    for i := 0 to 32
      invariant Copied(was, at, p, i, row[..])
    {
      row[at + i] := p[i];
    }
    assert row[..] == WithSlot(was, numBits, s, p);
  }

  // What a row holds for a bin with these masks and encrypted payloads.
  ghost predicate Encodes(row: Row, region: Region, pos: seq<nat>, maps: seq<nat>, values: seq<Point>) {
    && |row| == RowLength(region) && |pos| == region.numBits && |maps| == |values|
    && row[..region.numBits] == pos
    && (forall i :: 0 <= i < |maps| ==> maps[i] < region.maxBinSize && SlotAt(row, region.numBits, maps[i]) == values[i])
    && (forall s :: 0 <= s < region.maxBinSize && s !in maps ==> SlotAt(row, region.numBits, s) == ZERO_POINT)
  }

  // The encrypted payloads of a bin.
  function Encrypted(g: Group, oprf: seq<Point>, idxs: seq<nat>, plaintexts: seq<Point>): (r: seq<Point>)
    requires |oprf| == |idxs| && forall i :: 0 <= i < |idxs| ==> idxs[i] < |plaintexts|
    ensures |r| == |idxs|
  {
    seq<Point>(|idxs|, i requires 0 <= i < |idxs| => g.add(oprf[i], plaintexts[idxs[i]]))
  }

  method WritePositions(row: array<Byte>, pos: seq<nat>)
    requires |pos| <= row.Length && Positions(pos)
    modifies row
    ensures row[..|pos|] == pos
  {
    for k := 0 to |pos|
      invariant row[..k] == pos[..k]
    {
      row[k] := pos[k];
    }
    assert pos[..|pos|] == pos;
  }

  method WriteEntries(row: array<Byte>, numBits: nat, max: nat, maps: seq<nat>, values: seq<Point>)
    requires row.Length == max * 32 + numBits && |maps| == |values| && NoRepeat(maps)
    requires forall i :: 0 <= i < |maps| ==> maps[i] < max
    modifies row
    ensures row[..numBits] == old(row[..numBits])
    ensures forall i :: 0 <= i < |maps| ==> SlotAt(row[..], numBits, maps[i]) == values[i]
  {
    for i := 0 to |maps|
      invariant row[..][..numBits] == old(row[..])[..numBits]
      invariant forall k :: 0 <= k < i ==> SlotAt(row[..], numBits, maps[k]) == values[k]
    {
      ghost var was := row[..];
      CopyPoint(row, numBits, maps[i], values[i]);
      forall k | 0 <= k <= i
        ensures SlotAt(row[..], numBits, maps[k]) == values[k]
      {
        SlotsDisjoint(was, numBits, maps[i], maps[k], values[i]);
      }
    }
  }

  method FillDummies(row: array<Byte>, numBits: nat, max: nat, maps: seq<nat>)
    requires row.Length == max * 32 + numBits && forall i :: 0 <= i < |maps| ==> maps[i] < max
    modifies row
    ensures row[..numBits] == old(row[..numBits])
    ensures forall i :: 0 <= i < |maps| ==> SlotAt(row[..], numBits, maps[i]) == SlotAt(old(row[..]), numBits, maps[i])
    ensures forall s :: 0 <= s < max && s !in maps ==> SlotAt(row[..], numBits, s) == ZERO_POINT
  {
    ghost var start := row[..];
    for s := 0 to max
      invariant row[..][..numBits] == start[..numBits]
      invariant forall i :: 0 <= i < |maps| ==> SlotAt(row[..], numBits, maps[i]) == SlotAt(start, numBits, maps[i])
      invariant forall t :: 0 <= t < s && t !in maps ==> SlotAt(row[..], numBits, t) == ZERO_POINT
    {
      if s !in maps {
        ghost var was := row[..];
        CopyPoint(row, numBits, s, ZERO_POINT);
        forall t | 0 <= t < max
          ensures SlotAt(row[..], numBits, t) == if s == t then ZERO_POINT else SlotAt(was, numBits, t)
        {
          SlotsDisjoint(was, numBits, s, t, ZERO_POINT);
        }
      }
    }
  }

  // ---------------------------------------------------------------- the sender

  // What the sender keeps per simple bin for one peer: mValOPRF and mBits.
  datatype BinTable = BinTable(oprf: seq<Point>, mPos: seq<nat>, mMaps: seq<nat>)

  // The OPRF values of a bin's items.
  function PointsOf(bin: Simple.Bin, oprfValues: seq<Point>): (r: seq<Point>)
    requires forall i :: 0 <= i < |bin.mIdx| ==> bin.mIdx[i] < |oprfValues|
    ensures |r| == |bin.mIdx|
  {
    seq<Point>(|bin.mIdx|, i requires 0 <= i < |bin.mIdx| => oprfValues[bin.mIdx[i]])
  }

  // Where the position search for a bin ends, if it does.
  ghost function BinPositions(region: Region, bin: Simple.Bin, oprfValues: seq<Point>, raw: seq<nat>): Option<seq<nat>> {
    if 0 < |bin.mIdx| <= U64_MAX && Simple.InRange(bin, |oprfValues|) && region.numBits > 0
    then Positioned(PointsOf(bin, oprfValues), region.numBits, raw) else None
  }

  // An occupied bin's items are known and its search ends.
  ghost predicate EndsAt(p: HashParams, bins: seq<Simple.Bin>, oprfValues: seq<Point>, raw: seq<seq<nat>>, b: nat)
    requires |p.region| == 2 && b < |bins| == |raw|
  {
    |bins[b].mIdx| > 0 ==> BinPositions(p.region[RegionOf(p, b)], bins[b], oprfValues, raw[b]).Some?
  }

  ghost predicate AllEnd(p: HashParams, bins: seq<Simple.Bin>, oprfValues: seq<Point>, raw: seq<seq<nat>>)
    requires |p.region| == 2 && |bins| == |raw|
  {
    forall b :: 0 <= b < |bins| ==> EndsAt(p, bins, oprfValues, raw, b)
  }

  /** A bin is searched with the OPRF values of exactly its items, and not at all when one is missing. */
  lemma {:induction false} BinPositionsAre(region: Region, bin: Simple.Bin, oprfValues: seq<Point>, raw: seq<nat>, points: seq<Point>)
    requires 0 < |bin.mIdx| == |points| <= U64_MAX && region.numBits > 0
    requires forall i :: 0 <= i < |points| && bin.mIdx[i] < |oprfValues| ==> points[i] == oprfValues[bin.mIdx[i]]
    ensures BinPositions(region, bin, oprfValues, raw) ==
      if exists i :: 0 <= i < |bin.mIdx| && bin.mIdx[i] >= |oprfValues| then None else Positioned(points, region.numBits, raw)
  {
    if Simple.InRange(bin, |oprfValues|) {
      assert points == PointsOf(bin, oprfValues);
    }
  }

  /** All searches end when every occupied bin's does. */
  lemma {:induction false} AllEndIff(p: HashParams, bins: seq<Simple.Bin>, oprfValues: seq<Point>, raw: seq<seq<nat>>)
    requires |p.region| == 2 && |bins| == |raw|
    ensures AllEnd(p, bins, oprfValues, raw) <==> forall b :: 0 <= b < |bins| && |bins[b].mIdx| > 0 ==>
      BinPositions(p.region[if b < p.region[0].binCount then 0 else 1], bins[b], oprfValues, raw[b]).Some?
  {
    if AllEnd(p, bins, oprfValues, raw) {
      forall b | 0 <= b < |bins| && |bins[b].mIdx| > 0
        ensures BinPositions(p.region[if b < p.region[0].binCount then 0 else 1], bins[b], oprfValues, raw[b]).Some?
      {
        assert EndsAt(p, bins, oprfValues, raw, b);
      }
    }
  }

  // The items' OPRF values and the outcome of the position search.
  ghost predicate Keyed(region: Region, bin: Simple.Bin, oprfValues: seq<Point>, table: BinTable) {
    && |table.oprf| == |bin.mIdx|
    && (forall i :: 0 <= i < |bin.mIdx| ==> bin.mIdx[i] < |oprfValues| && table.oprf[i] == oprfValues[bin.mIdx[i]])
    && Positions(table.mPos) && NoRepeat(table.mPos) && |table.mPos| == region.numBits
    && table.mMaps == (if Separates(table.oprf, table.mPos) then Masks(table.oprf, table.mPos) else [])
    && (if |table.oprf| <= 3 then Outcome(table.oprf, region.numBits, table.mPos) else Separates(table.oprf, table.mPos))
  }

  ghost predicate AllKeyed(p: HashParams, bins: seq<Simple.Bin>, oprfValues: seq<Point>, tables: seq<BinTable>)
    requires |p.region| == 2
  {
    && |tables| == |bins|
    && forall b :: 0 <= b < |bins| && |bins[b].mIdx| > 0 ==> Keyed(p.region[RegionOf(p, b)], bins[b], oprfValues, tables[b])
  }

  // One bin: fetch the OPRF values, search the positions.
  method KeyBin(region: Region, bin: Simple.Bin, oprfValues: seq<Point>, raw: seq<nat>) returns (r: Option<BinTable>)
    requires 2 <= region.numBits <= 8 && 1 <= |bin.mIdx| <= U64_MAX
    ensures r.Some? ==> Keyed(region, bin, oprfValues, r.value)
    ensures BinPositions(region, bin, oprfValues, raw) == if r.Some? then Some(r.value.mPos) else None
  {
    var oprf: seq<Point> := [];
    for i := 0 to |bin.mIdx|
      invariant |oprf| == i
      invariant forall k :: 0 <= k < i ==> bin.mIdx[k] < |oprfValues| && oprf[k] == oprfValues[bin.mIdx[k]]
    {
      if bin.mIdx[i] >= |oprfValues| {
        return None;
      }
      oprf := oprf + [oprfValues[bin.mIdx[i]]];
    }
    assert oprf == PointsOf(bin, oprfValues);
    var bits := new BitPosition(region.numBits);
    var done := bits.GetPos1(oprf, raw);
    r := if done then Some(BinTable(oprf, bits.mPos, bits.mMaps)) else None;
  }

  // Every occupied bin's positions are the ones its search ends with.
  ghost predicate AllPositioned(p: HashParams, bins: seq<Simple.Bin>, oprfValues: seq<Point>, raw: seq<seq<nat>>, tables: seq<BinTable>)
    requires |p.region| == 2 && |bins| == |raw| == |tables|
  {
    forall b :: 0 <= b < |bins| && |bins[b].mIdx| > 0 ==>
      BinPositions(p.region[RegionOf(p, b)], bins[b], oprfValues, raw[b]) == Some(tables[b].mPos)
  }

  // The table of one bin: nothing for an empty one.
  ghost predicate TableFor(p: HashParams, bins: seq<Simple.Bin>, oprfValues: seq<Point>, raw: seq<seq<nat>>, b: nat, table: BinTable)
    requires |p.region| == 2 && b < |bins| == |raw|
  {
    |bins[b].mIdx| > 0 ==>
      && Keyed(p.region[RegionOf(p, b)], bins[b], oprfValues, table)
      && BinPositions(p.region[RegionOf(p, b)], bins[b], oprfValues, raw[b]) == Some(table.mPos)
  }

  method BinKeys(p: HashParams, bins: seq<Simple.Bin>, oprfValues: seq<Point>, raw: seq<seq<nat>>, b: nat) returns (r: Option<BinTable>)
    requires |p.region| == 2 && 2 <= p.region[0].numBits <= 8 && 2 <= p.region[1].numBits <= 8
    requires b < |bins| == |raw| && |bins[b].mIdx| <= U64_MAX
    ensures r.Some? <==> EndsAt(p, bins, oprfValues, raw, b)
    ensures r.Some? ==> TableFor(p, bins, oprfValues, raw, b, r.value)
  {
    if |bins[b].mIdx| > 0 {
      r := KeyBin(p.region[RegionOf(p, b)], bins[b], oprfValues, raw[b]);
    } else {
      r := Some(BinTable([], [], []));
    }
  }

  /** getOPRFkeysSeperatedandTable of the sender. It goes through exactly when every occupied bin's items
      are in bounds, where the source throws otherwise, and its search ends within its random words. */
  method GetSenderKeys(p: HashParams, bins: seq<Simple.Bin>, oprfValues: seq<Point>, raw: seq<seq<nat>>)
    returns (r: Option<seq<BinTable>>)
    requires |p.region| == 2 && 2 <= p.region[0].numBits <= 8 && 2 <= p.region[1].numBits <= 8
    requires |raw| == |bins| && forall b :: 0 <= b < |bins| ==> |bins[b].mIdx| <= U64_MAX
    ensures r.Some? <==> AllEnd(p, bins, oprfValues, raw)
    ensures r.Some? ==> AllKeyed(p, bins, oprfValues, r.value) && AllPositioned(p, bins, oprfValues, raw, r.value)
  {
    var tables: seq<BinTable> := [];
    for b := 0 to |bins|
      invariant |tables| == b && forall c :: 0 <= c < b ==> EndsAt(p, bins, oprfValues, raw, c)
      invariant forall c :: 0 <= c < b ==> TableFor(p, bins, oprfValues, raw, c, tables[c])
    {
      var table := BinKeys(p, bins, oprfValues, raw, b);
      if table.None? {
        return None;
      }
      tables := tables + [table.value];
    }
    AllTables(p, bins, oprfValues, raw, tables);
    r := Some(tables);
  }

  lemma {:induction false} AllTables(p: HashParams, bins: seq<Simple.Bin>, oprfValues: seq<Point>, raw: seq<seq<nat>>, tables: seq<BinTable>)
    requires |p.region| == 2 && |bins| == |raw| == |tables|
    requires forall b :: 0 <= b < |bins| ==> TableFor(p, bins, oprfValues, raw, b, tables[b])
    ensures AllKeyed(p, bins, oprfValues, tables) && AllPositioned(p, bins, oprfValues, raw, tables)
  {
    forall b | 0 <= b < |bins| && |bins[b].mIdx| > 0
      ensures Keyed(p.region[RegionOf(p, b)], bins[b], oprfValues, tables[b])
      ensures BinPositions(p.region[RegionOf(p, b)], bins[b], oprfValues, raw[b]) == Some(tables[b].mPos)
    {
      assert TableFor(p, bins, oprfValues, raw, b, tables[b]);
    }
  }

  // A bin whose masks are usable and fit the row.
  ghost predicate Sendable(region: Region, bin: Simple.Bin, table: BinTable, plaintexts: seq<Point>) {
    && |table.oprf| == |bin.mIdx| && (forall i :: 0 <= i < |bin.mIdx| ==> bin.mIdx[i] < |plaintexts|)
    && Positions(table.mPos) && |table.mPos| == region.numBits
    && Separates(table.oprf, table.mPos) && table.mMaps == Masks(table.oprf, table.mPos)
    && region.maxBinSize == Pow(2, region.numBits)
  }

  // The row of a nonempty bin.
  ghost predicate RowOf(g: Group, region: Region, bin: Simple.Bin, table: BinTable, plaintexts: seq<Point>, row: Row) {
    && Sendable(region, bin, table, plaintexts)
    && Encodes(row, region, table.mPos, table.mMaps, Encrypted(g, table.oprf, bin.mIdx, plaintexts))
  }

  method EncodeRow(g: Group, region: Region, bin: Simple.Bin, table: BinTable, plaintexts: seq<Point>) returns (row: Row)
    requires Sendable(region, bin, table, plaintexts)
    ensures RowOf(g, region, bin, table, plaintexts, row)
  {
    var numBits, max := region.numBits, region.maxBinSize;
    var buffer := new Byte[max * 32 + numBits];
    var values := Encrypted(g, table.oprf, bin.mIdx, plaintexts);
    MasksInRange(table.oprf, table.mPos);
    WritePositions(buffer, table.mPos);
    WriteEntries(buffer, numBits, max, table.mMaps, values);
    FillDummies(buffer, numBits, max, table.mMaps);
    row := buffer[..];
  }

  lemma {:induction false} MasksInRange(oprf: seq<Point>, pos: seq<nat>)
    requires Positions(pos)
    ensures forall i :: 0 <= i < |oprf| ==> Masks(oprf, pos)[i] < Pow(2, |pos|)
  {
    forall i | 0 <= i < |oprf|
      ensures Masks(oprf, pos)[i] < Pow(2, |pos|)
    {
      MaskBits(oprf[i], pos);
    }
  }

  // The row of an empty bin: random different positions below 128 and only empty slots.
  method DummyRow(region: Region) returns (row: Row)
    requires region.numBits <= 128
    ensures |row| == RowLength(region) && Encodes(row, region, row[..region.numBits], [], [])
    ensures NoRepeat(row[..region.numBits]) && forall k :: 0 <= k < region.numBits ==> row[k] < 128
  {
    var numBits, max := region.numBits, region.maxBinSize;
    var buffer := new Byte[max * 32 + numBits];
    SomeDistinct(numBits);
    var dummyPos: seq<nat> :| |dummyPos| == numBits && NoRepeat(dummyPos) && forall k :: 0 <= k < numBits ==> dummyPos[k] < 128;
    WritePositions(buffer, dummyPos);
    FillDummies(buffer, numBits, max, []);
    row := buffer[..];
  }

  lemma {:induction false} SomeDistinct(n: nat)
    requires n <= 128
    ensures exists s: seq<nat> :: |s| == n && NoRepeat(s) && forall k :: 0 <= k < n ==> s[k] < 128
  {
    var s := seq(n, i requires 0 <= i < n => i);
    assert |s| == n && NoRepeat(s);
  }

  // ---------------------------------------------------------------- messages

  // Everything sendSSTableBased reads.
  datatype Sending = Sending(p: HashParams, bins: seq<Simple.Bin>, tables: seq<BinTable>, plaintexts: seq<Point>) {
    ghost predicate Ready() {
      && p.Usable() && |bins| == |tables| == p.Bins()
      && p.region[0].numBits <= 128 && p.region[1].numBits <= 128
      && forall b :: 0 <= b < |bins| && |bins[b].mIdx| > 0 ==>
           Sendable(p.region[RegionOf(p, b)], bins[b], tables[b], plaintexts)
    }

    // The row for bin b of region r: the bin's encoding, or only empty slots if it has no items.
    ghost predicate RowFor(g: Group, r: nat, b: nat, row: Row)
      requires r < |p.region| && b < |bins| && b < |tables|
    {
      && |row| == RowLength(p.region[r])
      && (if |bins[b].mIdx| > 0 then RowOf(g, p.region[r], bins[b], tables[b], plaintexts, row)
          else Encodes(row, p.region[r], row[..p.region[r].numBits], [], []))
    }

    // Messages from number `from` on carry the first `upto` bins of region r, sixteen bins each.
    ghost predicate Carried(g: Group, r: nat, messages: seq<seq<Row>>, from: nat, upto: nat)
      requires r < 2 && p.Usable() && |bins| == |tables| == p.Bins() && upto <= p.region[r].binCount
    {
      forall k :: 0 <= k < upto ==>
        && from + k / 16 < |messages| && |messages[from + k / 16]| == BatchSize(p.region[r].binCount, k / 16)
        && k % 16 < |messages[from + k / 16]| && RowFor(g, r, p.Base(r) + k, messages[from + k / 16][k % 16])
    }
  }

  /** What is sent for a bin, slot by slot: the positions, then at the mask of each item its OPRF value plus
      its payload and everywhere else the zero point; an empty bin has nothing but such slots. */
  lemma {:induction false} RowForIff(g: Group, s: Sending, r: nat, b: nat, row: Row)
    requires s.Ready() && r < 2 && b < |s.bins| && r == (if b < s.p.region[0].binCount then 0 else 1)
    ensures var items, table, numBits, max := s.bins[b].mIdx, s.tables[b], s.p.region[r].numBits, s.p.region[r].maxBinSize;
      (|items| > 0 ==> |table.oprf| == |items| && Positions(table.mPos) && forall i :: 0 <= i < |items| ==> items[i] < |s.plaintexts|)
      && (s.RowFor(g, r, b, row) <==>
           (|row| == numBits + 32 * max
            && (|items| > 0 ==> row[..numBits] == table.mPos)
            && (forall i :: 0 <= i < |items| ==>
                 (var m := Mask(table.oprf[i], table.mPos);
                  m < max && SlotAt(row, numBits, m) == g.add(table.oprf[i], s.plaintexts[items[i]])))
            && (forall t :: 0 <= t < max ==>
                 ((forall i :: 0 <= i < |items| ==> Mask(table.oprf[i], table.mPos) != t) ==> SlotAt(row, numBits, t) == ZERO_POINT))))
  {
    var region, bin, table := s.p.region[r], s.bins[b], s.tables[b];
    if |bin.mIdx| > 0 {
      assert Sendable(region, bin, table, s.plaintexts);
      var values := Encrypted(g, table.oprf, bin.mIdx, s.plaintexts);
      assert forall i :: 0 <= i < |bin.mIdx| ==> table.mMaps[i] == Mask(table.oprf[i], table.mPos);
      assert forall i :: 0 <= i < |bin.mIdx| ==> values[i] == g.add(table.oprf[i], s.plaintexts[bin.mIdx[i]]);
      assert forall t :: t in table.mMaps <==> !forall i :: 0 <= i < |bin.mIdx| ==> Mask(table.oprf[i], table.mPos) != t;
    }
  }

  // The size of batch number j when count bins are sent sixteen at a time.
  function BatchSize(count: nat, j: nat): nat {
    if count >= 16 * j + 16 then 16 else if count > 16 * j then count - 16 * j else 0
  }

  function BatchCount(count: nat): nat {
    (count + 15) / 16
  }

  // The rows of one message.
  method SendBatch(g: Group, s: Sending, r: nat, start: nat, step: nat) returns (rows: seq<Row>)
    requires r < 2 && s.Ready() && s.p.Base(r) <= start && start + step <= s.p.Base(r) + s.p.region[r].binCount
    ensures |rows| == step && forall i :: 0 <= i < step ==> s.RowFor(g, r, start + i, rows[i])
  {
    rows := [];
    for i := 0 to step
      invariant |rows| == i && forall k :: 0 <= k < i ==> s.RowFor(g, r, start + k, rows[k])
    {
      var b := start + i;
      var row;
      if |s.bins[b].mIdx| > 0 {
        assert RegionOf(s.p, b) == r;
        row := EncodeRow(g, s.p.region[r], s.bins[b], s.tables[b], s.plaintexts);
      } else {
        row := DummyRow(s.p.region[r]);
      }
      rows := rows + [row];
    }
  }

  lemma {:induction false} CarriedGrows(g: Group, s: Sending, r: nat, messages: seq<seq<Row>>, rows: seq<Row>, done: nat)
    requires r < 2 && s.Ready() && done == 16 * |messages| && done + |rows| <= s.p.region[r].binCount
    requires s.Carried(g, r, messages, 0, done) && |rows| == BatchSize(s.p.region[r].binCount, |messages|)
    requires forall i :: 0 <= i < |rows| ==> s.RowFor(g, r, s.p.Base(r) + done + i, rows[i])
    ensures s.Carried(g, r, messages + [rows], 0, done + |rows|)
  {
    var all, n := messages + [rows], |messages|;
    forall k | 0 <= k < done + |rows|
      ensures k / 16 < |all| && |all[k / 16]| == BatchSize(s.p.region[r].binCount, k / 16)
      ensures k % 16 < |all[k / 16]| && s.RowFor(g, r, s.p.Base(r) + k, all[k / 16][k % 16])
    {
      if k < done {
        assert k / 16 < n && all[k / 16] == messages[k / 16];
      } else {
        var i := k - done;
        assert k / 16 == n && k % 16 == i;
        assert s.RowFor(g, r, s.p.Base(r) + done + i, rows[i]);
      }
    }
  }

  // The messages of one region.
  method SendRegion(g: Group, s: Sending, r: nat) returns (messages: seq<seq<Row>>)
    requires r < 2 && s.Ready()
    ensures |messages| == BatchCount(s.p.region[r].binCount)
    ensures s.Carried(g, r, messages, 0, s.p.region[r].binCount)
  {
    var start, count := s.p.Base(r), s.p.region[r].binCount;
    messages := [];
    var done := 0;
    while done < count
      invariant done <= count && (done == 16 * |messages| || done == count) && |messages| == BatchCount(done)
      invariant s.Carried(g, r, messages, 0, done)
    {
      var step := if count - done < 16 then count - done else 16;
      var rows := SendBatch(g, s, r, start + done, step);
      CarriedGrows(g, s, r, messages, rows, done);
      messages := messages + [rows];
      done := done + step;
    }
  }

  /** Where a bin's row is: bin k of a region is row k % 16 of the region's message k / 16, which has
      sixteen rows or what is left. */
  lemma {:induction false} CarriedAt(g: Group, s: Sending, r: nat, messages: seq<seq<Row>>, from: nat, k: nat, q: nat, i: nat)
    requires r < 2 && s.Ready() && k < s.p.region[r].binCount && q == k / 16 && i == k % 16
    requires s.Carried(g, r, messages, from, s.p.region[r].binCount)
    ensures from + q < |messages| && i < |messages[from + q]|
    ensures |messages[from + q]| == if s.p.region[r].binCount - q * 16 < 16 then s.p.region[r].binCount - q * 16 else 16
    ensures s.RowFor(g, r, if r == 0 then k else s.p.region[0].binCount + k, messages[from + q][i])
  {
    BatchRest(s.p.region[r].binCount, k, q);
    assert from + k / 16 < |messages|;
  }

  // A message that starts below count has sixteen rows or what is left.
  lemma BatchRest(count: nat, k: nat, q: nat)
    requires k < count && q == k / 16
    ensures BatchSize(count, q) == if count - q * 16 < 16 then count - q * 16 else 16
  {
  }

  /** sendSSTableBased: the main region's messages, then the stash region's. */
  method SendTable(g: Group, s: Sending) returns (messages: seq<seq<Row>>)
    requires s.Ready()
    ensures |messages| == (s.p.region[0].binCount + 15) / 16 + (s.p.region[1].binCount + 15) / 16
    ensures s.Carried(g, 0, messages, 0, s.p.region[0].binCount)
    ensures s.Carried(g, 1, messages, BatchCount(s.p.region[0].binCount), s.p.region[1].binCount)
  {
    var main := SendRegion(g, s, 0);
    var stash := SendRegion(g, s, 1);
    messages := main + stash;
  }
}
