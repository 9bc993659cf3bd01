/**
 The parameter table shared by the cuckoo and the simple hasher, and where a hash points.
 */
module HashParameters {
  import opened NumberTheory

  // One region of bins: the main one (index 0) or the stash (index 1).
  datatype Region = Region(binCount: nat, numHashes: nat, maxBinSize: nat, numBits: nat)

  datatype HashParams = HashParams(n: nat, region: seq<Region>) {
    // Both regions have bins, and every hash of the stash is also one of the main region.
    ghost predicate Usable() {
      && |region| == 2 && n <= 0x100_0000
      && region[0].binCount > 0 && region[1].binCount > 0
      && 0 < region[1].numHashes <= region[0].numHashes < 255
    }

    function Base(r: nat): nat
      requires |region| == 2
    {
      if r == 0 then 0 else region[0].binCount
    }

    function Bins(): nat
      requires |region| == 2
    {
      region[0].binCount + region[1].binCount
    }

    // The bin of region r a hash value points to.
    function Address(r: nat, h: nat): (b: nat)
      requires r < 2 && |region| == 2 && region[r].binCount > 0
      ensures Base(r) <= b < Base(r) + region[r].binCount <= Bins()
    {
      h % region[r].binCount + Base(r)
    }
  }

  // A hash points into its region's bins; the stash region comes after the main one.
  lemma AddressIs(p: HashParams, h: nat)
    requires |p.region| == 2 && p.region[0].binCount > 0 && p.region[1].binCount > 0
    ensures p.Address(0, h) == h % p.region[0].binCount
    ensures p.Address(1, h) == h % p.region[1].binCount + p.region[0].binCount
  {
  }

  // The region bin b belongs to.
  function RegionOf(p: HashParams, b: nat): (r: nat)
    requires |p.region| == 2
    ensures r < 2
  {
    if b < p.region[0].binCount then 0 else 1
  }

  // The smallest power of two, at least p, that is not below k.
  function RoundUp(k: nat, p: nat): (r: nat)
    requires p > 0
    decreases k - p
  {
    if p >= k then p else RoundUp(k, 2 * p)
  }

  // One row of the table: scaler and bin size of the main region, scaler and bin size of the stash.
  function Row(n: nat, scaler: real, size: nat, stashScaler: real, stashSize: nat): HashParams
    requires scaler >= 0.0 && stashScaler >= 0.0
  {
    HashParams(n, [Region((scaler * n as real).Floor, 3, RoundUp(size, 1), 5),
                   Region((stashScaler * n as real).Floor, 2, RoundUp(stashSize, 1), 6)])
  }

  // init: the row for a set of n items; above 2^24 the source throws.
  function Parameters(n: nat): Option<HashParams> {
    if n <= 0x80 then Some(Row(n, 1.5, 27, 0.17, 64))
    else if n <= 0x100 then Some(Row(n, 1.17, 27, 0.15, 63))
    else if n <= 0x1000 then Some(Row(n, 1.17, 27, 0.15, 63))
    else if n <= 0x4000 then Some(Row(n, 1.14, 28, 0.16, 63))
    else if n <= 0x1_0000 then Some(Row(n, 1.13, 29, 0.16, 63))
    else if n <= 0x10_0000 then Some(Row(n, 1.12, 30, 0.17, 63))
    else if n <= 0x100_0000 then Some(Row(n, 1.11, 31, 0.17, 63))
    else None
  }

  lemma {:induction false} RoundUpSizes(k: nat)
    requires 16 < k <= 64
    ensures RoundUp(k, 1) == if k <= 32 then 32 else 64
  {
    assert RoundUp(k, 1) == RoundUp(k, 2) == RoundUp(k, 4) == RoundUp(k, 8) == RoundUp(k, 16) == RoundUp(k, 32);
    assert RoundUp(k, 32) == if k <= 32 then 32 else RoundUp(k, 64);
  }

  /** For every size the table accepts, a bin has exactly as many table slots as there are masks of
      its number of bits; and both regions have a bin exactly from six items on. */
  lemma {:induction false} TableFits(n: nat)
    requires Parameters(n).Some?
    ensures var p := Parameters(n).value;
      && |p.region| == 2 && p.n == n
      && p.region[0].maxBinSize == Pow(2, p.region[0].numBits)
      && p.region[1].maxBinSize == Pow(2, p.region[1].numBits)
      && (p.Usable() <==> n >= 6)
  {
    RoundUpSizes(27);
    RoundUpSizes(28);
    RoundUpSizes(29);
    RoundUpSizes(30);
    RoundUpSizes(31);
    RoundUpSizes(63);
    RoundUpSizes(64);
    assert Pow(2, 5) == 2 * Pow(2, 4) == 4 * Pow(2, 3) == 8 * Pow(2, 2) == 16 * Pow(2, 1) == 32 * Pow(2, 0) == 32;
    assert Pow(2, 6) == 2 * Pow(2, 5) == 64;
    var x := n as real;
    if n >= 6 {
      assert 0.15 * x >= 0.9;
    }
  }

  // The floor of a hundredth's multiple, in integers.
  lemma {:induction false} FloorPercent(percent: nat, scaler: real, n: nat)
    requires scaler * 100.0 == percent as real
    ensures (scaler * n as real).Floor == percent * n / 100
  {
    var x := scaler * n as real;
    HundredTimes(scaler, percent as real, n as real);
    assert 100.0 * x == (percent * n) as real;
    var q := percent * n / 100;
    assert 100 * q <= percent * n < 100 * q + 100;
    assert (100 * q) as real <= 100.0 * x < (100 * q + 100) as real;
  }

  lemma HundredTimes(a: real, c: real, x: real)
    requires a * 100.0 == c
    ensures 100.0 * (a * x) == c * x
  {
  }

  // Main region and stash region in bins per hundred items.
  lemma {:induction false} RowSizes(n: nat, scaler: real, size: nat, stashScaler: real, stashSize: nat, percent: nat, stashPercent: nat)
    requires scaler * 100.0 == percent as real && stashScaler * 100.0 == stashPercent as real
    requires 16 < size <= 32 < stashSize <= 64
    ensures Row(n, scaler, size, stashScaler, stashSize).region ==
      [Region(percent * n / 100, 3, 32, 5), Region(stashPercent * n / 100, 2, 64, 6)]
  {
    FloorPercent(percent, scaler, n);
    FloorPercent(stashPercent, stashScaler, n);
    RoundUpSizes(size);
    RoundUpSizes(stashSize);
  }

  /** The two regions for every size, in whole bins: how many per hundred items, three hashes and 32 slots in
      the main region, two hashes and 64 slots in the stash; nothing above 2^24 items. */
  lemma {:induction false} RegionSizes(n: nat)
    ensures Parameters(n).Some? <==> n <= 0x100_0000
    ensures Parameters(n).Some? ==>
      var main := if n <= 128 then 150 else if n <= 4096 then 117 else if n <= 16384 then 114
                  else if n <= 65536 then 113 else if n <= 1048576 then 112 else 111;
      var stash := if n <= 128 then 17 else if n <= 4096 then 15 else if n <= 65536 then 16 else 17;
      Parameters(n).value.region == [Region(main * n / 100, 3, 32, 5), Region(stash * n / 100, 2, 64, 6)]
  {
    RowSizes(n, 1.5, 27, 0.17, 64, 150, 17);
    RowSizes(n, 1.17, 27, 0.15, 63, 117, 15);
    RowSizes(n, 1.14, 28, 0.16, 63, 114, 16);
    RowSizes(n, 1.13, 29, 0.16, 63, 113, 16);
    RowSizes(n, 1.12, 30, 0.17, 63, 112, 17);
    RowSizes(n, 1.11, 31, 0.17, 63, 111, 17);
  }
}
