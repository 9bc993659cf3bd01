/**
 BEH21 threshold PSI: members send encrypted Bloom filters; for every pair of leader element and
 member the leader adds up the element's filter bits and compares the sum with the number of
 hashes; the answers are added up and compared with threshold - 1. Both comparisons run round the
 ring of members.
 */
module Beh21 {
  import opened NumberTheory
  import opened Paillier
  import opened FusionCorrectness
  import opened BloomFilters
  import opened SecureComparison
  import opened Selection

  lemma {:induction false} DrawExists(n: nat)
    requires n > 2
    ensures CoprimeDraw(n - 1, n)
  {
    assert (n - 1) * (n - 1) == 1 + (n - 2) * n;
    CongIntro((n - 1) * (n - 1), 1, n, n - 2);
    UnitIsCoprime(n - 1, n);
  }

  // Encryption with any randomness randCoprime may return.
  method EncryptFresh(m: int, pk: PubKey) returns (c: nat)
    requires PublicKeyShape(pk) && PlainRange(m, pk.n)
    ensures Encrypts(c, m, pk.n)
  {
    DrawExists(pk.n);
    var r: nat :| r < pk.n && CoprimeDraw(r, pk.n);
    EncCorrect(m, pk, r);
    c := Enc(m, pk, r).value;
  }

  // Precomputed encryptions of 0.
  method EncryptZeros(count: nat, pk: PubKey) returns (zeros: seq<nat>)
    requires PublicKeyShape(pk)
    ensures |zeros| == count && AllZeros(zeros, pk.n)
  {
    zeros := [];
    for i := 0 to count
      invariant |zeros| == i && AllZeros(zeros, pk.n)
    {
      var z := EncryptFresh(0, pk);
      zeros := zeros + [z];
    }
  }

  ghost predicate AllZeros(zeros: seq<nat>, n: nat) {
    forall i :: 0 <= i < |zeros| ==> Encrypts(zeros[i], 0, n)
  }

  // Every member has at least `need` encryptions of 0.
  ghost predicate Stocked(zeros: seq<seq<nat>>, need: nat, n: nat) {
    forall i :: 0 <= i < |zeros| ==> AllZeros(zeros[i], n) && need <= |zeros[i]|
  }

  // ---------------------------------------------------------------- one comparison

  // Two candidate answers and the encrypted value that decides between them.
  datatype Scp = Scp(a1: nat, a2: nat, c: nat)

  ghost predicate ScpState(s: Scp, d: int, lead: Draw, hops: seq<Draw>, k: nat, n: nat)
    requires k <= |hops|
  {
    && Encrypts(s.a1, if Swapped(hops, k) then 0 else 1, n)
    && Encrypts(s.a2, if Swapped(hops, k) then 1 else 0, n)
    && Encrypts(s.c, Compared(d, lead, hops, k), n)
  }

  // The leader compares `top` with the encrypted m: the difference scaled by r, less r'.
  method StartComparison(encC: nat, top: nat, draw: Draw, pk: PubKey, ghost m: int, ghost hops: seq<Draw>) returns (s: Scp)
    requires PublicKeyShape(pk) && pk.n > RANDOM_BOUND && top < pk.n && draw.Valid() && Encrypts(encC, m, pk.n)
    ensures ScpState(s, top - m, draw, hops, 0, pk.n)
    ensures Encrypts(s.a1, 1, pk.n) && Encrypts(s.a2, 0, pk.n) && Encrypts(s.c, (top - m) * draw.r - draw.rPrime, pk.n)
  {
    var posTop := EncryptFresh(top, pk);
    SubCorrect(posTop, top, encC, m, pk);
    var difference := Sub(posTop, encC, pk).value;
    MulCorrect(difference, top - m, draw.r, pk);
    var c := Mul(difference, draw.r, pk).value;
    var offset := EncryptFresh(0 - draw.rPrime, pk);
    AddCorrect(c, (top - m) * draw.r, offset, 0 - draw.rPrime, pk);
    c := Add(c, offset, pk).value;
    var a1 := EncryptFresh(1, pk);
    var a2 := EncryptFresh(0, pk);
    s := Scp(a1, a2, c);
  }

  // Both candidates, maybe swapped, re-randomized with their zeros.
  ghost predicate HopDone(s: Scp, s': Scp, zero1: nat, zero2: nat, draw: Draw, pk: PubKey)
    requires pk.n2 > 0
  {
    && s'.a1 == ((if draw.flip then s.a2 else s.a1) * zero1) % pk.n2
    && s'.a2 == ((if draw.flip then s.a1 else s.a2) * zero2) % pk.n2
  }

  // One member: maybe swap, re-randomize both candidates, rescale and offset with the swap's sign.
  method Hop(s: Scp, zero1: nat, zero2: nat, draw: Draw, pk: PubKey,
             ghost d: int, ghost lead: Draw, ghost hops: seq<Draw>, ghost k: nat) returns (s': Scp)
    requires PublicKeyShape(pk) && pk.n > RANDOM_BOUND && draw.Valid()
    requires k < |hops| && hops[k] == draw && ScpState(s, d, lead, hops, k, pk.n)
    requires Encrypts(zero1, 0, pk.n) && Encrypts(zero2, 0, pk.n)
    ensures ScpState(s', d, lead, hops, k + 1, pk.n)
    ensures HopDone(s, s', zero1, zero2, draw, pk)
    ensures s'.a1 == ((if draw.flip then s.a2 else s.a1) * zero1) % pk.n2 && s'.a2 == ((if draw.flip then s.a1 else s.a2) * zero2) % pk.n2
    ensures var v := Compared(d, lead, hops, k) * draw.r + draw.rPrime; Encrypts(s'.c, if draw.flip then -v else v, pk.n)
  {
    var a1, a2 := s.a1, s.a2;
    if draw.flip {
      a1, a2 := a2, a1;
    }
    ghost var m1 := if Swapped(hops, k + 1) then 0 else 1;
    AddCorrect(a1, m1, zero1, 0, pk);
    AddCorrect(a2, 1 - m1, zero2, 0, pk);
    a1 := Add(a1, zero1, pk).value;
    a2 := Add(a2, zero2, pk).value;
    var sign := draw.SignOf();
    ghost var v := Compared(d, lead, hops, k);
    ComparedStep(d, lead, hops, k);
    MulCorrect(s.c, v, sign * draw.r, pk);
    var c := Mul(s.c, sign * draw.r, pk).value;
    var offset := EncryptFresh(sign * draw.rPrime, pk);
    AddCorrect(c, v * (sign * draw.r), offset, sign * draw.rPrime, pk);
    c := Add(c, offset, pk).value;
    s' := Scp(a1, a2, c);
  }

  // ---------------------------------------------------------------- a round of comparisons

  // The draws of a round: the leader's per item, and each member's per item.
  datatype RoundDraws = RoundDraws(leads: seq<Draw>, members: seq<seq<Draw>>) {
    predicate Shaped(items: nat, hops: nat) {
      && |leads| == items && |members| == hops && (forall i :: 0 <= i < hops ==> |members[i]| == items)
      && ValidDraws(leads) && (forall i :: 0 <= i < hops ==> ValidDraws(members[i]))
    }

    // The hops of one item, in ring order.
    function HopsOf(p: nat): (r: seq<Draw>)
      requires forall i :: 0 <= i < |members| ==> p < |members[i]|
      ensures |r| == |members| && forall i :: 0 <= i < |members| ==> r[i] == members[i][p]
    {
      seq(|members|, i requires 0 <= i < |members| => members[i][p])
    }

    predicate AllSafe(items: nat, hops: nat)
      requires Shaped(items, hops)
    {
      forall p :: 0 <= p < items ==> Safe(leads[p], HopsOf(p))
    }
  }

  // Item p compares `top` with ms[p]; k members have processed it.
  ghost predicate RoundState(scps: seq<Scp>, top: nat, ms: seq<int>, draws: RoundDraws, items: nat, hops: nat, k: nat, n: nat)
    requires draws.Shaped(items, hops) && |ms| == items && k <= hops
  {
    |scps| == items && forall p :: 0 <= p < items ==>
      ScpState(scps[p], top - ms[p], draws.leads[p], draws.HopsOf(p), k, n)
  }

  method StartRound(encs: seq<nat>, top: nat, draws: RoundDraws, hops: nat, pk: PubKey, ghost ms: seq<int>) returns (scps: seq<Scp>)
    requires PublicKeyShape(pk) && pk.n > RANDOM_BOUND && top < pk.n && draws.Shaped(|encs|, hops)
    requires |ms| == |encs| && forall p :: 0 <= p < |encs| ==> Encrypts(encs[p], ms[p], pk.n)
    ensures RoundState(scps, top, ms, draws, |encs|, hops, 0, pk.n)
  {
    scps := [];
    for p := 0 to |encs|
      invariant |scps| == p
      invariant forall q :: 0 <= q < p ==> ScpState(scps[q], top - ms[q], draws.leads[q], draws.HopsOf(q), 0, pk.n)
    {
      var s := StartComparison(encs[p], top, draws.leads[p], pk, ms[p], draws.HopsOf(p));
      scps := scps + [s];
    }
  }

  /** One member's pipeline: it consumes exactly two zeros per item, from zeroIdx on. */
  method MemberRound(scps: seq<Scp>, zeros: seq<nat>, zeroIdx: nat, draws: RoundDraws, id: nat, pk: PubKey,
                     ghost top: nat, ghost ms: seq<int>, ghost hops: nat)
    returns (out: seq<Scp>, zeroIdx': nat)
    requires PublicKeyShape(pk) && pk.n > RANDOM_BOUND && draws.Shaped(|scps|, hops) && id < hops
    requires |ms| == |scps| && RoundState(scps, top, ms, draws, |scps|, hops, id, pk.n)
    requires AllZeros(zeros, pk.n) && zeroIdx + 2 * |scps| <= |zeros|
    ensures |out| == |scps| && RoundState(out, top, ms, draws, |scps|, hops, id + 1, pk.n)
    ensures zeroIdx' == zeroIdx + 2 * |scps|
    ensures forall p :: 0 <= p < |scps| ==>
      out[p].a1 == ((if draws.members[id][p].flip then scps[p].a2 else scps[p].a1) * zeros[zeroIdx + 2 * p]) % pk.n2
    ensures forall p :: 0 <= p < |scps| ==>
      out[p].a2 == ((if draws.members[id][p].flip then scps[p].a1 else scps[p].a2) * zeros[zeroIdx + 2 * p + 1]) % pk.n2
  {
    out := [];
    zeroIdx' := zeroIdx;
    for p := 0 to |scps|
      invariant |out| == p && zeroIdx' == zeroIdx + 2 * p
      invariant forall q :: 0 <= q < p ==> ScpState(out[q], top - ms[q], draws.leads[q], draws.HopsOf(q), id + 1, pk.n)
      invariant forall q :: 0 <= q < p ==>
        HopDone(scps[q], out[q], zeros[zeroIdx + 2 * q], zeros[zeroIdx + 2 * q + 1], draws.members[id][q], pk)
    {
      var s := Hop(scps[p], zeros[zeroIdx'], zeros[zeroIdx' + 1], draws.members[id][p], pk,
                   top - ms[p], draws.leads[p], draws.HopsOf(p), id);
      zeroIdx' := zeroIdx' + 2;
      out := out + [s];
    }
  }

  // Values this small do not wrap around N/2 in a round with `hops` hops.
  predicate Fits(bound: nat, hops: nat, n: nat) {
    2 * Pow(127, hops + 1) * (bound + 1) < n
  }

  lemma {:induction false} FitsRange(bound: nat, hops: nat, n: nat)
    requires Fits(bound, hops, n)
    ensures n > RANDOM_BOUND && bound < n
  {
    PowPositive(127, hops);
    var p := Pow(127, hops);
    assert Pow(127, hops + 1) == 127 * p;
    assert 127 * p >= 127;
    MulMono(bound + 1, 127, 127 * p);
    assert 2 * Pow(127, hops + 1) * (bound + 1) == 2 * ((bound + 1) * (127 * p));
  }

  // The answer of a comparison.
  function Answer(top: nat, m: int): int {
    if top - m <= 0 then 1 else 0
  }

  lemma {:induction false} NoWrap(v: int, p: nat, b: nat, n: nat)
    requires Abs(v) + 1 <= p * (b + 1) && 2 * p * (b + 1) < n
    ensures -(n as int) < 2 * v < n
  {
    Assoc(2, p, b + 1);
  }

  // Decryption returns the compared value itself, not a residue of it.
  lemma {:induction false} ComparedExact(d: int, lead: Draw, hops: seq<Draw>, bound: nat, n: nat)
    requires lead.Valid() && ValidDraws(hops) && -(bound as int) <= d <= bound
    requires Fits(bound, |hops|, n) && n % 2 == 1
    ensures n > 0 && Signed(Compared(d, lead, hops, |hops|) % n, n) == Compared(d, lead, hops, |hops|)
  {
    var v := Compared(d, lead, hops, |hops|);
    Magnitude(d, lead, hops, |hops|, bound);
    PowPositive(127, |hops| + 1);
    FitsRange(bound, |hops|, n);
    NoWrap(v, Pow(127, |hops| + 1), bound, n);
    SignedExact(v, n);
  }

  /** The answer of a comparison for any draws: the candidate selected by the sign of what decryption returns. */
  function Verdict(d: int, lead: Draw, hops: seq<Draw>, n: nat): (bit: int)
    requires n > 0
    ensures bit == 0 || bit == 1
  {
    var first := if Swapped(hops, |hops|) then 0 else 1;
    if Signed(Compared(d, lead, hops, |hops|) % n, n) <= 0 then first else 1 - first
  }

  // Where nothing wraps the answer is the one of the comparison in the clear.
  lemma {:induction false} VerdictExact(d: int, lead: Draw, hops: seq<Draw>, bound: nat, n: nat)
    requires lead.Valid() && ValidDraws(hops) && -(bound as int) <= d <= bound && Fits(bound, |hops|, n) && n % 2 == 1
    ensures n > 0 && Verdict(d, lead, hops, n) == Selected(d, lead, hops)
  {
    ComparedExact(d, lead, hops, bound, n);
  }

  /** Where nothing wraps, exactly the safe draws answer every difference correctly under all coins. */
  lemma {:induction false} VerdictIffSafe(lead: Draw, hops: seq<Draw>, bound: nat, n: nat)
    requires lead.Valid() && ValidDraws(hops) && |hops| >= 1 && bound >= 1 && Fits(bound, |hops|, n) && n % 2 == 1
    ensures n > 0
    ensures Safe(lead, hops) <==> forall d: int, hops': seq<Draw> :: -(bound as int) <= d <= bound && SameScales(hops, hops') ==>
      Verdict(d, lead, hops', n) == if d <= 0 then 1 else 0
  {
    FitsRange(bound, |hops|, n);
    if Safe(lead, hops) {
      DecidesIffSafe(lead, hops);
      forall d: int, hops': seq<Draw> | -(bound as int) <= d <= bound && SameScales(hops, hops')
        ensures Verdict(d, lead, hops', n) == if d <= 0 then 1 else 0
      {
        assert Decides(d, lead, hops');
        VerdictExact(d, lead, hops', bound, n);
      }
    } else {
      var d, hops' := SomeFails(lead, hops);
      VerdictExact(d, lead, hops', bound, n);
    }
  }

  // Unsafe draws fail at a difference of 0 or 1.
  lemma {:induction false} SomeFails(lead: Draw, hops: seq<Draw>) returns (d: int, hops': seq<Draw>)
    requires lead.Valid() && ValidDraws(hops) && |hops| >= 1 && !Safe(lead, hops)
    ensures 0 <= d <= 1 && SameScales(hops, hops') && !Decides(d, lead, hops')
  {
    var k := FirstZero(lead, hops);
    if LowMargin(lead, hops, k) == 0 {
      d := 0;
      hops' := LowFails(lead, hops, k);
    } else {
      d := 1;
      hops' := HighFails(lead, hops, k);
    }
  }

  // The leader's selection: joint decryption of c, first candidate when it is not positive.
  method Choose(s: Scp, keys: Keys, ghost d: int, ghost lead: Draw, ghost hops: seq<Draw>, ghost n: nat) returns (chosen: nat)
    requires Dealt(keys, n) && ScpState(s, d, lead, hops, |hops|, keys.pk.n)
    ensures keys.pk.n > 0 && Encrypts(chosen, Verdict(d, lead, hops, keys.pk.n), keys.pk.n)
    ensures chosen == if Signed(Compared(d, lead, hops, |hops|) % keys.pk.n, keys.pk.n) <= 0 then s.a1 else s.a2
  {
    var decrypted := JointDecrypt(s.c, keys, n, Compared(d, lead, hops, |hops|));
    chosen := if decrypted <= 0 then s.a1 else s.a2;
  }

  // The answers of a round.
  function Verdicts(top: nat, ms: seq<int>, draws: RoundDraws, hops: nat, n: nat): (bits: seq<int>)
    requires n > 0 && draws.Shaped(|ms|, hops)
    ensures |bits| == |ms| && forall p :: 0 <= p < |bits| ==> bits[p] == Verdict(top - ms[p], draws.leads[p], draws.HopsOf(p), n)
  {
    seq(|ms|, p requires 0 <= p < |ms| => Verdict(top - ms[p], draws.leads[p], draws.HopsOf(p), n))
  }

  /** A full round: every item is answered by its verdict, for all valid draws. */
  method CompareAll(encs: seq<nat>, top: nat, draws: RoundDraws, zeros: seq<seq<nat>>, zeroIdx: nat, keys: Keys,
                    ghost ms: seq<int>, ghost n: nat)
    returns (results: seq<nat>)
    requires Dealt(keys, n) && PublicKeyShape(keys.pk) && keys.pk.n > RANDOM_BOUND && top < keys.pk.n
    requires |ms| == |encs| && draws.Shaped(|encs|, |zeros|)
    requires forall p :: 0 <= p < |encs| ==> Encrypts(encs[p], ms[p], keys.pk.n)
    requires Stocked(zeros, zeroIdx + 2 * |encs|, keys.pk.n)
    ensures |results| == |encs|
    ensures forall p :: 0 <= p < |encs| ==> Encrypts(results[p], Verdicts(top, ms, draws, |zeros|, keys.pk.n)[p], keys.pk.n)
  {
    var scps := StartRound(encs, top, draws, |zeros|, keys.pk, ms);
    for i := 0 to |zeros|
      invariant RoundState(scps, top, ms, draws, |encs|, |zeros|, i, keys.pk.n)
    {
      var next;
      scps, next := MemberRound(scps, zeros[i], zeroIdx, draws, i, keys.pk, top, ms, |zeros|);
    }
    results := [];
    ghost var bits := Verdicts(top, ms, draws, |zeros|, keys.pk.n);
    for p := 0 to |encs|
      invariant |results| == p
      invariant forall q :: 0 <= q < p ==> Encrypts(results[q], bits[q], keys.pk.n)
    {
      var c := Choose(scps[p], keys, top - ms[p], draws.leads[p], draws.HopsOf(p), n);
      results := results + [c];
    }
  }

  // With safe draws a round answers whether the values reach `top`.
  lemma {:induction false} SafeVerdicts(top: nat, ms: seq<int>, draws: RoundDraws, hops: nat, bound: nat, n: nat, p: nat)
    requires n > 0 && draws.Shaped(|ms|, hops) && draws.AllSafe(|ms|, hops) && hops >= 1 && n % 2 == 1 && Fits(bound, hops, n)
    requires top <= bound && p < |ms| && 0 <= ms[p] <= bound
    ensures Verdicts(top, ms, draws, hops, n)[p] == Answer(top, ms[p])
  {
    var d, lead, hs := top - ms[p], draws.leads[p], draws.HopsOf(p);
    VerdictExact(d, lead, hs, bound, n);
    SafeDecides(d, lead, hs);
  }

  // ---------------------------------------------------------------- membership sums

  function BitValue(f: BloomFilter, i: nat): int
    requires f.Valid() && i < f.size
    reads f
  {
    if f.Bit(i) then 1 else 0
  }

  // How many of the element's first k positions are set.
  function BitSum(f: BloomFilter, x: nat, k: nat): (r: nat)
    requires f.Valid() && k <= |f.seeds|
    reads f
    ensures r <= k && (r == k <==> forall i :: 0 <= i < k ==> f.Bit(f.Position(x, f.seeds[i])))
  {
    if k == 0 then 0 else BitSum(f, x, k - 1) + BitValue(f, f.Position(x, f.seeds[k - 1]))
  }

  // Which of the element's positions are set.
  function BitFlags(f: BloomFilter, x: nat): (r: seq<bool>)
    requires f.Valid()
    reads f
    ensures |r| == |f.seeds| && forall i :: 0 <= i < |r| ==> r[i] == f.Bit(f.hash(x, f.seeds[i]) % f.size)
  {
    seq(|f.seeds|, i requires 0 <= i < |f.seeds| && f.Valid() reads f => f.Bit(f.Position(x, f.seeds[i])))
  }

  // One position more.
  lemma {:induction false} BitSumNext(f: BloomFilter, x: nat, flags: seq<bool>, k: nat)
    requires f.Valid() && k < |f.seeds| && flags == BitFlags(f, x)
    ensures BitSum(f, x, 0) == 0 && BitSum(f, x, k + 1) == BitSum(f, x, k) + if flags[k] then 1 else 0
  {
    assert flags[k] == f.Bit(f.Position(x, f.seeds[k]));
  }

  /** The sum is the number of positions that are set. */
  lemma {:induction false} BitSumCounts(f: BloomFilter, x: nat, k: nat)
    requires f.Valid() && k <= |f.seeds|
    ensures BitSum(f, x, k) == |Flagged(BitFlags(f, x), k)|
  {
    var flags := BitFlags(f, x);
    var sums := seq(|f.seeds| + 1, i requires 0 <= i <= |f.seeds| && f.Valid() reads f => BitSum(f, x, i));
    forall i | 0 <= i < |flags|
      ensures sums[i + 1] == sums[i] + if flags[i] then 1 else 0
    {
      BitSumNext(f, x, flags, i);
    }
    SumsCount(sums, flags, k);
  }

  ghost predicate EncryptedFilter(cs: seq<nat>, f: BloomFilter, n: nat)
    requires f.Valid()
    reads f
  {
    |cs| == f.size && forall i :: 0 <= i < f.size ==> Encrypts(cs[i], BitValue(f, i), n)
  }

  method EncryptFilter(f: BloomFilter, pk: PubKey) returns (cs: seq<nat>)
    requires PublicKeyShape(pk) && f.Valid()
    ensures EncryptedFilter(cs, f, pk.n)
  {
    cs := [];
    for i := 0 to f.size
      invariant |cs| == i && forall k :: 0 <= k < i ==> Encrypts(cs[k], BitValue(f, k), pk.n)
    {
      var c := EncryptFresh(BitValue(f, i), pk);
      cs := cs + [c];
    }
  }

  // What all parties agree on: the size of the filters and the hashes.
  datatype FilterShape = FilterShape(size: nat, seeds: seq<nat>, hash: (nat, nat) -> nat) {
    predicate Valid() {
      size > 0 && |seeds| > 0
    }

    ghost predicate Describes(f: BloomFilter) {
      f.size == size && f.seeds == seeds && f.hash == hash
    }
  }

  // The leader's own computation of an element's positions.
  method HashPositions(shape: FilterShape, x: nat) returns (positions: seq<nat>)
    requires shape.Valid()
    ensures |positions| == |shape.seeds|
    ensures forall i :: 0 <= i < |positions| ==> positions[i] == shape.hash(x, shape.seeds[i]) % shape.size
  {
    positions := [];
    for i := 0 to |shape.seeds|
      invariant |positions| == i && forall k :: 0 <= k < i ==> positions[k] == shape.hash(x, shape.seeds[k]) % shape.size
    {
      positions := positions + [shape.hash(x, shape.seeds[i]) % shape.size];
    }
  }

  // The product of the cells at the element's first k positions.
  function CellProduct(cs: seq<nat>, shape: FilterShape, x: nat, k: nat): int
    requires shape.Valid() && |cs| == shape.size && k <= |shape.seeds|
  {
    if k == 0 then 1 else CellProduct(cs, shape, x, k - 1) * cs[shape.hash(x, shape.seeds[k - 1]) % shape.size]
  }

  lemma {:induction false} ProductStep(c: int, before: int, product: int, factor: int, n2: nat)
    requires n2 > 0 && Cong(before, product, n2) && c == (before * factor) % n2
    ensures Cong(c, product * factor, n2)
  {
    CongMul(before, product, factor, factor, n2);
    CongMod(before * factor, n2);
  }

  // The leader's test: the sum of the encrypted bits at the positions it computed, re-randomized.
  method TestMembership(cs: seq<nat>, shape: FilterShape, x: nat, zero: nat, pk: PubKey, ghost f: BloomFilter) returns (c: nat)
    requires PublicKeyShape(pk) && f.Valid() && shape.Valid() && shape.Describes(f)
    requires EncryptedFilter(cs, f, pk.n) && Encrypts(zero, 0, pk.n)
    ensures Encrypts(c, BitSum(f, x, |f.seeds|), pk.n)
    ensures Cong(c, CellProduct(cs, shape, x, |shape.seeds|) * zero, pk.n2)
  {
    var positions := HashPositions(shape, x);
    c := SumCells(cs, positions, shape, x, pk, f);
    AddCorrect(c, BitSum(f, x, |f.seeds|), zero, 0, pk);
    ProductStep((c * zero) % pk.n2, c, CellProduct(cs, shape, x, |shape.seeds|), zero, pk.n2);
    c := Add(c, zero, pk).value;
  }

  // The cells at the positions, added up.
  method SumCells(cs: seq<nat>, positions: seq<nat>, shape: FilterShape, x: nat, pk: PubKey, ghost f: BloomFilter) returns (c: nat)
    requires PublicKeyShape(pk) && f.Valid() && shape.Valid() && shape.Describes(f) && EncryptedFilter(cs, f, pk.n)
    requires |positions| == |shape.seeds|
    requires forall i :: 0 <= i < |positions| ==> positions[i] == shape.hash(x, shape.seeds[i]) % shape.size
    ensures Encrypts(c, BitSum(f, x, |f.seeds|), pk.n)
    ensures Cong(c, CellProduct(cs, shape, x, |shape.seeds|), pk.n2)
  {
    c := cs[positions[0]];
    FirstBit(f, x);
    assert CellProduct(cs, shape, x, 1) == CellProduct(cs, shape, x, 0) * cs[positions[0]];
    for i := 1 to |positions|
      invariant Summed(c, cs, shape, x, f, i, pk)
    {
      c := AddBit(c, cs, positions[i], pk, shape, f, x, i);
    }
  }

  lemma {:induction false} FirstBit(f: BloomFilter, x: nat)
    requires f.Valid()
    ensures BitSum(f, x, 1) == BitValue(f, f.Position(x, f.seeds[0]))
  {
    assert BitSum(f, x, 0) == 0;
  }

  // The sum of the first i cells.
  ghost predicate Summed(c: nat, cs: seq<nat>, shape: FilterShape, x: nat, f: BloomFilter, i: nat, pk: PubKey)
    requires f.Valid() && shape.Valid() && shape.Describes(f) && |cs| == shape.size && i <= |f.seeds| && pk.n2 > 0
    reads f
  {
    Encrypts(c, BitSum(f, x, i), pk.n) && Cong(c, CellProduct(cs, shape, x, i), pk.n2)
  }

  method AddBit(c: nat, cs: seq<nat>, pos: nat, pk: PubKey, ghost shape: FilterShape, ghost f: BloomFilter, ghost x: nat, ghost i: nat)
    returns (c': nat)
    requires PublicKeyShape(pk) && f.Valid() && shape.Valid() && shape.Describes(f) && EncryptedFilter(cs, f, pk.n)
    requires i < |f.seeds| && pos == f.Position(x, f.seeds[i]) && Summed(c, cs, shape, x, f, i, pk)
    ensures Summed(c', cs, shape, x, f, i + 1, pk)
  {
    AddCorrect(c, BitSum(f, x, i), cs[pos], BitValue(f, pos), pk);
    c' := Add(c, cs[pos], pk).value;
    ProductStep(c', c, CellProduct(cs, shape, x, i), cs[pos], pk.n2);
  }

  // ---------------------------------------------------------------- the whole run

  // Everyone's filter has the same size, seeds and hash.
  ghost predicate FiltersAgree(filters: seq<BloomFilter>, shape: FilterShape)
    reads filters
  {
    shape.Valid() && forall i :: 0 <= i < |filters| ==> filters[i].Valid() && shape.Describes(filters[i])
  }

  // How many of the first k filters cover x.
  ghost function CoverCount(filters: seq<BloomFilter>, x: nat, k: nat): (r: nat)
    requires k <= |filters| && forall i :: 0 <= i < |filters| ==> filters[i].Valid()
    reads filters
    ensures r <= k
  {
    if k == 0 then 0 else CoverCount(filters, x, k - 1) + if filters[k - 1].Covers(x) then 1 else 0
  }

  // How many of the first k sets hold x.
  function HoldCount(sets: seq<seq<nat>>, x: nat, k: nat): nat
    requires k <= |sets|
  {
    if k == 0 then 0 else HoldCount(sets, x, k - 1) + if x in sets[k - 1] then 1 else 0
  }

  // Which filters cover x, and which sets hold it.
  ghost function CoverFlags(filters: seq<BloomFilter>, x: nat): (r: seq<bool>)
    requires forall i :: 0 <= i < |filters| ==> filters[i].Valid()
    reads filters
    ensures |r| == |filters| && forall i :: 0 <= i < |r| ==> (r[i] <==> filters[i].Covers(x))
  {
    seq(|filters|, i requires 0 <= i < |filters| && filters[i].Valid() reads filters => filters[i].Covers(x))
  }

  function HoldFlags(sets: seq<seq<nat>>, x: nat): (r: seq<bool>)
    ensures |r| == |sets| && forall i :: 0 <= i < |r| ==> (r[i] <==> x in sets[i])
  {
    seq(|sets|, i requires 0 <= i < |sets| => x in sets[i])
  }

  /** Both counts count. */
  lemma {:induction false} CoversCounted(filters: seq<BloomFilter>, x: nat, flags: seq<bool>, k: nat)
    requires k <= |filters| && forall i :: 0 <= i < |filters| ==> filters[i].Valid()
    requires flags == CoverFlags(filters, x)
    ensures CoverCount(filters, x, k) == |Flagged(flags, k)|
  {
    if k == 0 {
      assert Flagged(flags, 0) == {};
    } else {
      var covers, count := CoverCount(filters, x, k - 1), |Flagged(flags, k - 1)|;
      CoversCounted(filters, x, flags, k - 1);
      assert covers == count && CoverCount(filters, x, k) == covers + if flags[k - 1] then 1 else 0;
      FlaggedNext(flags, k - 1);
    }
  }

  lemma {:induction false} HoldersCounted(sets: seq<seq<nat>>, x: nat, k: nat)
    requires k <= |sets|
    ensures HoldCount(sets, x, k) == |Flagged(HoldFlags(sets, x), k)|
  {
    if k == 0 {
      assert Flagged(HoldFlags(sets, x), 0) == {};
    } else {
      HoldersCounted(sets, x, k - 1);
      FlaggedNext(HoldFlags(sets, x), k - 1);
    }
  }

  // Filters never miss an element, so holders are always counted.
  lemma {:induction false} HoldersAreCovered(filters: seq<BloomFilter>, sets: seq<seq<nat>>, x: nat, k: nat)
    requires k <= |filters| == |sets| && forall i :: 0 <= i < |filters| ==> filters[i].Valid()
    requires forall i, y :: 0 <= i < |sets| && y in sets[i] ==> filters[i].Covers(y)
    ensures HoldCount(sets, x, k) <= CoverCount(filters, x, k)
  {
    if k > 0 { HoldersAreCovered(filters, sets, x, k - 1); }
  }

  // The membership sums of an element, one per filter.
  ghost function Sums(filters: seq<BloomFilter>, x: nat): (ms: seq<int>)
    requires forall i :: 0 <= i < |filters| ==> filters[i].Valid()
    reads filters
    ensures |ms| == |filters| && forall i :: 0 <= i < |ms| ==> ms[i] == BitSum(filters[i], x, |filters[i].seeds|)
  {
    seq(|filters|, i requires 0 <= i < |filters| && filters[i].Valid() reads filters => BitSum(filters[i], x, |filters[i].seeds|))
  }

  // The membership sums of all inputs.
  ghost function AllSums(filters: seq<BloomFilter>, inputs: seq<nat>): (sums: seq<seq<int>>)
    requires forall i :: 0 <= i < |filters| ==> filters[i].Valid()
    reads filters
    ensures |sums| == |inputs| && forall e :: 0 <= e < |sums| ==> sums[e] == Sums(filters, inputs[e])
  {
    if |inputs| == 0 then []
    else AllSums(filters, inputs[..|inputs| - 1]) + [Sums(filters, inputs[|inputs| - 1])]
  }

  // What the members sent are encryptions of their filters.
  ghost predicate AllEncrypted(encrypted: seq<seq<nat>>, filters: seq<BloomFilter>, shape: FilterShape, n: nat)
    reads filters
  {
    && shape.Valid() && |encrypted| == |filters|
    && forall i :: 0 <= i < |filters| ==>
         filters[i].Valid() && shape.Describes(filters[i]) && EncryptedFilter(encrypted[i], filters[i], n)
  }

  // Step 2 of the leader for one element: one membership sum per member, one zero each.
  method TestElement(x: nat, encrypted: seq<seq<nat>>, zeros: seq<nat>, zeroIdx: nat, pk: PubKey, shape: FilterShape,
                     ghost filters: seq<BloomFilter>, ghost ms: seq<int>)
    returns (tests: seq<nat>)
    requires PublicKeyShape(pk) && AllEncrypted(encrypted, filters, shape, pk.n) && ms == Sums(filters, x)
    requires AllZeros(zeros, pk.n) && zeroIdx + |filters| <= |zeros|
    ensures |tests| == |ms| && forall i :: 0 <= i < |ms| ==> Encrypts(tests[i], ms[i], pk.n)
  {
    tests := [];
    for i := 0 to |encrypted|
      invariant |tests| == i && forall k :: 0 <= k < i ==> Encrypts(tests[k], ms[k], pk.n)
    {
      var c := TestMembership(encrypted[i], shape, x, zeros[zeroIdx + i], pk, filters[i]);
      tests := tests + [c];
    }
  }

  // The sum of the first k answers.
  function Tally(bits: seq<int>, k: nat): int
    requires k <= |bits|
  {
    if k == 0 then 0 else Tally(bits, k - 1) + bits[k - 1]
  }

  // Which answers are 1.
  function OneFlags(bits: seq<int>): (r: seq<bool>)
    ensures |r| == |bits| && forall i :: 0 <= i < |r| ==> (r[i] <==> bits[i] == 1)
  {
    seq(|bits|, i requires 0 <= i < |bits| => bits[i] == 1)
  }

  /** The sum of answers is how many of them are 1. */
  lemma {:induction false} TallyCounts(bits: seq<int>, k: nat)
    requires k <= |bits| && forall i :: 0 <= i < |bits| ==> bits[i] == 0 || bits[i] == 1
    ensures Tally(bits, k) == |Flagged(OneFlags(bits), k)|
  {
    if k == 0 {
      assert Flagged(OneFlags(bits), 0) == {};
    } else {
      TallyCounts(bits, k - 1);
      FlaggedNext(OneFlags(bits), k - 1);
    }
  }

  // Step 4a: the sum of an element's answers.
  method Aggregate(answers: seq<nat>, pk: PubKey, ghost bits: seq<int>) returns (c: nat)
    requires PublicKeyShape(pk) && |answers| == |bits| && forall i :: 0 <= i < |answers| ==> Encrypts(answers[i], bits[i], pk.n)
    ensures Encrypts(c, Tally(bits, |bits|), pk.n)
  {
    c := EncryptFresh(0, pk);
    for i := 0 to |answers|
      invariant Encrypts(c, Tally(bits, i), pk.n)
    {
      AddCorrect(c, Tally(bits, i), answers[i], bits[i], pk);
      c := Add(c, answers[i], pk).value;
    }
  }

  // A membership sum reaches the number of hashes exactly when the filter covers the element.
  lemma {:induction false} SumMeansCovered(f: BloomFilter, x: nat)
    requires f.Valid()
    ensures Answer(|f.seeds|, BitSum(f, x, |f.seeds|)) == if f.Covers(x) then 1 else 0
  {
  }

  // What the first round counts for an element with these membership sums: the answers that are 1.
  function Counted(ms: seq<int>, numHash: nat, draws: RoundDraws, n: nat): int
    requires n > 0 && draws.Shaped(|ms|, |ms|)
  {
    Tally(Verdicts(numHash, ms, draws, |ms|, n), |ms|)
  }

  /** The count is how many of the element's verdicts are 1. */
  lemma {:induction false} CountedVerdicts(ms: seq<int>, numHash: nat, draws: RoundDraws, n: nat, flags: seq<bool>)
    requires n > 0 && draws.Shaped(|ms|, |ms|) && |flags| == |ms|
    requires forall p :: 0 <= p < |ms| ==> (flags[p] <==> Verdict(numHash - ms[p], draws.leads[p], draws.HopsOf(p), n) == 1)
    ensures Counted(ms, numHash, draws, n) == |Flagged(flags, |flags|)|
  {
    var bits := Verdicts(numHash, ms, draws, |ms|, n);
    TallyCounts(bits, |bits|);
    assert flags == OneFlags(bits);
  }

  /** With safe draws exactly the filters that cover an element are counted. */
  lemma {:induction false} SafeCount(filters: seq<BloomFilter>, shape: FilterShape, x: nat, draws: RoundDraws, bound: nat, n: nat)
    requires FiltersAgree(filters, shape) && |filters| >= 1 && n > 0 && n % 2 == 1
    requires draws.Shaped(|filters|, |filters|) && draws.AllSafe(|filters|, |filters|)
    requires |shape.seeds| <= bound && Fits(bound, |filters|, n)
    ensures Counted(Sums(filters, x), |shape.seeds|, draws, n) == CoverCount(filters, x, |filters|)
  {
    SafeTally(filters, shape, x, Sums(filters, x), draws, bound, n, |filters|);
  }

  lemma {:induction false} SafeTally(filters: seq<BloomFilter>, shape: FilterShape, x: nat, ms: seq<int>, draws: RoundDraws, bound: nat,
                                     n: nat, k: nat)
    requires FiltersAgree(filters, shape) && |filters| >= 1 && k <= |filters| && n > 0 && n % 2 == 1 && ms == Sums(filters, x)
    requires draws.Shaped(|filters|, |filters|) && draws.AllSafe(|filters|, |filters|)
    requires |shape.seeds| <= bound && Fits(bound, |filters|, n)
    ensures Tally(Verdicts(|shape.seeds|, ms, draws, |filters|, n), k) == CoverCount(filters, x, k)
  {
    if k > 0 {
      SafeTally(filters, shape, x, ms, draws, bound, n, k - 1);
      SafeVerdicts(|shape.seeds|, ms, draws, |filters|, bound, n, k - 1);
      SumMeansCovered(filters[k - 1], x);
    }
  }

  /** Steps 2 to 4a for one element: test all members, compare, add up the answers. */
  method CountElement(x: nat, encrypted: seq<seq<nat>>, leadZeros: seq<nat>, leadIdx: nat, draws: RoundDraws, zeros: seq<seq<nat>>,
                      zeroIdx: nat, keys: Keys, shape: FilterShape, ghost filters: seq<BloomFilter>, ghost ms: seq<int>, ghost n: nat)
    returns (c: nat)
    requires Dealt(keys, n) && PublicKeyShape(keys.pk) && keys.pk.n > RANDOM_BOUND && |shape.seeds| < keys.pk.n
    requires AllEncrypted(encrypted, filters, shape, keys.pk.n) && ms == Sums(filters, x) && |ms| == |zeros| && draws.Shaped(|ms|, |ms|)
    requires AllZeros(leadZeros, keys.pk.n) && leadIdx + |filters| <= |leadZeros|
    requires Stocked(zeros, zeroIdx + 2 * |filters|, keys.pk.n)
    ensures Encrypts(c, Counted(ms, |shape.seeds|, draws, keys.pk.n), keys.pk.n)
  {
    var tests := TestElement(x, encrypted, leadZeros, leadIdx, keys.pk, shape, filters, ms);
    var answers := CompareAll(tests, |shape.seeds|, draws, zeros, zeroIdx, keys, ms, n);
    c := Aggregate(answers, keys.pk, Verdicts(|shape.seeds|, ms, draws, |zeros|, keys.pk.n));
  }

  // Encryptions of 0 a member precomputes for `items` leader elements and `members` members.
  function MemberZeros(items: nat, members: nat): nat {
    items * members * 2 + items * 2
  }

  function LeaderZeros(items: nat, members: nat): nat {
    items * members + items
  }

  lemma {:induction false} ZeroBudget(items: nat, members: nat, e: nat)
    requires e < items
    ensures e * members + members <= LeaderZeros(items, members)
    ensures 2 * (e * members) + 2 * members <= MemberZeros(items, members)
    ensures (e + 1) * members == e * members + members
  {
    MulMono(members, e + 1, items);
  }

  // Each input's draws have the right number of items and hops.
  predicate AllShaped(draws: seq<RoundDraws>, members: nat) {
    forall e :: 0 <= e < |draws| ==> draws[e].Shaped(members, members)
  }

  // The counts of all inputs.
  function Counts(sums: seq<seq<int>>, numHash: nat, draws: seq<RoundDraws>, members: nat, n: nat): (r: seq<int>)
    requires n > 0 && |draws| == |sums| && AllShaped(draws, members) && forall e :: 0 <= e < |sums| ==> |sums[e]| == members
    ensures |r| == |sums| && forall e :: 0 <= e < |r| ==> r[e] == Counted(sums[e], numHash, draws[e], n)
  {
    seq(|sums|, e requires 0 <= e < |sums| => Counted(sums[e], numHash, draws[e], n))
  }

  // The membership sums a run starts from.
  ghost predicate SumsOf(sums: seq<seq<int>>, filters: seq<BloomFilter>, inputs: seq<nat>)
    reads filters
  {
    && |sums| == |inputs| && (forall i :: 0 <= i < |filters| ==> filters[i].Valid())
    && forall e :: 0 <= e < |inputs| ==> sums[e] == Sums(filters, inputs[e])
  }

  // Everything the counting loop works with.
  ghost predicate CountReady(inputs: seq<nat>, encrypted: seq<seq<nat>>, leadZeros: seq<nat>, draws: seq<RoundDraws>,
                             zeros: seq<seq<nat>>, keys: Keys, shape: FilterShape, filters: seq<BloomFilter>, sums: seq<seq<int>>, n: nat)
    reads filters
  {
    && Dealt(keys, n) && PublicKeyShape(keys.pk) && keys.pk.n > RANDOM_BOUND && |shape.seeds| < keys.pk.n
    && AllEncrypted(encrypted, filters, shape, keys.pk.n) && |zeros| == |filters| && SumsOf(sums, filters, inputs)
    && AllZeros(leadZeros, keys.pk.n) && |leadZeros| == LeaderZeros(|inputs|, |filters|)
    && Stocked(zeros, MemberZeros(|inputs|, |filters|), keys.pk.n)
    && |draws| == |inputs| && AllShaped(draws, |filters|) && forall e :: 0 <= e < |sums| ==> |sums[e]| == |filters|
  }

  // One more element, with both running zero indices.
  method CountNext(inputs: seq<nat>, encrypted: seq<seq<nat>>, leadZeros: seq<nat>, leadIdx: nat, draws: seq<RoundDraws>,
                   zeros: seq<seq<nat>>, zeroIdx: nat, keys: Keys, shape: FilterShape, e: nat,
                   ghost filters: seq<BloomFilter>, ghost sums: seq<seq<int>>, ghost n: nat)
    returns (c: nat, leadIdx': nat, zeroIdx': nat)
    requires CountReady(inputs, encrypted, leadZeros, draws, zeros, keys, shape, filters, sums, n)
    requires e < |inputs| && leadIdx == e * |filters| && zeroIdx == 2 * (e * |filters|)
    ensures Encrypts(c, Counts(sums, |shape.seeds|, draws, |filters|, keys.pk.n)[e], keys.pk.n)
    ensures leadIdx' == (e + 1) * |filters| && zeroIdx' == 2 * ((e + 1) * |filters|)
  {
    ZeroBudget(|inputs|, |filters|, e);
    c := CountElement(inputs[e], encrypted, leadZeros, leadIdx, draws[e], zeros, zeroIdx, keys, shape, filters, sums[e], n);
    leadIdx', zeroIdx' := leadIdx + |encrypted|, zeroIdx + 2 * |encrypted|;
  }

  // What the second round needs is what the first one left over.
  lemma {:induction false} ZerosLeft(items: nat, members: nat, leadIdx: nat, zeroIdx: nat)
    requires leadIdx == items * members && zeroIdx == 2 * (items * members)
    ensures leadIdx + items == LeaderZeros(items, members) && zeroIdx + 2 * items == MemberZeros(items, members)
  {
  }

  ghost predicate EncryptsFirst(cs: seq<nat>, ms: seq<int>, k: nat, n: nat) {
    |cs| == k <= |ms| && forall i :: 0 <= i < k ==> Encrypts(cs[i], ms[i], n)
  }

  lemma {:induction false} EncryptsNext(cs: seq<nat>, c: nat, ms: seq<int>, k: nat, n: nat)
    requires EncryptsFirst(cs, ms, k, n) && k < |ms| && Encrypts(c, ms[k], n)
    ensures EncryptsFirst(cs + [c], ms, k + 1, n)
  {
  }

  // Steps 1 to 4a for all elements.
  method CountAll(inputs: seq<nat>, encrypted: seq<seq<nat>>, leadZeros: seq<nat>, draws: seq<RoundDraws>, zeros: seq<seq<nat>>,
                  keys: Keys, shape: FilterShape, ghost filters: seq<BloomFilter>, ghost sums: seq<seq<int>>, ghost n: nat)
    returns (counts: seq<nat>, leadIdx: nat, zeroIdx: nat)
    requires CountReady(inputs, encrypted, leadZeros, draws, zeros, keys, shape, filters, sums, n)
    ensures |counts| == |inputs| && leadIdx == |inputs| * |filters| && zeroIdx == 2 * (|inputs| * |filters|)
    ensures EncryptsFirst(counts, Counts(sums, |shape.seeds|, draws, |filters|, keys.pk.n), |inputs|, keys.pk.n)
  {
    counts, leadIdx, zeroIdx := [], 0, 0;
    ghost var ms := Counts(sums, |shape.seeds|, draws, |filters|, keys.pk.n);
    for e := 0 to |inputs|
      invariant |counts| == e && leadIdx == e * |filters| && zeroIdx == 2 * (e * |filters|)
      invariant CountReady(inputs, encrypted, leadZeros, draws, zeros, keys, shape, filters, sums, n)
      invariant EncryptsFirst(counts, ms, e, keys.pk.n)
    {
      var c;
      c, leadIdx, zeroIdx := CountNext(inputs, encrypted, leadZeros, leadIdx, draws, zeros, zeroIdx, keys, shape, e, filters, sums, n);
      EncryptsNext(counts, c, ms, e, keys.pk.n);
      counts := counts + [c];
    }
  }

  // Step 5: re-randomize, jointly decrypt, keep the elements whose answer is 1.
  method FinalDecryption(inputs: seq<nat>, answers: seq<nat>, leadZeros: seq<nat>, leadIdx: nat, keys: Keys,
                         ghost bits: seq<int>, ghost n: nat)
    returns (intersection: seq<nat>, ghost flags: seq<bool>, leadIdx': nat)
    requires Dealt(keys, n) && |answers| == |inputs| == |bits| && leadIdx + |inputs| <= |leadZeros|
    requires AllZeros(leadZeros, keys.pk.n)
    requires forall e :: 0 <= e < |inputs| ==> Encrypts(answers[e], bits[e], keys.pk.n) && (bits[e] == 0 || bits[e] == 1)
    ensures |flags| == |inputs| && intersection == Select(inputs, flags) && leadIdx' == leadIdx + |inputs|
    ensures forall e :: 0 <= e < |inputs| ==> (flags[e] <==> bits[e] == 1)
  {
    DealtFacts(keys, n);
    intersection, flags, leadIdx' := [], [], leadIdx;
    for e := 0 to |inputs|
      invariant |flags| == e && intersection == Select(inputs[..e], flags) && leadIdx' == leadIdx + e
      invariant forall k :: 0 <= k < e ==> (flags[k] <==> bits[k] == 1)
    {
      AddCorrect(answers[e], bits[e], leadZeros[leadIdx'], 0, keys.pk);
      var c := Add(answers[e], leadZeros[leadIdx'], keys.pk).value;
      leadIdx' := leadIdx' + 1;
      var decrypted := JointDecrypt(c, keys, n, bits[e]);
      SignedExact(bits[e], keys.pk.n);
      SelectSnoc(inputs, flags, e, decrypted == 1);
      if decrypted == 1 {
        intersection := intersection + [inputs[e]];
      }
      flags := flags + [decrypted == 1];
    }
    assert inputs[..|inputs|] == inputs;
  }

  // What a run reports for any draws: the inputs whose second comparison answers 1.
  ghost predicate RunOutput(intersection: seq<nat>, inputs: seq<nat>, flags: seq<bool>, counts: seq<int>, threshold: nat,
                            members: nat, draws: RoundDraws, n: nat)
    requires n > 0 && threshold >= 1 && |counts| == |inputs| && draws.Shaped(|counts|, members)
  {
    && |flags| == |inputs| && intersection == Select(inputs, flags)
    && forall e :: 0 <= e < |inputs| ==> (flags[e] <==> Verdicts(threshold - 1, counts, draws, members, n)[e] == 1)
  }

  // The elements a run must report.
  ghost predicate ThresholdOutput(intersection: seq<nat>, inputs: seq<nat>, flags: seq<bool>, filters: seq<BloomFilter>, threshold: nat)
    requires forall i :: 0 <= i < |filters| ==> filters[i].Valid()
    reads filters
  {
    && |flags| == |inputs| && intersection == Select(inputs, flags)
    && forall e :: 0 <= e < |inputs| ==> (flags[e] <==> CoverCount(filters, inputs[e], |filters|) >= threshold - 1)
  }

  /** With safe draws and a modulus that leaves room, a run reports exactly the leader's inputs that at
      least threshold - 1 filters cover. */
  lemma {:induction false} SafeOutput(intersection: seq<nat>, inputs: seq<nat>, flags: seq<bool>, filters: seq<BloomFilter>,
                                      counts: seq<int>, threshold: nat, draws: RoundDraws, bound: nat, n: nat)
    requires n > 0 && n % 2 == 1 && threshold >= 1 && |counts| == |inputs| && |filters| >= 1
    requires forall i :: 0 <= i < |filters| ==> filters[i].Valid()
    requires forall e :: 0 <= e < |inputs| ==> counts[e] == CoverCount(filters, inputs[e], |filters|)
    requires draws.Shaped(|inputs|, |filters|) && draws.AllSafe(|inputs|, |filters|)
    requires threshold - 1 <= bound && |filters| <= bound && Fits(bound, |filters|, n)
    requires RunOutput(intersection, inputs, flags, counts, threshold, |filters|, draws, n)
    ensures ThresholdOutput(intersection, inputs, flags, filters, threshold)
  {
    forall e | 0 <= e < |inputs|
      ensures flags[e] <==> CoverCount(filters, inputs[e], |filters|) >= threshold - 1
    {
      SafeVerdicts(threshold - 1, counts, draws, |filters|, bound, n, e);
    }
  }

  // With safe draws all counts are the numbers of covering filters.
  lemma {:induction false} SafeCounts(filters: seq<BloomFilter>, shape: FilterShape, inputs: seq<nat>, draws: seq<RoundDraws>,
                                      counts: seq<int>, bound: nat, n: nat)
    requires FiltersAgree(filters, shape) && |filters| >= 1 && n > 0 && n % 2 == 1
    requires |draws| == |inputs| == |counts| && AllShaped(draws, |filters|)
    requires forall e :: 0 <= e < |draws| ==> draws[e].AllSafe(|filters|, |filters|)
    requires |shape.seeds| <= bound && Fits(bound, |filters|, n)
    requires forall e :: 0 <= e < |inputs| ==> counts[e] == Counted(Sums(filters, inputs[e]), |shape.seeds|, draws[e], n)
    ensures forall e :: 0 <= e < |inputs| ==> counts[e] == CoverCount(filters, inputs[e], |filters|)
  {
    forall e | 0 <= e < |inputs|
      ensures counts[e] == CoverCount(filters, inputs[e], |filters|)
    {
      SafeCount(filters, shape, inputs[e], draws[e], bound, n);
    }
  }

  // All draws of a run are safe.
  predicate SafeRun(draws1: seq<RoundDraws>, draws2: RoundDraws, items: nat, members: nat)
    requires draws2.Shaped(items, members) && AllShaped(draws1, members)
  {
    draws2.AllSafe(items, members) && forall e :: 0 <= e < |draws1| ==> draws1[e].AllSafe(members, members)
  }

  // The largest value either comparison starts from.
  function Widest(numHash: nat, threshold: nat, members: nat): (bound: nat)
    requires threshold >= 1
    ensures numHash <= bound && threshold - 1 <= bound && members <= bound
  {
    if numHash >= threshold - 1 && numHash >= members then numHash else if threshold - 1 >= members then threshold - 1 else members
  }

  /** The whole protocol, for all valid draws: the leader reports, in order, its inputs whose count of answers
      gets the answer 1 in the second comparison, and both roles use exactly their precomputed zeros. With safe
      draws and no wrap-around these are exactly the inputs that at least threshold - 1 filters cover. */
  method Run(inputs: seq<nat>, filters: seq<BloomFilter>, threshold: nat, shape: FilterShape, keys: Keys,
             draws1: seq<RoundDraws>, draws2: RoundDraws)
    returns (intersection: seq<nat>, ghost flags: seq<bool>, ghost counts: seq<int>, leadUsed: nat, memberUsed: nat)
    requires |filters| >= 1 && threshold >= 1 && Dealt(keys, |filters| + 1) && FiltersAgree(filters, shape)
    requires keys.pk.n > RANDOM_BOUND && |shape.seeds| < keys.pk.n && threshold - 1 < keys.pk.n
    requires |draws1| == |inputs| && AllShaped(draws1, |filters|) && draws2.Shaped(|inputs|, |filters|)
    ensures |counts| == |inputs| && forall e :: 0 <= e < |inputs| ==>
      counts[e] == Counted(Sums(filters, inputs[e]), |shape.seeds|, draws1[e], keys.pk.n)
    ensures |flags| == |inputs| && intersection == Select(inputs, flags)
    ensures forall e :: 0 <= e < |inputs| ==>
      (flags[e] <==> Verdict(threshold - 1 - counts[e], draws2.leads[e], draws2.HopsOf(e), keys.pk.n) == 1)
    ensures SafeRun(draws1, draws2, |inputs|, |filters|) && NoWrapping(|shape.seeds|, threshold, |filters|, keys.pk.n) ==>
      forall e :: 0 <= e < |inputs| ==> (flags[e] <==> |Flagged(CoverFlags(filters, inputs[e]), |filters|)| >= threshold - 1)
    ensures leadUsed == |inputs| * |filters| + |inputs| && memberUsed == 2 * (|inputs| * |filters|) + 2 * |inputs|
  {
    DealtFacts(keys, |filters| + 1);
    ghost var sums := AllSums(filters, inputs);
    counts := Counts(sums, |shape.seeds|, draws1, |filters|, keys.pk.n);
    intersection, flags, leadUsed, memberUsed := RunRounds(inputs, filters, threshold, shape, keys, draws1, draws2, sums);
    VerdictFlags(intersection, inputs, flags, counts, threshold, |filters|, draws2, keys.pk.n);
    if SafeRun(draws1, draws2, |inputs|, |filters|) && NoWrapping(|shape.seeds|, threshold, |filters|, keys.pk.n) {
      SafeFlags(intersection, inputs, flags, filters, shape, counts, threshold, draws1, draws2, keys.pk.n);
    }
  }

  // Every value either comparison starts from leaves room for all hops.
  predicate NoWrapping(numHash: nat, threshold: nat, members: nat, n: nat)
    requires threshold >= 1
  {
    Fits(Widest(numHash, threshold, members), members, n)
  }

  /** No value wraps when 2 * 127^(members + 1) * (v + 1) < N for the number of hashes, the threshold less one
      and the number of members. */
  lemma {:induction false} RoomEnough(numHash: nat, threshold: nat, members: nat, n: nat)
    requires threshold >= 1
    ensures NoWrapping(numHash, threshold, members, n) <==>
      && 2 * Pow(127, members + 1) * (numHash + 1) < n && 2 * Pow(127, members + 1) * threshold < n
      && 2 * Pow(127, members + 1) * (members + 1) < n
  {
    PowPositive(127, members + 1);
    var p, w := 2 * Pow(127, members + 1), Widest(numHash, threshold, members) + 1;
    MulMono(p, numHash + 1, w);
    MulMono(p, threshold, w);
    MulMono(p, members + 1, w);
  }

  lemma {:induction false} VerdictFlags(intersection: seq<nat>, inputs: seq<nat>, flags: seq<bool>, counts: seq<int>, threshold: nat,
                                        members: nat, draws: RoundDraws, n: nat)
    requires n > 0 && threshold >= 1 && |counts| == |inputs| && draws.Shaped(|counts|, members)
    requires RunOutput(intersection, inputs, flags, counts, threshold, members, draws, n)
    ensures |flags| == |inputs| && intersection == Select(inputs, flags)
    ensures forall e :: 0 <= e < |inputs| ==>
      (flags[e] <==> Verdict(threshold - 1 - counts[e], draws.leads[e], draws.HopsOf(e), n) == 1)
  {
  }

  lemma {:induction false} SafeFlags(intersection: seq<nat>, inputs: seq<nat>, flags: seq<bool>, filters: seq<BloomFilter>,
                                     shape: FilterShape, counts: seq<int>, threshold: nat, draws1: seq<RoundDraws>, draws2: RoundDraws, n: nat)
    requires FiltersAgree(filters, shape) && |filters| >= 1 && n > 0 && n % 2 == 1 && threshold >= 1
    requires |draws1| == |inputs| == |counts| && AllShaped(draws1, |filters|) && draws2.Shaped(|inputs|, |filters|)
    requires forall e :: 0 <= e < |inputs| ==> counts[e] == Counted(Sums(filters, inputs[e]), |shape.seeds|, draws1[e], n)
    requires RunOutput(intersection, inputs, flags, counts, threshold, |filters|, draws2, n)
    requires SafeRun(draws1, draws2, |inputs|, |filters|) && NoWrapping(|shape.seeds|, threshold, |filters|, n)
    ensures |flags| == |inputs|
    ensures forall e :: 0 <= e < |inputs| ==> (flags[e] <==> |Flagged(CoverFlags(filters, inputs[e]), |filters|)| >= threshold - 1)
  {
    var bound := Widest(|shape.seeds|, threshold, |filters|);
    SafeCounts(filters, shape, inputs, draws1, counts, bound, n);
    SafeOutput(intersection, inputs, flags, filters, counts, threshold, draws2, bound, n);
    forall e | 0 <= e < |inputs|
      ensures flags[e] <==> |Flagged(CoverFlags(filters, inputs[e]), |filters|)| >= threshold - 1
    {
      CoversCounted(filters, inputs[e], CoverFlags(filters, inputs[e]), |filters|);
    }
  }

  // Setup and the first round, with what is left of the zeros.
  method FirstRound(inputs: seq<nat>, filters: seq<BloomFilter>, shape: FilterShape, keys: Keys, draws: seq<RoundDraws>,
                    ghost sums: seq<seq<int>>)
    returns (counts: seq<nat>, leadZeros: seq<nat>, zeros: seq<seq<nat>>, leadIdx: nat, zeroIdx: nat)
    requires Dealt(keys, |filters| + 1) && PublicKeyShape(keys.pk) && FiltersAgree(filters, shape)
    requires keys.pk.n > RANDOM_BOUND && |shape.seeds| < keys.pk.n && |draws| == |inputs| && AllShaped(draws, |filters|)
    requires SumsOf(sums, filters, inputs) && forall e :: 0 <= e < |sums| ==> |sums[e]| == |filters|
    ensures EncryptsFirst(counts, Counts(sums, |shape.seeds|, draws, |filters|, keys.pk.n), |inputs|, keys.pk.n)
    ensures AllZeros(leadZeros, keys.pk.n) && leadIdx + |inputs| == |leadZeros| == LeaderZeros(|inputs|, |filters|)
    ensures |zeros| == |filters| && zeroIdx + 2 * |inputs| == MemberZeros(|inputs|, |filters|)
    ensures Stocked(zeros, zeroIdx + 2 * |inputs|, keys.pk.n)
  {
    leadZeros := EncryptZeros(LeaderZeros(|inputs|, |filters|), keys.pk);
    var encrypted;
    encrypted, zeros := MemberSetup(filters, MemberZeros(|inputs|, |filters|), keys.pk, shape);
    counts, leadIdx, zeroIdx := CountAll(inputs, encrypted, leadZeros, draws, zeros, keys, shape, filters, sums, |filters| + 1);
    ZerosLeft(|inputs|, |filters|, leadIdx, zeroIdx);
  }

  // Both rounds.
  method RunRounds(inputs: seq<nat>, filters: seq<BloomFilter>, threshold: nat, shape: FilterShape, keys: Keys,
                   draws1: seq<RoundDraws>, draws2: RoundDraws, ghost sums: seq<seq<int>>)
    returns (intersection: seq<nat>, ghost flags: seq<bool>, leadUsed: nat, memberUsed: nat)
    requires threshold >= 1 && Dealt(keys, |filters| + 1) && PublicKeyShape(keys.pk) && FiltersAgree(filters, shape)
    requires keys.pk.n > RANDOM_BOUND && |shape.seeds| < keys.pk.n && threshold - 1 < keys.pk.n
    requires SumsOf(sums, filters, inputs) && forall e :: 0 <= e < |sums| ==> |sums[e]| == |filters|
    requires |draws1| == |inputs| && AllShaped(draws1, |filters|) && draws2.Shaped(|inputs|, |filters|)
    ensures RunOutput(intersection, inputs, flags, Counts(sums, |shape.seeds|, draws1, |filters|, keys.pk.n),
                      threshold, |filters|, draws2, keys.pk.n)
    ensures leadUsed == LeaderZeros(|inputs|, |filters|) && memberUsed == MemberZeros(|inputs|, |filters|)
  {
    ghost var ms := Counts(sums, |shape.seeds|, draws1, |filters|, keys.pk.n);
    var counts, leadZeros, zeros, leadIdx, zeroIdx := FirstRound(inputs, filters, shape, keys, draws1, sums);
    intersection, flags, leadUsed, memberUsed := ThresholdRound(inputs, threshold, counts, leadZeros, leadIdx,
      draws2, zeros, zeroIdx, keys, ms, |filters| + 1);
  }

  // Steps 4 and 5: compare the counts with threshold - 1 and decrypt the answers.
  method ThresholdRound(inputs: seq<nat>, threshold: nat, counts: seq<nat>, leadZeros: seq<nat>, leadIdx: nat, draws: RoundDraws,
                        zeros: seq<seq<nat>>, zeroIdx: nat, keys: Keys, ghost ms: seq<int>, ghost n: nat)
    returns (intersection: seq<nat>, ghost flags: seq<bool>, leadIdx': nat, zeroIdx': nat)
    requires Dealt(keys, n) && PublicKeyShape(keys.pk) && keys.pk.n > RANDOM_BOUND && threshold >= 1 && threshold - 1 < keys.pk.n
    requires |counts| == |inputs| == |ms| && draws.Shaped(|ms|, |zeros|)
    requires EncryptsFirst(counts, ms, |inputs|, keys.pk.n)
    requires AllZeros(leadZeros, keys.pk.n) && leadIdx + |inputs| <= |leadZeros|
    requires Stocked(zeros, zeroIdx + 2 * |counts|, keys.pk.n)
    ensures RunOutput(intersection, inputs, flags, ms, threshold, |zeros|, draws, keys.pk.n)
    ensures leadIdx' == leadIdx + |inputs| && zeroIdx' == zeroIdx + 2 * |inputs|
  {
    ghost var bits := Verdicts(threshold - 1, ms, draws, |zeros|, keys.pk.n);
    var answers := CompareAll(counts, threshold - 1, draws, zeros, zeroIdx, keys, ms, n);
    zeroIdx' := zeroIdx + 2 * |inputs|;
    intersection, flags, leadIdx' := FinalDecryption(inputs, answers, leadZeros, leadIdx, keys, bits, n);
  }

  // Steps 1.5 and 2 of every member: zeros and the encrypted filter.
  method MemberSetup(filters: seq<BloomFilter>, count: nat, pk: PubKey, ghost shape: FilterShape)
    returns (encrypted: seq<seq<nat>>, zeros: seq<seq<nat>>)
    requires PublicKeyShape(pk) && FiltersAgree(filters, shape)
    ensures |zeros| == |filters| && AllEncrypted(encrypted, filters, shape, pk.n) && Stocked(zeros, count, pk.n)
  {
    encrypted, zeros := [], [];
    for i := 0 to |filters|
      invariant |encrypted| == |zeros| == i && Stocked(zeros, count, pk.n)
      invariant forall k :: 0 <= k < i ==> EncryptedFilter(encrypted[k], filters[k], pk.n)
    {
      var z := EncryptZeros(count, pk);
      var c := EncryptFilter(filters[i], pk);
      encrypted, zeros := encrypted + [c], zeros + [z];
    }
  }

  /** No false negatives: an element of the leader held by threshold - 1 members is reported. */
  lemma {:induction false} NeverMissed(intersection: seq<nat>, inputs: seq<nat>, flags: seq<bool>, filters: seq<BloomFilter>,
                                       threshold: nat, sets: seq<seq<nat>>, e: nat)
    requires |sets| == |filters| && forall i :: 0 <= i < |filters| ==> filters[i].Valid()
    requires forall i, y :: 0 <= i < |sets| && y in sets[i] ==> filters[i].Covers(y)
    requires |flags| == |inputs| && intersection == Select(inputs, flags)
    requires forall k :: 0 <= k < |inputs| ==> (flags[k] <==> |Flagged(CoverFlags(filters, inputs[k]), |filters|)| >= threshold - 1)
    requires e < |inputs| && |Flagged(HoldFlags(sets, inputs[e]), |sets|)| >= threshold - 1
    ensures inputs[e] in intersection
  {
    HoldersAreCovered(filters, sets, inputs[e], |sets|);
    HoldersCounted(sets, inputs[e], |sets|);
    CoversCounted(filters, inputs[e], CoverFlags(filters, inputs[e]), |filters|);
    SelectContains(inputs, flags, e);
  }
}
