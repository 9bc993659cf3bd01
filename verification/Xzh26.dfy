/**
 XZH26: the leader encrypts its Bloom filter under the joint key, every client tests its elements on
 the encrypted filter and hands the results over by a table OPPRF keyed with a Diffie-Hellman PRF, the
 leader adds what it received per element, and all parties decrypt.
 */
module Xzh26 {
  import opened NumberTheory
  import opened HashParameters
  import opened CuckooHashing
  import Simple = SimpleHashing
  import opened BinSets
  import opened BitPositions
  import opened Groups
  import opened Opprf
  import opened OpprfTransfer
  import opened ElGamal

  // ---------------------------------------------------------------- the encrypted Bloom filter

  // Every element has at least one position, all inside the filter.
  ghost predicate FilterPositions<E(!new)>(positions: E -> seq<nat>, size: nat) {
    forall e :: |positions(e)| > 0 && forall k :: 0 <= k < |positions(e)| ==> positions(e)[k] < size
  }

  // Insert, for every element of the set.
  method FillFilter<E(!new)>(set_: seq<E>, positions: E -> seq<nat>, size: nat) returns (bits: seq<bool>)
    requires FilterPositions(positions, size)
    ensures |bits| == size
    ensures forall b :: 0 <= b < size ==> (bits[b] <==> exists i :: 0 <= i < |set_| && b in positions(set_[i]))
  {
    bits := seq(size, _ => false);
    for i := 0 to |set_|
      invariant |bits| == size
      invariant forall b :: 0 <= b < size ==> (bits[b] <==> exists k :: 0 <= k < i && b in positions(set_[k]))
    {
      ghost var before := bits;
      var ps := positions(set_[i]);
      for k := 0 to |ps|
        invariant |bits| == size
        invariant forall b :: 0 <= b < size ==> (bits[b] <==> before[b] || b in ps[..k])
      {
        bits := bits[ps[k] := true];
      }
      assert ps[..|ps|] == ps;
    }
  }

  // A filter cell: a clear bit hides two random points, a set bit an encryption of the identity.
  datatype CellDraw = CellDraw(first: Point, second: Point, r: nat)

  method EncryptFilter(g: Group, bits: seq<bool>, beta: Point, draws: seq<CellDraw>, ghost secret: nat)
    returns (ebf: seq<Cipher>)
    requires IsGroup(g) && beta == Times(g, secret, g.base) && |draws| == |bits|
    requires forall b :: 0 <= b < |draws| ==> g.valid(draws[b].first) && g.valid(draws[b].second)
    ensures |ebf| == |bits| && forall b :: 0 <= b < |bits| ==> ValidCipher(g, ebf[b])
    ensures forall b :: 0 <= b < |bits| && bits[b] ==>
      PlainOf(g, secret, ebf[b]) == ZERO_POINT && ebf[b].c1 == Times(g, draws[b].r, g.base)
    ensures forall b :: 0 <= b < |bits| && !bits[b] ==> ebf[b] == Cipher(draws[b].first, draws[b].second)
  {
    ebf := [];
    for b := 0 to |bits|
      invariant |ebf| == b && forall k :: 0 <= k < b ==> ValidCipher(g, ebf[k])
      invariant forall k :: 0 <= k < b && bits[k] ==>
        PlainOf(g, secret, ebf[k]) == ZERO_POINT && ebf[k].c1 == Times(g, draws[k].r, g.base)
      invariant forall k :: 0 <= k < b && !bits[k] ==> ebf[k] == Cipher(draws[k].first, draws[k].second)
    {
      var cell;
      if !bits[b] {
        cell := Cipher(draws[b].first, draws[b].second);
      } else {
        cell := Encrypt(g, ZERO_POINT, beta, draws[b].r);
      }
      ebf := ebf + [cell];
    }
  }

  // ---------------------------------------------------------------- the client's test

  // The plaintext of the sum of some cells.
  function CellSum(g: Group, secret: nat, ebf: seq<Cipher>, ps: seq<nat>): Point
    requires g.order > 0 && forall k :: 0 <= k < |ps| ==> ps[k] < |ebf|
  {
    if |ps| == 0 then ZERO_POINT
    else g.add(CellSum(g, secret, ebf, ps[..|ps| - 1]), PlainOf(g, secret, ebf[ps[|ps| - 1]]))
  }

  // The sum of no cells is the identity, and a cell more adds what it opens to.
  lemma {:induction false} CellSumGrows(g: Group, secret: nat, ebf: seq<Cipher>, ps: seq<nat>, b: nat)
    requires g.order > 0 && b < |ebf| && forall k :: 0 <= k < |ps| ==> ps[k] < |ebf|
    ensures CellSum(g, secret, ebf, []) == ZERO_POINT
    ensures CellSum(g, secret, ebf, ps + [b]) == g.add(CellSum(g, secret, ebf, ps), PlainOf(g, secret, ebf[b]))
  {
    assert (ps + [b])[..|ps|] == ps;
  }

  // The first components of some cells.
  function Firsts(ebf: seq<Cipher>, ps: seq<nat>): (r: seq<Point>)
    requires forall k :: 0 <= k < |ps| ==> ps[k] < |ebf|
    ensures |r| == |ps| && forall k :: 0 <= k < |r| ==> r[k] == ebf[ps[k]].c1
  {
    seq<Point>(|ps|, k requires 0 <= k < |ps| => ebf[ps[k]].c1)
  }

  lemma {:induction false} CellSumValid(g: Group, secret: nat, ebf: seq<Cipher>, ps: seq<nat>)
    requires Laws(g) && g.order > 0 && forall k :: 0 <= k < |ps| ==> ps[k] < |ebf| && ValidCipher(g, ebf[ps[k]])
    ensures g.valid(CellSum(g, secret, ebf, ps))
  {
    if |ps| > 0 {
      CellSumValid(g, secret, ebf, ps[..|ps| - 1]);
      PlainValid(g, secret, ebf[ps[|ps| - 1]]);
      AddValid(g, CellSum(g, secret, ebf, ps[..|ps| - 1]), PlainOf(g, secret, ebf[ps[|ps| - 1]]));
    }
  }

  lemma {:induction false} CellSumZero(g: Group, secret: nat, ebf: seq<Cipher>, ps: seq<nat>)
    requires Laws(g) && g.order > 0 && forall k :: 0 <= k < |ps| ==> ps[k] < |ebf|
    requires forall k :: 0 <= k < |ps| ==> PlainOf(g, secret, ebf[ps[k]]) == ZERO_POINT
    ensures CellSum(g, secret, ebf, ps) == ZERO_POINT
  {
    if |ps| > 0 {
      CellSumZero(g, secret, ebf, ps[..|ps| - 1]);
      AddZero(g, ZERO_POINT);
    }
  }

  // One element: add up its cells, then refresh with an encryption of the identity.
  method TestElement(g: Group, ebf: seq<Cipher>, ps: seq<nat>, beta: Point, r: nat, ghost secret: nat)
    returns (result: Cipher)
    requires IsGroup(g) && beta == Times(g, secret, g.base) && |ps| > 0
    requires forall k :: 0 <= k < |ps| ==> ps[k] < |ebf| && ValidCipher(g, ebf[ps[k]])
    ensures ValidCipher(g, result) && PlainOf(g, secret, result) == CellSum(g, secret, ebf, ps)
    ensures result.c1 == g.add(SumPoints(g, Firsts(ebf, ps)), Times(g, r, g.base))
  {
    result := SumCells(g, ebf, ps, secret);
    var zeros := Encrypt(g, ZERO_POINT, beta, r);
    HomoAddOpens(g, secret, result, zeros);
    PlainValid(g, secret, result);
    AddZero(g, PlainOf(g, secret, result));
    result := HomoAdd(g, result, zeros);
  }

  method SumCells(g: Group, ebf: seq<Cipher>, ps: seq<nat>, ghost secret: nat) returns (result: Cipher)
    requires IsGroup(g) && |ps| > 0
    requires forall k :: 0 <= k < |ps| ==> ps[k] < |ebf| && ValidCipher(g, ebf[ps[k]])
    ensures ValidCipher(g, result) && PlainOf(g, secret, result) == CellSum(g, secret, ebf, ps)
    ensures result.c1 == SumPoints(g, Firsts(ebf, ps))
  {
    result := ebf[ps[0]];
    CellSumFirst(g, secret, ebf, ps);
    ghost var firsts := Firsts(ebf, ps);
    SumsGrow(g, [], firsts[0], [], 0);
    AddZero(g, firsts[0]);
    assert firsts[..1] == [] + [firsts[0]];
    for j := 1 to |ps|
      invariant CellsAdded(g, secret, ebf, ps, j, result)
    {
      result := AddCell(g, ebf, ps, j, result, secret);
    }
    assert ps[..|ps|] == ps && firsts[..|ps|] == firsts;
  }

  // The sum of the first j cells, message and first component.
  ghost predicate CellsAdded(g: Group, secret: nat, ebf: seq<Cipher>, ps: seq<nat>, j: nat, sum: Cipher)
    requires g.order > 0 && j <= |ps| && forall k :: 0 <= k < |ps| ==> ps[k] < |ebf|
  {
    ValidCipher(g, sum) && PlainOf(g, secret, sum) == CellSum(g, secret, ebf, ps[..j]) && sum.c1 == SumPoints(g, Firsts(ebf, ps)[..j])
  }

  method AddCell(g: Group, ebf: seq<Cipher>, ps: seq<nat>, j: nat, sum: Cipher, ghost secret: nat) returns (next: Cipher)
    requires IsGroup(g) && j < |ps| && forall k :: 0 <= k < |ps| ==> ps[k] < |ebf| && ValidCipher(g, ebf[ps[k]])
    requires CellsAdded(g, secret, ebf, ps, j, sum)
    ensures CellsAdded(g, secret, ebf, ps, j + 1, next)
  {
    ghost var firsts := Firsts(ebf, ps);
    assert ps[..j + 1] == ps[..j] + [ps[j]] && firsts[..j + 1] == firsts[..j] + [firsts[j]];
    CellSumGrows(g, secret, ebf, ps[..j], ps[j]);
    HomoAddOpens(g, secret, sum, ebf[ps[j]]);
    SumsGrow(g, firsts[..j], firsts[j], [], 0);
    next := HomoAdd(g, sum, ebf[ps[j]]);
  }

  lemma {:induction false} CellSumFirst(g: Group, secret: nat, ebf: seq<Cipher>, ps: seq<nat>)
    requires Laws(g) && g.order > 0 && |ps| > 0
    requires forall k :: 0 <= k < |ps| ==> ps[k] < |ebf| && ValidCipher(g, ebf[ps[k]])
    ensures CellSum(g, secret, ebf, ps[..1]) == PlainOf(g, secret, ebf[ps[0]])
  {
    var one := ps[..1];
    assert one[..0] == [] && CellSum(g, secret, ebf, one[..0]) == ZERO_POINT;
    PlainValid(g, secret, ebf[ps[0]]);
    AddZero(g, PlainOf(g, secret, ebf[ps[0]]));
  }

  // All elements of one client.
  method TestAll<E(!new)>(g: Group, ebf: seq<Cipher>, elements: seq<E>, positions: E -> seq<nat>, beta: Point,
                          refresh: seq<nat>, ghost secret: nat)
    returns (results: seq<Cipher>)
    requires IsGroup(g) && beta == Times(g, secret, g.base) && |refresh| == |elements|
    requires FilterPositions(positions, |ebf|) && forall b :: 0 <= b < |ebf| ==> ValidCipher(g, ebf[b])
    ensures |results| == |elements| && forall i :: 0 <= i < |elements| ==>
      ValidCipher(g, results[i]) && PlainOf(g, secret, results[i]) == CellSum(g, secret, ebf, positions(elements[i]))
    ensures forall i :: 0 <= i < |elements| ==>
      results[i].c1 == g.add(SumPoints(g, Firsts(ebf, positions(elements[i]))), Times(g, refresh[i], g.base))
  {
    results := [];
    for i := 0 to |elements|
      invariant |results| == i && forall k :: 0 <= k < i ==>
        results[k].c1 == g.add(SumPoints(g, Firsts(ebf, positions(elements[k]))), Times(g, refresh[k], g.base))
      invariant |results| == i && forall k :: 0 <= k < i ==>
        ValidCipher(g, results[k]) && PlainOf(g, secret, results[k]) == CellSum(g, secret, ebf, positions(elements[k]))
    {
      var result := TestElement(g, ebf, positions(elements[i]), beta, refresh[i], secret);
      results := results + [result];
    }
  }

  // ---------------------------------------------------------------- the Diffie-Hellman PRF

  /** Unblinding: multiplying by the inverse of the blinding factor gives the client's own value. */
  lemma {:induction false} Unblind(g: Group, h: Point, r: nat, k: nat, inv: nat)
    requires IsGroup(g) && g.valid(h) && Cong(r * inv, 1, g.order)
    ensures Times(g, inv, Times(g, k, Times(g, r, h))) == Times(g, k, h)
  {
    TimesTimes(g, k, r, h);
    TimesTimes(g, inv, k * r, h);
    assert inv * (k * r) == k * (r * inv) by { Assoc(inv, k, r); Assoc(k, r, inv); Assoc(k, inv, r); }
    CongMul(k, k, r * inv, 1, g.order);
    TimesCong(g, inv * (k * r), k, h);
  }

  // A key that is not 0 modulo the order keeps different points different.
  lemma {:induction false} KeyInjective(g: Group, k: nat, p: Point, q: Point)
    requires IsGroup(g) && g.valid(p) && g.valid(q) && k % g.order != 0 && Times(g, k, p) == Times(g, k, q)
    ensures p == q
  {
    PrimeUnit(g.order, k);
    var x :| Cong(k * x, 1, g.order);
    var inv := x % g.order;
    CongMod(x, g.order);
    CongMul(k, k, inv, x, g.order);
    ScaledBack(g, inv, k, p);
    ScaledBack(g, inv, k, q);
  }

  lemma {:induction false} ScaledBack(g: Group, inv: nat, k: nat, p: Point)
    requires IsGroup(g) && g.valid(p) && Cong(k * inv, 1, g.order)
    ensures Times(g, inv, Times(g, k, p)) == p
  {
    TimesTimes(g, inv, k, p);
    TimesCong(g, inv * k, 1, p);
    assert Times(g, 1, p) == g.add(Times(g, 0, p), p);
    AddZero(g, p);
  }

  // The client's values: its key times the hash of each element.
  method ClientValues<E>(g: Group, elements: seq<E>, toPoint: E -> Point, k: nat) returns (values: seq<Point>)
    ensures |values| == |elements| && forall i :: 0 <= i < |elements| ==> values[i] == Times(g, k, toPoint(elements[i]))
  {
    values := [];
    for i := 0 to |elements|
      invariant |values| == i && forall j :: 0 <= j < i ==> values[j] == Times(g, k, toPoint(elements[j]))
    {
      values := values + [Times(g, k, toPoint(elements[i]))];
    }
  }

  // The leader's side: blind, let the client multiply by its key, unblind.
  method LeaderValues<E>(g: Group, elements: seq<E>, toPoint: E -> Point, blinds: seq<nat>, k: nat)
    returns (values: seq<Point>)
    requires IsGroup(g) && |blinds| == |elements|
    requires forall i :: 0 <= i < |elements| ==> g.valid(toPoint(elements[i])) && blinds[i] % g.order != 0
    ensures |values| == |elements| && forall i :: 0 <= i < |elements| ==> values[i] == Times(g, k, toPoint(elements[i]))
  {
    values := [];
    for i := 0 to |elements|
      invariant |values| == i && forall j :: 0 <= j < i ==> values[j] == Times(g, k, toPoint(elements[j]))
    {
      var h, r := toPoint(elements[i]), blinds[i];
      var blinded := Times(g, r, h);
      var processed := Times(g, k, blinded);
      PrimeUnit(g.order, r);
      var inv := InvMod(r, g.order);
      Unblind(g, h, r, k, inv.value);
      values := values + [Times(g, inv.value, processed)];
    }
  }

  // ---------------------------------------------------------------- one client

  // What all parties agree on: the group, the table parameters and the public functions of an element.
  datatype Scheme<!E> = Scheme(g: Group, p: HashParams, size: nat, positions: E -> seq<nat>, hashes: E -> seq<nat>,
                               toPoint: E -> Point)

  ghost predicate ValidScheme<E(!new)>(s: Scheme<E>) {
    && IsGroup(s.g) && Tabled(s.p) && FullRows(s.p, s.hashes) && FilterPositions(s.positions, s.size)
    && forall e :: s.g.valid(s.toPoint(e))
  }

  // A client's set and draws, and the leader's blinding factors for it.
  datatype Client<E> = Client(elements: seq<E>, secret: nat, key: nat, refresh: seq<nat>, blinds: seq<nat>,
                              raw1: seq<seq<nat>>, raw2: seq<seq<nat>>)

  // Scalars are drawn nonzero, and the client's elements hash to different points.
  ghost predicate ValidClient<E(!new)>(s: Scheme<E>, c: Client<E>)
    requires |s.p.region| == 2 && s.g.order > 0
  {
    && |c.elements| == |c.refresh| == |c.blinds| == s.p.n && |c.raw1| == |c.raw2| == s.p.Bins()
    && c.key % s.g.order != 0 && (forall i :: 0 <= i < |c.blinds| ==> c.blinds[i] % s.g.order != 0)
    && forall i, j :: 0 <= i < j < |c.elements| ==> s.toPoint(c.elements[i]) != s.toPoint(c.elements[j])
  }

  // The leader's item i holds the client's test result for the same element.
  ghost predicate Handed<E>(mine: seq<E>, theirs: seq<E>, tests: seq<Cipher>, received: seq<Cipher>) {
    && |tests| == |theirs| && |received| == |mine|
    && forall i, j :: 0 <= i < |mine| && 0 <= j < |theirs| && theirs[j] == mine[i] ==> received[i] == tests[j]
  }

  // Every test result opens to the sum of the plaintexts of the element's cells.
  ghost predicate Tested<E(!new)>(s: Scheme<E>, secret: nat, ebf: seq<Cipher>, elements: seq<E>, tests: seq<Cipher>)
    requires s.g.order > 0 && FilterPositions(s.positions, |ebf|)
  {
    |tests| == |elements| && forall j :: 0 <= j < |elements| ==>
      ValidCipher(s.g, tests[j]) && PlainOf(s.g, secret, tests[j]) == CellSum(s.g, secret, ebf, s.positions(elements[j]))
  }

  function FirstOf(cs: seq<Cipher>): (r: seq<Point>)
    ensures |r| == |cs| && forall i :: 0 <= i < |r| ==> r[i] == cs[i].c1
  {
    seq<Point>(|cs|, i requires 0 <= i < |cs| => cs[i].c1)
  }

  function SecondOf(cs: seq<Cipher>): (r: seq<Point>)
    ensures |r| == |cs| && forall i :: 0 <= i < |r| ==> r[i] == cs[i].c2
  {
    seq<Point>(|cs|, i requires 0 <= i < |cs| => cs[i].c2)
  }

  // Both components of everything received are what the receiver's values read.
  ghost predicate BothRead(g: Group, p: HashParams, bins: seq<Simple.Bin>, oprf: seq<Point>, raw1: seq<seq<nat>>, raw2: seq<seq<nat>>,
                           tests: seq<Cipher>, mine: seq<nat>, keys: seq<Point>, received: seq<Cipher>)
    requires |p.region| == 2 && |bins| == |raw1| == |raw2| == |mine|
  {
    && AllRead(g, p, bins, oprf, raw1, FirstOf(tests), mine, keys, FirstOf(received))
    && AllRead(g, p, bins, oprf, raw2, SecondOf(tests), mine, keys, SecondOf(received))
  }

  // Two transfers, one per ciphertext component.
  method TransferBoth<E(!new)>(s: Scheme<E>, sender: Simple.SimpleHasher, receiver: CuckooHasher, senderOprf: seq<Point>,
                               receiverOprf: seq<Point>, tests: seq<Cipher>, raw1: seq<seq<nat>>, raw2: seq<seq<nat>>,
                               ghost theirs: seq<E>, ghost mine: seq<E>, ghost hash: nat -> seq<nat>, ghost hash': nat -> seq<nat>)
    returns (r: Option<seq<Cipher>>)
    requires Laws(s.g) && Tabled(s.p) && sender.params == s.p && receiver.params == s.p
    requires |theirs| == |mine| == |tests| == s.p.n && forall j :: 0 <= j < |tests| ==> ValidCipher(s.g, tests[j])
    requires sender.Valid(hash', FirstItems(|theirs|)) && HashesOf(hash', theirs, s.hashes)
    requires receiver.Valid(hash) && HashesOf(hash, mine, s.hashes) && OnceEach(Indices(receiver.mBins), |mine|)
    requires Oprfs(s.g, theirs, mine, senderOprf, receiverOprf) && |raw1| == |raw2| == |sender.mBins|
    ensures r.Some? <==> AllWork(s.p, sender.mBins, senderOprf, raw1) && AllWork(s.p, sender.mBins, senderOprf, raw2)
    ensures r.Some? ==> Handed(mine, theirs, tests, r.value)
    ensures r.Some? ==> forall i :: 0 <= i < |r.value| ==> ValidCipher(s.g, r.value[i])
    ensures r.Some? ==>
      BothRead(s.g, s.p, sender.mBins, senderOprf, raw1, raw2, tests, receiver.mBins, receiverOprf, r.value)
  {
    var first, second := FirstOf(tests), SecondOf(tests);
    var got1 := Transfer(s.g, sender, receiver, senderOprf, receiverOprf, first, raw1, theirs, mine, s.hashes, hash, hash');
    if !got1.Done? {
      return None;
    }
    var got2 := Transfer(s.g, sender, receiver, senderOprf, receiverOprf, second, raw2, theirs, mine, s.hashes, hash, hash');
    if !got2.Done? {
      return None;
    }
    var received := seq<Cipher>(|got1.points|, i requires 0 <= i < |got1.points| && i < |got2.points| => Cipher(got1.points[i], got2.points[i]));
    assert FirstOf(received) == got1.points && SecondOf(received) == got2.points;
    r := Some(received);
  }

  // The PRF values a client keys its table with.
  function ClientOprf<E>(s: Scheme<E>, c: Client<E>): (r: seq<Point>)
    ensures |r| == |c.elements| && forall i :: 0 <= i < |r| ==> r[i] == Times(s.g, c.key, s.toPoint(c.elements[i]))
  {
    seq<Point>(|c.elements|, i requires 0 <= i < |c.elements| => Times(s.g, c.key, s.toPoint(c.elements[i])))
  }

  // The values the leader has after unblinding.
  function LeaderOprf<E>(s: Scheme<E>, key: nat, mine: seq<E>): (r: seq<Point>)
    ensures |r| == |mine| && forall i :: 0 <= i < |r| ==> r[i] == Times(s.g, key, s.toPoint(mine[i]))
  {
    seq<Point>(|mine|, i requires 0 <= i < |mine| => Times(s.g, key, s.toPoint(mine[i])))
  }

  // What a client hands over is what the leader's values read in the client's table.
  ghost predicate ClientRead<E(!new)>(s: Scheme<E>, c: Client<E>, mine: seq<E>, bins: seq<nat>, tests: seq<Cipher>, received: seq<Cipher>)
    requires s.p.Usable()
  {
    && |c.raw1| == |c.raw2| == |bins| == s.p.Bins()
    && BothRead(s.g, s.p, SimpleTable(s.p, ItemHash(c.elements, s.hashes), s.p.n), ClientOprf(s, c), c.raw1, c.raw2, tests,
                bins, LeaderOprf(s, c.key, mine), received)
  }

  // A client gets through: its stash does not overflow, and in both transfers every occupied bin's
  // search ends with separating positions.
  ghost predicate ClientCompletes<E(!new)>(s: Scheme<E>, c: Client<E>)
    requires s.p.Usable()
  {
    && |c.raw1| == |c.raw2| == s.p.Bins() && HashingFits(s.p, ItemHash(c.elements, s.hashes))
    && AllWork(s.p, SimpleTable(s.p, ItemHash(c.elements, s.hashes), s.p.n), ClientOprf(s, c), c.raw1)
    && AllWork(s.p, SimpleTable(s.p, ItemHash(c.elements, s.hashes), s.p.n), ClientOprf(s, c), c.raw2)
  }

  ghost predicate AllComplete<E(!new)>(s: Scheme<E>, clients: seq<Client<E>>, upto: nat)
    requires s.p.Usable() && upto <= |clients|
  {
    forall c :: 0 <= c < upto ==> ClientCompletes(s, clients[c])
  }

  /** A client's whole part: test its elements, fill its tables, compute the PRF with the leader, hand
      over. It completes exactly when its stash does not overflow and both transfers do. */
  method ClientPart<E(!new)>(s: Scheme<E>, c: Client<E>, ebf: seq<Cipher>, beta: Point, mine: seq<E>, receiver: CuckooHasher,
                             ghost hash: nat -> seq<nat>, ghost secret: nat)
    returns (r: Option<seq<Cipher>>, ghost tests: seq<Cipher>)
    requires ValidScheme(s) && ValidClient(s, c) && beta == Times(s.g, secret, s.g.base) && |mine| == s.p.n
    requires |ebf| == s.size && forall b :: 0 <= b < |ebf| ==> ValidCipher(s.g, ebf[b])
    requires receiver.params == s.p && receiver.Valid(hash) && HashesOf(hash, mine, s.hashes)
    requires OnceEach(Indices(receiver.mBins), |mine|)
    ensures r.Some? <==> ClientCompletes(s, c)
    ensures r.Some? ==> Tested(s, secret, ebf, c.elements, tests) && Handed(mine, c.elements, tests, r.value)
    ensures r.Some? ==> forall i :: 0 <= i < |r.value| ==> ValidCipher(s.g, r.value[i])
    ensures r.Some? ==> ClientRead(s, c, mine, receiver.mBins, tests, r.value)
  {
    var results := TestAll(s.g, ebf, c.elements, s.positions, beta, c.refresh, secret);
    tests := results;
    r := HandOver(s, c, results, mine, receiver, hash);
  }

  // Both sides' PRF values.
  method PrfValues<E(!new)>(s: Scheme<E>, c: Client<E>, mine: seq<E>) returns (senderOprf: seq<Point>, receiverOprf: seq<Point>)
    requires ValidScheme(s) && ValidClient(s, c) && |mine| == s.p.n
    ensures senderOprf == ClientOprf(s, c) && receiverOprf == LeaderOprf(s, c.key, mine)
    ensures Oprfs(s.g, c.elements, mine, senderOprf, receiverOprf)
  {
    senderOprf := ClientValues(s.g, c.elements, s.toPoint, c.key);
    receiverOprf := LeaderValues(s.g, mine, s.toPoint, c.blinds, c.key);
    OprfsAgree(s, c, mine, senderOprf, receiverOprf);
  }

  // The client's tables and the two transfers.
  method HandOver<E(!new)>(s: Scheme<E>, c: Client<E>, results: seq<Cipher>, mine: seq<E>, receiver: CuckooHasher,
                           ghost hash: nat -> seq<nat>)
    returns (r: Option<seq<Cipher>>)
    requires ValidScheme(s) && ValidClient(s, c) && |mine| == s.p.n
    requires |results| == |c.elements| && forall j :: 0 <= j < |results| ==> ValidCipher(s.g, results[j])
    requires receiver.params == s.p && receiver.Valid(hash) && HashesOf(hash, mine, s.hashes)
    requires OnceEach(Indices(receiver.mBins), |mine|)
    ensures r.Some? <==> ClientCompletes(s, c)
    ensures r.Some? ==> Handed(mine, c.elements, results, r.value)
    ensures r.Some? ==> forall i :: 0 <= i < |r.value| ==> ValidCipher(s.g, r.value[i])
    ensures r.Some? ==> ClientRead(s, c, mine, receiver.mBins, results, r.value)
  {
    var bins := new BinSet<E>(s.p);
    ghost var hash' := ItemHash(c.elements, s.hashes);
    var ok := bins.Hashing2Bins(c.elements, s.hashes, hash');
    if !ok {
      return None;
    }
    var senderOprf, receiverOprf := PrfValues(s, c, mine);
    r := TransferBoth(s, bins.mSimpleBins, receiver, senderOprf, receiverOprf, results, c.raw1, c.raw2,
                      c.elements, mine, hash, hash');
  }

  lemma {:induction false} OprfsAgree<E(!new)>(s: Scheme<E>, c: Client<E>, mine: seq<E>, senderOprf: seq<Point>, receiverOprf: seq<Point>)
    requires ValidScheme(s) && ValidClient(s, c) && |senderOprf| == |c.elements| && |receiverOprf| == |mine|
    requires forall j :: 0 <= j < |c.elements| ==> senderOprf[j] == Times(s.g, c.key, s.toPoint(c.elements[j]))
    requires forall i :: 0 <= i < |mine| ==> receiverOprf[i] == Times(s.g, c.key, s.toPoint(mine[i]))
    ensures Oprfs(s.g, c.elements, mine, senderOprf, receiverOprf)
  {
    forall j | 0 <= j < |c.elements|
      ensures s.g.valid(senderOprf[j])
    {
      TimesValid(s.g, c.key, s.toPoint(c.elements[j]));
    }
    forall i | 0 <= i < |mine|
      ensures s.g.valid(receiverOprf[i])
    {
      TimesValid(s.g, c.key, s.toPoint(mine[i]));
    }
    forall i, j | 0 <= i < j < |senderOprf|
      ensures senderOprf[i] != senderOprf[j]
    {
      if senderOprf[i] == senderOprf[j] {
        KeyInjective(s.g, c.key, s.toPoint(c.elements[i]), s.toPoint(c.elements[j]));
      }
    }
  }

  // ---------------------------------------------------------------- the leader

  // The sum over all clients of what the leader's item i opens to.
  function PlainSum(g: Group, secret: nat, delivered: seq<seq<Cipher>>, i: nat): Point
    requires g.order > 0 && forall c :: 0 <= c < |delivered| ==> i < |delivered[c]|
  {
    if |delivered| == 0 then ZERO_POINT
    else g.add(PlainSum(g, secret, delivered[..|delivered| - 1], i), PlainOf(g, secret, delivered[|delivered| - 1][i]))
  }

  /** The sum of no rows is the identity, and a row more adds what its entry opens to. */
  lemma {:induction false} PlainSumGrows(g: Group, secret: nat, delivered: seq<seq<Cipher>>, received: seq<Cipher>, i: nat)
    requires g.order > 0 && i < |received| && forall c :: 0 <= c < |delivered| ==> i < |delivered[c]|
    ensures PlainSum(g, secret, [], i) == ZERO_POINT
    ensures PlainSum(g, secret, delivered + [received], i) == g.add(PlainSum(g, secret, delivered, i), PlainOf(g, secret, received[i]))
  {
    assert (delivered + [received])[..|delivered|] == delivered;
  }

  ghost predicate ValidRows(g: Group, delivered: seq<seq<Cipher>>, n: nat) {
    forall c :: 0 <= c < |delivered| ==> |delivered[c]| == n && forall i :: 0 <= i < n ==> ValidCipher(g, delivered[c][i])
  }

  // The running totals open to the sums so far.
  ghost predicate Totals(g: Group, secret: nat, delivered: seq<seq<Cipher>>, totals: seq<Cipher>)
    requires g.order > 0
  {
    && ValidRows(g, delivered, |totals|)
    && forall i :: 0 <= i < |totals| ==>
      ValidCipher(g, totals[i]) && PlainOf(g, secret, totals[i]) == PlainSum(g, secret, delivered, i)
  }

  lemma {:induction false} ZeroTotals(g: Group, secret: nat, n: nat)
    requires IsGroup(g)
    ensures Totals(g, secret, [], seq<Cipher>(n, _ => Cipher(ZERO_POINT, ZERO_POINT)))
  {
    TimesZero(g, Negate(g, secret));
    AddZero(g, ZERO_POINT);
  }

  // One client's points are added to the totals.
  method Accumulate(g: Group, totals: seq<Cipher>, received: seq<Cipher>, ghost secret: nat, ghost delivered: seq<seq<Cipher>>)
    returns (totals': seq<Cipher>)
    requires IsGroup(g) && Totals(g, secret, delivered, totals) && ValidRows(g, [received], |totals|)
    ensures |totals'| == |totals| == |received| && Totals(g, secret, delivered + [received], totals')
    ensures forall i :: 0 <= i < |totals| ==>
      PlainOf(g, secret, totals'[i]) == g.add(PlainOf(g, secret, totals[i]), PlainOf(g, secret, received[i]))
  {
    totals' := [];
    ghost var all := delivered + [received];
    assert all[..|all| - 1] == delivered;
    assert |[received][0]| == |totals|;
    for i := 0 to |totals|
      invariant |totals'| == i && forall k :: 0 <= k < i ==>
        ValidCipher(g, totals'[k]) && PlainOf(g, secret, totals'[k]) == g.add(PlainSum(g, secret, delivered, k), PlainOf(g, secret, received[k]))
    {
      assert ValidCipher(g, [received][0][i]);
      HomoAddOpens(g, secret, totals[i], received[i]);
      totals' := totals' + [HomoAdd(g, totals[i], received[i])];
    }
    AllValidRows(g, delivered, received, |totals|);
  }

  lemma {:induction false} AllValidRows(g: Group, delivered: seq<seq<Cipher>>, received: seq<Cipher>, n: nat)
    requires ValidRows(g, delivered, n) && ValidRows(g, [received], n)
    ensures ValidRows(g, delivered + [received], n)
  {
    forall c | 0 <= c < |delivered| + 1
      ensures |(delivered + [received])[c]| == n
      ensures forall i :: 0 <= i < n ==> ValidCipher(g, (delivered + [received])[c][i])
    {
      if c < |delivered| {
        assert (delivered + [received])[c] == delivered[c];
      } else {
        assert (delivered + [received])[c] == [received][0];
      }
    }
  }

  // Joint decryption: the clients' shares, then the leader's; an identity marks the element.
  method DecryptTotals(g: Group, totals: seq<Cipher>, clientSecrets: seq<nat>, leaderSecret: nat,
                       ghost secret: nat, ghost delivered: seq<seq<Cipher>>)
    returns (result: seq<bool>)
    requires IsGroup(g) && Totals(g, secret, delivered, totals) && secret == SumScalars(clientSecrets + [leaderSecret])
    ensures |result| == |totals|
    ensures forall i :: 0 <= i < |totals| ==> (result[i] <==> PlainSum(g, secret, delivered, i) == ZERO_POINT)
  {
    result := [];
    for j := 0 to |totals|
      invariant |result| == j && forall i :: 0 <= i < j ==> (result[i] <==> PlainSum(g, secret, delivered, i) == ZERO_POINT)
    {
      var mark := DecryptOne(g, totals[j], clientSecrets + [leaderSecret]);
      result := result + [mark];
    }
  }

  // One total: all shares are added to its second component.
  method DecryptOne(g: Group, total: Cipher, secrets: seq<nat>) returns (mark: bool)
    requires IsGroup(g) && ValidCipher(g, total)
    ensures mark <==> PlainOf(g, SumScalars(secrets), total) == ZERO_POINT
  {
    var shares := Shares(g, secrets, total.c1);
    SharesSum(g, secrets, total.c1);
    var res := FullyDecrypt(g, shares, total.c2);
    JointlyOpens(g, secrets, total);
    mark := res == ZERO_POINT;
  }

  lemma {:induction false} SumScalarsFront(a: nat, xs: seq<nat>)
    ensures SumScalars([a] + xs) == a + SumScalars(xs) == SumScalars(xs + [a])
  {
    assert (xs + [a])[..|xs|] == xs;
    if |xs| == 0 {
      assert ([a] + xs)[..0] == [];
    } else {
      var front := xs[..|xs| - 1];
      assert ([a] + xs)[..|xs|] == [a] + front;
      SumScalarsFront(a, front);
    }
  }

  function Secrets<E>(clients: seq<Client<E>>): (r: seq<nat>)
    ensures |r| == |clients|
  {
    seq(|clients|, c requires 0 <= c < |clients| => clients[c].secret)
  }

  // The leader's filter: set bits encrypt the identity, clear ones hold the drawn points.
  ghost predicate FilterOf<E(!new)>(s: Scheme<E>, secret: nat, mine: seq<E>, cells: seq<CellDraw>, ebf: seq<Cipher>)
    requires s.g.order > 0
  {
    && |ebf| == s.size == |cells| && (forall b :: 0 <= b < |ebf| ==> ValidCipher(s.g, ebf[b]))
    && (forall i, b :: 0 <= i < |mine| && 0 <= b < |ebf| && b in s.positions(mine[i]) ==> PlainOf(s.g, secret, ebf[b]) == ZERO_POINT)
    && forall b :: 0 <= b < |ebf| && (forall i :: 0 <= i < |mine| ==> b !in s.positions(mine[i])) ==>
         ebf[b] == Cipher(cells[b].first, cells[b].second)
  }

  method LeaderFilter<E(!new)>(s: Scheme<E>, mine: seq<E>, beta: Point, draws: seq<CellDraw>, ghost secret: nat)
    returns (ebf: seq<Cipher>)
    requires ValidScheme(s) && beta == Times(s.g, secret, s.g.base) && |draws| == s.size
    requires forall b :: 0 <= b < |draws| ==> s.g.valid(draws[b].first) && s.g.valid(draws[b].second)
    ensures FilterOf(s, secret, mine, draws, ebf)
  {
    var bits := FillFilter(mine, s.positions, s.size);
    ebf := EncryptFilter(s.g, bits, beta, draws, secret);
  }

  // Everything the clients handed over for the leader's items, with the tests it came from.
  ghost predicate AllHanded<E(!new)>(s: Scheme<E>, secret: nat, ebf: seq<Cipher>, mine: seq<E>, clients: seq<Client<E>>,
                                     tests: seq<seq<Cipher>>, delivered: seq<seq<Cipher>>, upto: nat)
    requires s.g.order > 0 && FilterPositions(s.positions, |ebf|)
  {
    && |tests| == |delivered| == upto <= |clients|
    && forall c :: 0 <= c < upto ==>
      Tested(s, secret, ebf, clients[c].elements, tests[c]) && Handed(mine, clients[c].elements, tests[c], delivered[c])
  }

  ghost predicate AllClientsRead<E(!new)>(s: Scheme<E>, mine: seq<E>, bins: seq<nat>, clients: seq<Client<E>>,
                                          tests: seq<seq<Cipher>>, delivered: seq<seq<Cipher>>, upto: nat)
    requires s.p.Usable()
  {
    && |tests| == |delivered| == upto <= |clients|
    && forall c :: 0 <= c < upto ==> ClientRead(s, clients[c], mine, bins, tests[c], delivered[c])
  }

  // The leader reads in the bins its hashing leads to.
  ghost predicate ReadFromTables<E(!new)>(s: Scheme<E>, mine: seq<E>, clients: seq<Client<E>>, tests: seq<seq<Cipher>>,
                                          delivered: seq<seq<Cipher>>)
    requires s.p.Usable()
  {
    AllClientsRead(s, mine, CuckooOutcome(s.p, ItemHash(mine, s.hashes)).bins, clients, tests, delivered, |clients|)
  }

  /** What the leader reads, client by client: both components of every item come, as `OpprfTransfer.ReadMeans` says,
      out of the bin its hashing put the item in, from the client's simple table, keyed with the client's multiples
      of its elements' points, read with the same multiple of the item's point. */
  lemma {:induction false} ReadPerClient<E(!new)>(s: Scheme<E>, mine: seq<E>, clients: seq<Client<E>>, tests: seq<seq<Cipher>>,
                                                  delivered: seq<seq<Cipher>>, c: nat, bins: seq<nat>, table: seq<Simple.Bin>,
                                                  oprf: seq<Point>, keys: seq<Point>)
    requires s.p.Usable() && ReadFromTables(s, mine, clients, tests, delivered) && c < |clients|
    requires bins == CuckooOutcome(s.p, ItemHash(mine, s.hashes)).bins
    requires table == SimpleTable(s.p, ItemHash(clients[c].elements, s.hashes), s.p.n)
    requires |oprf| == |clients[c].elements| && |keys| == |mine|
    requires forall j :: 0 <= j < |oprf| ==> oprf[j] == Times(s.g, clients[c].key, s.toPoint(clients[c].elements[j]))
    requires forall i :: 0 <= i < |keys| ==> keys[i] == Times(s.g, clients[c].key, s.toPoint(mine[i]))
    ensures |tests| == |delivered| == |clients| && |bins| == |table| == |clients[c].raw1| == |clients[c].raw2| == s.p.Bins()
    ensures AllRead(s.g, s.p, table, oprf, clients[c].raw1, FirstOf(tests[c]), bins, keys, FirstOf(delivered[c]))
    ensures AllRead(s.g, s.p, table, oprf, clients[c].raw2, SecondOf(tests[c]), bins, keys, SecondOf(delivered[c]))
  {
    assert ClientRead(s, clients[c], mine, bins, tests[c], delivered[c]);
    assert oprf == ClientOprf(s, clients[c]) && keys == LeaderOprf(s, clients[c].key, mine);
  }

  // Every client has the element.
  predicate HeldByAll<E(==)>(clients: seq<Client<E>>, e: E) {
    forall c :: 0 <= c < |clients| ==> e in clients[c].elements
  }

  /** An element of the leader that every client holds opens to the identity. */
  lemma {:induction false} CommonOpens<E(!new)>(s: Scheme<E>, secret: nat, ebf: seq<Cipher>, mine: seq<E>, clients: seq<Client<E>>,
                                                tests: seq<seq<Cipher>>, delivered: seq<seq<Cipher>>, cells: seq<CellDraw>, i: nat, k: nat)
    requires ValidScheme(s) && FilterOf(s, secret, mine, cells, ebf) && i < |mine| && k <= |clients|
    requires AllHanded(s, secret, ebf, mine, clients, tests, delivered, |clients|) && HeldByAll(clients, mine[i])
    ensures forall c :: 0 <= c < k ==> i < |delivered[..k][c]|
    ensures PlainSum(s.g, secret, delivered[..k], i) == ZERO_POINT
  {
    forall c | 0 <= c < k
      ensures i < |delivered[..k][c]|
    {
      assert Handed(mine, clients[c].elements, tests[c], delivered[c]);
    }
    if k > 0 {
      CommonOpens(s, secret, ebf, mine, clients, tests, delivered, cells, i, k - 1);
      assert delivered[..k][..k - 1] == delivered[..k - 1];
      var c := k - 1;
      var j :| 0 <= j < |clients[c].elements| && clients[c].elements[j] == mine[i];
      assert Handed(mine, clients[c].elements, tests[c], delivered[c]) && delivered[c][i] == tests[c][j];
      assert Tested(s, secret, ebf, clients[c].elements, tests[c]);
      var ps := s.positions(mine[i]);
      assert forall m :: 0 <= m < |ps| ==> ps[m] in ps;
      CellSumZero(s.g, secret, ebf, ps);
      AddZero(s.g, ZERO_POINT);
    }
  }

  ghost predicate ValidFilter<E(!new)>(s: Scheme<E>, filter: seq<Cipher>) {
    |filter| == s.size && forall b :: 0 <= b < |filter| ==> ValidCipher(s.g, filter[b])
  }

  // Everything collected from the first `upto` clients.
  ghost predicate CollectedFrom<E(!new)>(s: Scheme<E>, secret: nat, filter: seq<Cipher>, mine: seq<E>, bins: seq<nat>, clients: seq<Client<E>>,
                                         tests: seq<seq<Cipher>>, delivered: seq<seq<Cipher>>, sums: seq<Cipher>, upto: nat)
    requires ValidScheme(s) && |filter| == s.size
  {
    && upto <= |clients| && |sums| == |mine| && Totals(s.g, secret, delivered, sums)
    && AllHanded(s, secret, filter, mine, clients, tests, delivered, upto) && AllComplete(s, clients, upto)
    && AllClientsRead(s, mine, bins, clients, tests, delivered, upto)
  }

  // One client more.
  method CollectNext<E(!new)>(s: Scheme<E>, mine: seq<E>, filter: seq<Cipher>, beta: Point, clients: seq<Client<E>>, c: nat,
                              sums: seq<Cipher>, receiver: CuckooHasher, ghost hash: nat -> seq<nat>, ghost secret: nat,
                              ghost tests: seq<seq<Cipher>>, ghost delivered: seq<seq<Cipher>>)
    returns (sums': Option<seq<Cipher>>, ghost tests': seq<seq<Cipher>>, ghost delivered': seq<seq<Cipher>>)
    requires ValidScheme(s) && |mine| == s.p.n && ValidFilter(s, filter) && beta == Times(s.g, secret, s.g.base)
    requires c < |clients| && ValidClient(s, clients[c])
    requires receiver.params == s.p && receiver.Valid(hash) && HashesOf(hash, mine, s.hashes)
    requires OnceEach(Indices(receiver.mBins), |mine|)
    requires CollectedFrom(s, secret, filter, mine, receiver.mBins, clients, tests, delivered, sums, c)
    ensures sums'.Some? <==> ClientCompletes(s, clients[c])
    ensures sums'.Some? ==> CollectedFrom(s, secret, filter, mine, receiver.mBins, clients, tests', delivered', sums'.value, c + 1)
  {
    tests', delivered' := tests, delivered;
    var received, results := ClientPart(s, clients[c], filter, beta, mine, receiver, hash, secret);
    if received.None? {
      return None, tests', delivered';
    }
    assert ValidRows(s.g, [received.value], |mine|);
    var next := Accumulate(s.g, sums, received.value, secret, delivered);
    CollectedNext(s, secret, filter, mine, receiver.mBins, clients, tests, delivered, sums, c, results, received.value, next);
    tests', delivered' := tests + [results], delivered + [received.value];
    sums' := Some(next);
  }

  lemma {:induction false} CollectedNext<E(!new)>(s: Scheme<E>, secret: nat, filter: seq<Cipher>, mine: seq<E>, bins: seq<nat>, clients: seq<Client<E>>,
                                                  tests: seq<seq<Cipher>>, delivered: seq<seq<Cipher>>, sums: seq<Cipher>, c: nat,
                                                  results: seq<Cipher>, received: seq<Cipher>, next: seq<Cipher>)
    requires ValidScheme(s) && |filter| == s.size && c < |clients|
    requires CollectedFrom(s, secret, filter, mine, bins, clients, tests, delivered, sums, c)
    requires ClientRead(s, clients[c], mine, bins, results, received)
    requires ClientCompletes(s, clients[c]) && Tested(s, secret, filter, clients[c].elements, results)
    requires Handed(mine, clients[c].elements, results, received)
    requires |next| == |mine| && Totals(s.g, secret, delivered + [received], next)
    ensures CollectedFrom(s, secret, filter, mine, bins, clients, tests + [results], delivered + [received], next, c + 1)
  {
    var tests', delivered' := tests + [results], delivered + [received];
    forall k | 0 <= k < c + 1
      ensures Tested(s, secret, filter, clients[k].elements, tests'[k])
      ensures Handed(mine, clients[k].elements, tests'[k], delivered'[k])
      ensures ClientRead(s, clients[k], mine, bins, tests'[k], delivered'[k])
    {
      if k < c {
        assert tests'[k] == tests[k] && delivered'[k] == delivered[k];
      }
    }
  }

  // All clients in turn; what they hand over is added up per element.
  method Collect<E(!new)>(s: Scheme<E>, mine: seq<E>, filter: seq<Cipher>, beta: Point, clients: seq<Client<E>>,
                          receiver: CuckooHasher, ghost hash: nat -> seq<nat>, ghost secret: nat)
    returns (totals: Option<seq<Cipher>>, ghost tests: seq<seq<Cipher>>, ghost delivered: seq<seq<Cipher>>)
    requires ValidScheme(s) && |mine| == s.p.n && ValidFilter(s, filter) && beta == Times(s.g, secret, s.g.base)
    requires forall c :: 0 <= c < |clients| ==> ValidClient(s, clients[c])
    requires receiver.params == s.p && receiver.Valid(hash) && HashesOf(hash, mine, s.hashes)
    requires OnceEach(Indices(receiver.mBins), |mine|)
    ensures totals.Some? <==> AllComplete(s, clients, |clients|)
    ensures totals.Some? ==> |totals.value| == |mine| && Totals(s.g, secret, delivered, totals.value)
    ensures totals.Some? ==> AllHanded(s, secret, filter, mine, clients, tests, delivered, |clients|)
    ensures totals.Some? ==> AllClientsRead(s, mine, receiver.mBins, clients, tests, delivered, |clients|)
  {
    tests, delivered := [], [];
    var sums := seq<Cipher>(|mine|, _ => Cipher(ZERO_POINT, ZERO_POINT));
    ZeroTotals(s.g, secret, |mine|);
    for c := 0 to |clients|
      invariant CollectedFrom(s, secret, filter, mine, receiver.mBins, clients, tests, delivered, sums, c)
    {
      var next;
      next, tests, delivered := CollectNext(s, mine, filter, beta, clients, c, sums, receiver, hash, secret, tests, delivered);
      if next.None? {
        return None, tests, delivered;
      }
      sums := next.value;
    }
    totals := Some(sums);
  }

  // What a completed run guarantees of the marks.
  ghost predicate Marked<E(!new)>(s: Scheme<E>, secret: nat, mine: seq<E>, delivered: seq<seq<Cipher>>, marks: seq<bool>)
    requires s.g.order > 0
  {
    && |marks| == |mine| && ValidRows(s.g, delivered, |mine|)
    && forall i :: 0 <= i < |mine| ==> (marks[i] <==> PlainSum(s.g, secret, delivered, i) == ZERO_POINT)
  }

  lemma {:induction false} CommonMarked<E(!new)>(s: Scheme<E>, secret: nat, ebf: seq<Cipher>, mine: seq<E>, clients: seq<Client<E>>,
                                                 tests: seq<seq<Cipher>>, delivered: seq<seq<Cipher>>, marks: seq<bool>, cells: seq<CellDraw>)
    requires ValidScheme(s) && FilterOf(s, secret, mine, cells, ebf) && Marked(s, secret, mine, delivered, marks)
    requires AllHanded(s, secret, ebf, mine, clients, tests, delivered, |clients|)
    ensures forall i :: 0 <= i < |mine| && HeldByAll(clients, mine[i]) ==> marks[i]
  {
    forall i | 0 <= i < |mine| && HeldByAll(clients, mine[i])
      ensures marks[i]
    {
      CommonOpens(s, secret, ebf, mine, clients, tests, delivered, cells, i, |clients|);
      assert delivered[..|clients|] == delivered;
    }
  }

  /** The protocol. It completes exactly when no party's stash overflows and every client's transfers
      complete. Set cells of the filter then open to the identity, clear ones are the drawn points; what a client
      handed over for an element it holds opens to the sum of the element's cells, and what the leader has for any other
      is what its value reads in the client's table; and an element of the leader is
      marked exactly when what the clients handed over for it opens to the identity in sum, which is so for every
      element all parties hold. */
  method Run<E(!new)>(s: Scheme<E>, mine: seq<E>, leaderSecret: nat, cells: seq<CellDraw>, clients: seq<Client<E>>)
    returns (r: Option<seq<bool>>, ghost secret: nat, ghost ebf: seq<Cipher>, ghost tests: seq<seq<Cipher>>, ghost delivered: seq<seq<Cipher>>)
    requires ValidScheme(s) && |mine| == s.p.n && |cells| == s.size
    requires forall b :: 0 <= b < |cells| ==> s.g.valid(cells[b].first) && s.g.valid(cells[b].second)
    requires forall c :: 0 <= c < |clients| ==> ValidClient(s, clients[c])
    ensures secret == SumScalars([leaderSecret] + Secrets(clients))
    ensures r.Some? <==>
      HashingFits(s.p, ItemHash(mine, s.hashes)) && forall c :: 0 <= c < |clients| ==> ClientCompletes(s, clients[c])
    ensures s.g.order > 0 && |ebf| == s.size && FilterPositions(s.positions, |ebf|)
    ensures forall b :: 0 <= b < s.size ==>
      if exists i :: 0 <= i < |mine| && b in s.positions(mine[i]) then PlainOf(s.g, secret, ebf[b]) == ZERO_POINT
      else ebf[b] == Cipher(cells[b].first, cells[b].second)
    ensures r.Some? ==> |r.value| == |mine| && |delivered| == |clients| && forall c :: 0 <= c < |clients| ==> |delivered[c]| == |mine|
    ensures r.Some? ==> AllHanded(s, secret, ebf, mine, clients, tests, delivered, |clients|)
    ensures r.Some? ==> ReadFromTables(s, mine, clients, tests, delivered)
    ensures r.Some? ==> Marked(s, secret, mine, delivered, r.value)
    ensures r.Some? && |clients| == 1 ==> forall i :: 0 <= i < |mine| ==>
      (r.value[i] <==> PlainOf(s.g, secret, delivered[0][i]) == ZERO_POINT)
    ensures r.Some? ==> forall i :: 0 <= i < |mine| && (forall c :: 0 <= c < |clients| ==> mine[i] in clients[c].elements) ==> r.value[i]
  {
    secret := JointSecret(leaderSecret, clients);
    r, ebf, tests, delivered := RunSteps(s, mine, leaderSecret, cells, clients);
    FilterMeans(s, secret, mine, cells, ebf);
    if r.Some? {
      HandedMeans(s, secret, ebf, mine, clients, tests, delivered);
      MarkedMeans(s, secret, mine, delivered, r.value);
    }
  }

  /** A client gets through exactly when its set can be hashed and the searches of its bins work for both
      transfers. */
  lemma {:induction false} CompletesIff<E(!new)>(s: Scheme<E>, c: Client<E>, hash: nat -> seq<nat>, table: seq<Simple.Bin>, oprf: seq<Point>)
    requires s.p.Usable() && |c.raw1| == |c.raw2| == s.p.Bins() && hash == ItemHash(c.elements, s.hashes)
    requires table == SimpleTable(s.p, hash, s.p.n) && |oprf| == |c.elements|
    requires forall i :: 0 <= i < |oprf| ==> oprf[i] == Times(s.g, c.key, s.toPoint(c.elements[i]))
    ensures ClientCompletes(s, c) <==>
      HashingFits(s.p, hash) && AllWork(s.p, table, oprf, c.raw1) && AllWork(s.p, table, oprf, c.raw2)
  {
    assert oprf == ClientOprf(s, c);
  }

  lemma {:induction false} FilterMeans<E(!new)>(s: Scheme<E>, secret: nat, mine: seq<E>, cells: seq<CellDraw>, ebf: seq<Cipher>)
    requires s.g.order > 0 && FilterOf(s, secret, mine, cells, ebf)
    ensures |ebf| == s.size == |cells| && forall b :: 0 <= b < s.size ==>
      if exists i :: 0 <= i < |mine| && b in s.positions(mine[i]) then PlainOf(s.g, secret, ebf[b]) == ZERO_POINT
      else ebf[b] == Cipher(cells[b].first, cells[b].second)
  {
  }

  /** What the clients hand over: a test opens to the sum of its element's cells, and the leader has the test of every
      element both hold. */
  lemma {:induction false} HandedMeans<E(!new)>(s: Scheme<E>, secret: nat, ebf: seq<Cipher>, mine: seq<E>, clients: seq<Client<E>>,
                                                tests: seq<seq<Cipher>>, delivered: seq<seq<Cipher>>)
    requires s.g.order > 0 && FilterPositions(s.positions, |ebf|)
    requires AllHanded(s, secret, ebf, mine, clients, tests, delivered, |clients|)
    ensures |tests| == |delivered| == |clients|
    ensures forall c :: 0 <= c < |clients| ==> |tests[c]| == |clients[c].elements| && |delivered[c]| == |mine|
    ensures forall c, j :: 0 <= c < |clients| && 0 <= j < |tests[c]| ==>
      PlainOf(s.g, secret, tests[c][j]) == CellSum(s.g, secret, ebf, s.positions(clients[c].elements[j]))
    ensures forall c, i, j :: 0 <= c < |clients| && 0 <= i < |mine| && 0 <= j < |tests[c]| && clients[c].elements[j] == mine[i] ==>
      delivered[c][i] == tests[c][j]
  {
    forall c | 0 <= c < |clients|
      ensures Tested(s, secret, ebf, clients[c].elements, tests[c]) && Handed(mine, clients[c].elements, tests[c], delivered[c])
    {
    }
  }

  /** The marks of a run: identity in sum, and for a single client identity of what it handed over. */
  lemma {:induction false} MarkedMeans<E(!new)>(s: Scheme<E>, secret: nat, mine: seq<E>, delivered: seq<seq<Cipher>>, marks: seq<bool>)
    requires IsGroup(s.g) && Marked(s, secret, mine, delivered, marks)
    ensures |marks| == |mine| && forall c :: 0 <= c < |delivered| ==> |delivered[c]| == |mine|
    ensures forall i :: 0 <= i < |mine| ==> (marks[i] <==> PlainSum(s.g, secret, delivered, i) == ZERO_POINT)
    ensures |delivered| == 1 ==> forall i :: 0 <= i < |mine| ==> (marks[i] <==> PlainOf(s.g, secret, delivered[0][i]) == ZERO_POINT)
  {
    if |delivered| == 1 {
      forall i | 0 <= i < |mine|
        ensures marks[i] <==> PlainOf(s.g, secret, delivered[0][i]) == ZERO_POINT
      {
        assert delivered == [] + [delivered[0]] && ValidCipher(s.g, delivered[0][i]);
        PlainSumGrows(s.g, secret, [], delivered[0], i);
        PlainValid(s.g, secret, delivered[0][i]);
        AddZero(s.g, PlainOf(s.g, secret, delivered[0][i]));
      }
    }
  }

  // From key generation to the marks.
  method RunSteps<E(!new)>(s: Scheme<E>, mine: seq<E>, leaderSecret: nat, cells: seq<CellDraw>, clients: seq<Client<E>>)
    returns (r: Option<seq<bool>>, ghost ebf: seq<Cipher>, ghost tests: seq<seq<Cipher>>, ghost delivered: seq<seq<Cipher>>)
    requires ValidScheme(s) && |mine| == s.p.n && |cells| == s.size
    requires forall b :: 0 <= b < |cells| ==> s.g.valid(cells[b].first) && s.g.valid(cells[b].second)
    requires forall c :: 0 <= c < |clients| ==> ValidClient(s, clients[c])
    ensures r.Some? <==> HashingFits(s.p, ItemHash(mine, s.hashes)) && AllComplete(s, clients, |clients|)
    ensures FilterOf(s, JointSecret(leaderSecret, clients), mine, cells, ebf)
    ensures r.Some? ==> AllHanded(s, JointSecret(leaderSecret, clients), ebf, mine, clients, tests, delivered, |clients|)
    ensures r.Some? ==> ReadFromTables(s, mine, clients, tests, delivered)
    ensures r.Some? ==> Marked(s, JointSecret(leaderSecret, clients), mine, delivered, r.value)
    ensures r.Some? ==> forall i :: 0 <= i < |mine| && HeldByAll(clients, mine[i]) ==> r.value[i]
  {
    ghost var secret := JointSecret(leaderSecret, clients);
    var beta := JointKey(s.g, leaderSecret, Secrets(clients));
    var filter := LeaderFilter(s, mine, beta, cells, secret);
    ebf, tests, delivered := filter, [], [];
    var bins := new BinSet<E>(s.p);
    ghost var hash := ItemHash(mine, s.hashes);
    var ok := bins.Hashing2Bins(mine, s.hashes, hash);
    if !ok {
      return None, ebf, tests, delivered;
    }
    var totals;
    totals, tests, delivered := Collect(s, mine, filter, beta, clients, bins.mCuckooBins, hash, secret);
    if totals.None? {
      return None, ebf, tests, delivered;
    }
    SumScalarsFront(leaderSecret, Secrets(clients));
    var result := DecryptTotals(s.g, totals.value, Secrets(clients), leaderSecret, secret, delivered);
    CommonMarked(s, secret, ebf, mine, clients, tests, delivered, result, cells);
    r := Some(result);
  }

  ghost function JointSecret<E>(leaderSecret: nat, clients: seq<Client<E>>): nat {
    SumScalars([leaderSecret] + Secrets(clients))
  }
}
