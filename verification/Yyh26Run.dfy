/**
 A whole run of YYH26: all parties hash their sets, the leader shares its elements and sends the shares down by
 table, every client sends them up refreshed by table, and the leader collects and decides.
 */
module Yyh26Run {
  import opened NumberTheory
  import opened HashParameters
  import opened CuckooHashing
  import Simple = SimpleHashing
  import opened BinSets
  import opened Lanes
  import opened OleRefresh
  import opened RefreshDelivery
  import opened Reconstruction
  import opened BlockRows
  import opened ShareTables
  import opened ShareDelivery
  import opened Yyh26
  import opened Polynomials
  import Flags = Selection

  // ---------------------------------------------------------------- hashing

  // A set of the agreed size whose stash does not overflow.
  ghost predicate SetFits(p: HashParams, hashes: nat -> seq<nat>, elements: seq<nat>)
    requires p.Usable()
  {
    |elements| == p.n && HashingFits(p, ItemHash(elements, hashes))
  }

  ghost predicate AllSetsFit(p: HashParams, hashes: nat -> seq<nat>, sets: seq<seq<nat>>, upto: nat)
    requires p.Usable() && upto <= |sets|
  {
    forall u :: 0 <= u < upto ==> SetFits(p, hashes, sets[u])
  }

  /** Hashing goes through for every set of the agreed size whose items all find a cuckoo bin. */
  lemma {:induction false} SetsFitIff(p: HashParams, hashes: nat -> seq<nat>, sets: seq<seq<nat>>)
    requires p.Usable()
    ensures AllSetsFit(p, hashes, sets, |sets|) <==>
      forall u :: 0 <= u < |sets| ==> |sets[u]| == p.n && HashingFits(p, ItemHash(sets[u], hashes))
  {
  }

  // Every item is in the cuckoo bin of its number.
  ghost predicate NumbersOf(p: HashParams, hashes: nat -> seq<nat>, elements: seq<nat>, numbers: seq<nat>)
    requires p.Usable()
  {
    |numbers| == |elements| && forall i :: 0 <= i < |elements| ==> BinOfItem(CuckooOutcome(p, ItemHash(elements, hashes)).bins, i, numbers[i])
  }

  // The tables of a set, with its simple bins being the ones insertion fills.
  ghost predicate TablesOf(p: HashParams, hashes: nat -> seq<nat>, elements: seq<nat>, t: Hashed)
    requires p.Usable() && FullRows(p, hashes)
  {
    && HashedSet(p, hashes, elements, t) && t.bins == SimpleTable(p, ItemHash(elements, hashes), p.n)
    && NumbersOf(p, hashes, elements, t.numbers)
  }

  ghost predicate AllTablesOf(p: HashParams, hashes: nat -> seq<nat>, sets: seq<seq<nat>>, all: seq<Hashed>, upto: nat)
    requires p.Usable() && FullRows(p, hashes)
  {
    |all| == upto <= |sets| && forall u :: 0 <= u < upto ==> TablesOf(p, hashes, sets[u], all[u])
  }

  lemma {:induction false} TablesNext(p: HashParams, hashes: nat -> seq<nat>, sets: seq<seq<nat>>, all: seq<Hashed>, t: Hashed, u: nat)
    requires p.Usable() && FullRows(p, hashes) && u < |sets|
    requires AllTablesOf(p, hashes, sets, all, u) && TablesOf(p, hashes, sets[u], t)
    ensures AllTablesOf(p, hashes, sets, all + [t], u + 1)
  {
  }

  // All clients hash their sets.
  method HashClients(p: HashParams, hashes: nat -> seq<nat>, sets: seq<seq<nat>>) returns (r: Option<seq<Hashed>>)
    requires p.Usable() && FullRows(p, hashes)
    ensures r.Some? <==> AllSetsFit(p, hashes, sets, |sets|)
    ensures r.Some? ==> AllTablesOf(p, hashes, sets, r.value, |sets|)
  {
    var all: seq<Hashed> := [];
    for u := 0 to |sets|
      invariant AllSetsFit(p, hashes, sets, u) && AllTablesOf(p, hashes, sets, all, u)
    {
      var t := HashSet(p, hashes, sets[u]);
      if t.None? {
        assert !SetFits(p, hashes, sets[u]);
        return None;
      }
      TablesNext(p, hashes, sets, all, t.value, u);
      all := all + [t.value];
    }
    r := Some(all);
  }

  // ---------------------------------------------------------------- sharing

  // The coefficients the leader draws, for every element.
  ghost predicate HighersFor(highers: seq<seq<seq<int>>>, n: nat, t: nat) {
    |highers| == n && forall i :: 0 <= i < n ==> ValidHigher(highers[i], t)
  }

  // Every element of the leader is shared among all parties.
  ghost predicate AllShared(all: seq<seq<seq<nat>>>, e: Setting, mine: seq<nat>, highers: seq<seq<seq<int>>>, upto: nat)
    requires LaneModuli(e.ms) && |highers| == |mine|
  {
    && |all| == upto <= |mine|
    && forall i :: 0 <= i < upto ==> ValidHigher(highers[i], e.t) && Shared(all[i], mine[i], highers[i], e.ms, e.n)
  }

  lemma {:induction false} SharedNext(all: seq<seq<seq<nat>>>, next: seq<seq<nat>>, e: Setting, mine: seq<nat>,
                                      highers: seq<seq<seq<int>>>, i: nat)
    requires LaneModuli(e.ms) && |highers| == |mine| && i < |mine| && AllShared(all, e, mine, highers, i)
    requires ValidHigher(highers[i], e.t) && Shared(next, mine[i], highers[i], e.ms, e.n)
    ensures AllShared(all + [next], e, mine, highers, i + 1)
  {
  }

  method ShareAll(e: Setting, mine: seq<nat>, highers: seq<seq<seq<int>>>) returns (all: seq<seq<seq<nat>>>)
    requires LaneModuli(e.ms) && HighersFor(highers, |mine|, e.t)
    ensures AllShared(all, e, mine, highers, |mine|)
  {
    all := [];
    for i := 0 to |mine|
      invariant AllShared(all, e, mine, highers, i)
    {
      var next := ShareLanes(mine[i], e.n, e.t, highers[i], e.ms);
      SharedNext(all, next, e, mine, highers, i);
      all := all + [next];
    }
  }

  predicate SharesFor(all: seq<seq<seq<nat>>>, n: nat) {
    forall i :: 0 <= i < |all| ==> FourLists(all[i], n)
  }

  lemma {:induction false} SharedSizes(all: seq<seq<seq<nat>>>, e: Setting, mine: seq<nat>, highers: seq<seq<seq<int>>>)
    requires LaneModuli(e.ms) && |highers| == |mine| && AllShared(all, e, mine, highers, |mine|)
    ensures SharesFor(all, e.n)
  {
    forall i | 0 <= i < |all|
      ensures FourLists(all[i], e.n)
    {
      assert Shared(all[i], mine[i], highers[i], e.ms, e.n);
    }
  }

  // Party u's shares of all elements in lane k.
  function ShareColumn(all: seq<seq<seq<nat>>>, n: nat, k: nat, u: nat): (r: seq<nat>)
    requires SharesFor(all, n) && k < 4 && u < n
    ensures |r| == |all| && forall i :: 0 <= i < |r| ==> r[i] == all[i][k][u]
  {
    seq<nat>(|all|, i requires 0 <= i < |all| => all[i][k][u])
  }

  // The same as dealt.
  function DealtColumn(e: Setting, mine: seq<nat>, highers: seq<seq<seq<int>>>, k: nat, u: nat): (r: seq<nat>)
    requires LaneModuli(e.ms) && HighersFor(highers, |mine|, e.t) && k < 4
    ensures |r| == |mine| && forall i :: 0 <= i < |r| ==> |highers[i]| == 4 && r[i] == ShareValue(mine[i], highers[i], e.ms, k, u)
  {
    seq<nat>(|mine|, i requires 0 <= i < |mine| && ValidHigher(highers[i], e.t) => ShareValue(mine[i], highers[i], e.ms, k, u))
  }

  lemma {:induction false} ColumnDealt(all: seq<seq<seq<nat>>>, e: Setting, mine: seq<nat>, highers: seq<seq<seq<int>>>, k: nat, u: nat)
    requires LaneModuli(e.ms) && |highers| == |mine| && AllShared(all, e, mine, highers, |mine|) && SharesFor(all, e.n) && k < 4 && u < e.n
    ensures HighersFor(highers, |mine|, e.t) && ShareColumn(all, e.n, k, u) == DealtColumn(e, mine, highers, k, u)
  {
    forall i | 0 <= i < |mine|
      ensures all[i][k][u] == ShareValue(mine[i], highers[i], e.ms, k, u)
    {
      assert Shared(all[i], mine[i], highers[i], e.ms, e.n);
    }
  }

  // ---------------------------------------------------------------- one client

  // Client u's share of its element y in lane k is what its value reads in the leader's simple table.
  ghost predicate LaneRead(bins: seq<Simple.Bin>, mine: seq<nat>, keys: Keys, values: seq<nat>, m: nat, numbers: seq<nat>, theirs: seq<nat>,
                           received: seq<nat>)
    requires m > 0
  {
    |received| == |numbers| == |theirs| && forall j :: 0 <= j < |theirs| ==> ValueRead(bins, mine, keys, values, m, numbers[j], theirs[j], received[j])
  }

  ghost predicate LanesRead(bins: seq<Simple.Bin>, e: Setting, mine: seq<nat>, highers: seq<seq<seq<int>>>, link: Link, numbers: seq<nat>,
                            theirs: seq<nat>, received: seq<seq<nat>>, u: nat, upto: nat)
    requires LaneModuli(e.ms) && HighersFor(highers, |mine|, e.t)
  {
    && |received| == upto <= 4 == |link.down|
    && forall k :: 0 <= k < upto ==>
         LaneRead(bins, mine, link.down[k], DealtColumn(e, mine, highers, k, u), e.ms[k], numbers, theirs, received[k])
  }

  // All four share tables have arrived at client u.
  ghost predicate HandedAll(mine: seq<nat>, theirs: seq<nat>, all: seq<seq<seq<nat>>>, n: nat, received: seq<seq<nat>>, u: nat, upto: nat)
    requires |all| == |mine| && SharesFor(all, n) && u < n
  {
    |received| == upto <= 4 && forall k :: 0 <= k < upto ==> Handed(mine, theirs, ShareColumn(all, n, k, u), received[k])
  }

  // The searches behind the tables between the leader and a client ended, whenever the sets were hashed at all.
  ghost predicate LinkDone(p: HashParams, hashes: nat -> seq<nat>, mine: seq<nat>, theirs: seq<nat>, link: Link)
    requires p.Usable()
  {
    && |link.down| == 4 && |link.up| == 5
    && (SetFits(p, hashes, mine) ==>
          forall k :: 0 <= k < 4 ==> AllSearched(p, SimpleTable(p, ItemHash(mine, hashes), p.n), mine, link.down[k]))
    && (SetFits(p, hashes, theirs) ==> LinkReady(p, link, theirs, SimpleTable(p, ItemHash(theirs, hashes), p.n)))
  }

  lemma {:induction false} ColumnBelow(all: seq<seq<seq<nat>>>, e: Setting, mine: seq<nat>, highers: seq<seq<seq<int>>>, k: nat, u: nat)
    requires LaneModuli(e.ms) && |highers| == |mine| && AllShared(all, e, mine, highers, |mine|) && k < 4 && u < e.n
    requires SharesFor(all, e.n)
    ensures forall i :: 0 <= i < |mine| ==> ShareColumn(all, e.n, k, u)[i] < e.ms[k]
  {
    forall i | 0 <= i < |mine|
      ensures all[i][k][u] < e.ms[k]
    {
      assert Shared(all[i], mine[i], highers[i], e.ms, e.n);
    }
  }

  lemma {:induction false} HandedNext(mine: seq<nat>, theirs: seq<nat>, all: seq<seq<seq<nat>>>, n: nat, received: seq<seq<nat>>,
                                      lane: seq<nat>, u: nat, k: nat)
    requires |all| == |mine| && SharesFor(all, n) && u < n && k < 4 && HandedAll(mine, theirs, all, n, received, u, k)
    requires Handed(mine, theirs, ShareColumn(all, n, k, u), lane)
    ensures HandedAll(mine, theirs, all, n, received + [lane], u, k + 1)
  {
  }

  lemma {:induction false} LanesNext(bins: seq<Simple.Bin>, e: Setting, mine: seq<nat>, highers: seq<seq<seq<int>>>, link: Link,
                                     numbers: seq<nat>, theirs: seq<nat>, received: seq<seq<nat>>, lane: seq<nat>, u: nat, k: nat)
    requires LaneModuli(e.ms) && HighersFor(highers, |mine|, e.t) && k < 4
    requires LanesRead(bins, e, mine, highers, link, numbers, theirs, received, u, k)
    requires LaneRead(bins, mine, link.down[k], DealtColumn(e, mine, highers, k, u), e.ms[k], numbers, theirs, lane)
    ensures LanesRead(bins, e, mine, highers, link, numbers, theirs, received + [lane], u, k + 1)
  {
    forall l | 0 <= l < k + 1
      ensures LaneRead(bins, mine, link.down[l], DealtColumn(e, mine, highers, l, u), e.ms[l], numbers, theirs, (received + [lane])[l])
    {
      if l < k {
        assert LaneRead(bins, mine, link.down[l], DealtColumn(e, mine, highers, l, u), e.ms[l], numbers, theirs, received[l]);
      }
    }
  }

  // The leader's shares go down to client u.
  method HandDown(p: HashParams, hashes: nat -> seq<nat>, e: Setting, mine: seq<nat>, t: Hashed, theirs: seq<nat>, t': Hashed, link: Link,
                  all: seq<seq<seq<nat>>>, u: nat, ghost highers: seq<seq<seq<int>>>)
    returns (received: seq<seq<nat>>)
    requires SixBits(p) && FullRows(p, hashes) && HashedSet(p, hashes, mine, t) && HashedSet(p, hashes, theirs, t')
    requires |link.down| == 4 && forall k :: 0 <= k < 4 ==> AllSearched(p, t.bins, mine, link.down[k])
    requires LaneModuli(e.ms) && |highers| == |mine| && AllShared(all, e, mine, highers, |mine|) && SharesFor(all, e.n) && u < e.n
    ensures HandedAll(mine, theirs, all, e.n, received, u, 4)
    ensures HighersFor(highers, |mine|, e.t) && LanesRead(t.bins, e, mine, highers, link, t'.numbers, theirs, received, u, 4)
  {
    received := [];
    assert HighersFor(highers, |mine|, e.t);
    for k := 0 to 4
      invariant HandedAll(mine, theirs, all, e.n, received, u, k)
      invariant LanesRead(t.bins, e, mine, highers, link, t'.numbers, theirs, received, u, k)
    {
      ColumnBelow(all, e, mine, highers, k, u);
      ColumnDealt(all, e, mine, highers, k, u);
      var lane := DeliverValues(p, hashes, mine, t, theirs, t', link.down[k], ShareColumn(all, e.n, k, u), e.ms[k]);
      HandedNext(mine, theirs, all, e.n, received, lane, u, k);
      LanesNext(t.bins, e, mine, highers, link, t'.numbers, theirs, received, lane, u, k);
      received := received + [lane];
    }
  }

  // The client's rows serve the leader's element i, which sits in bin b.
  ghost predicate ServesItem(tables: seq<seq<Row>>, link: Link, e: Setting, x: nat, shares: seq<seq<nat>>, b: nat, u: nat)
    requires LaneModuli(e.ms) && FourLists(shares, e.n) && u < e.n
  {
    b < |tables| && Readable(tables[b]) && ServesElement(tables[b], Values(link.up, b, x), e, x, shares, b, u)
  }

  // The leader can read in the item's bin, and what it reads serves the item if the client has it.
  ghost predicate ReadsItem(tables: seq<seq<Row>>, link: Link, e: Setting, x: nat, shares: seq<seq<nat>>, b: nat, theirs: seq<nat>, u: nat)
    requires LaneModuli(e.ms) && FourLists(shares, e.n) && u < e.n
  {
    && b < |tables| && Readable(tables[b])
    && (x in theirs ==> ServesItem(tables, link, e, x, shares, b, u))
  }

  ghost predicate ClientServes(tables: seq<seq<Row>>, link: Link, e: Setting, mine: seq<nat>, numbers: seq<nat>, theirs: seq<nat>,
                               all: seq<seq<seq<nat>>>, u: nat)
    requires LaneModuli(e.ms) && |all| == |mine| == |numbers| && SharesFor(all, e.n) && u < e.n
  {
    forall i :: 0 <= i < |mine| ==> ReadsItem(tables, link, e, mine[i], all[i], numbers[i], theirs, u)
  }

  lemma {:induction false} HeldServes(p: HashParams, hashes: nat -> seq<nat>, e: Setting, mine: seq<nat>, t: Hashed, theirs: seq<nat>,
                                      t': Hashed, link: Link, all: seq<seq<seq<nat>>>, received: seq<seq<nat>>, tables: seq<seq<Row>>,
                                      u: nat, i: nat)
    requires p.Usable() && FullRows(p, hashes) && HashedSet(p, hashes, mine, t) && HashedSet(p, hashes, theirs, t')
    requires LaneModuli(e.ms) && |all| == |mine| && SharesFor(all, e.n) && u < e.n
    requires HandedAll(mine, theirs, all, e.n, received, u, 4) && Received(received, |theirs|)
    requires TablesServe(tables, t'.bins, link, theirs, received, e.ds, u, e.ms, |t'.bins|)
    requires i < |mine| && mine[i] in theirs
    ensures ServesItem(tables, link, e, mine[i], all[i], t.numbers[i], u)
  {
    var j :| 0 <= j < |theirs| && theirs[j] == mine[i];
    var b := t.numbers[i];
    var s := SlotOf(p, hashes, mine, t, theirs, t', i, j);
    assert TableServes(tables[b], t'.bins[b], link, theirs, received, e.ds, u, b, e.ms);
    assert Serves(SlotsRead(tables[b], Values(link.up, b, theirs[j])), link, theirs, received, e.ds, u, b, j, e.ms);
    forall k | 0 <= k < 4
      ensures Four(received, j)[k] == SharesOf(all[i], u)[k]
    {
      assert Handed(mine, theirs, ShareColumn(all, e.n, k, u), received[k]);
    }
    assert Four(received, j) == SharesOf(all[i], u);
  }

  // What a client received, and what can be read in its tables.
  ghost predicate ClientOutcome(e: Setting, mine: seq<nat>, highers: seq<seq<seq<int>>>, bins: seq<Simple.Bin>, link: Link, theirs: seq<nat>,
                                t': Hashed, received: seq<seq<nat>>, tables: seq<seq<Row>>, u: nat)
    requires LaneModuli(e.ms) && HighersFor(highers, |mine|, e.t)
  {
    && LanesRead(bins, e, mine, highers, link, t'.numbers, theirs, received, u, 4) && Received(received, |theirs|)
    && TablesRead(tables, t'.bins, link, theirs, received, e.ds, u, e.ms, |t'.bins|)
  }

  /** One client's part: whatever the leader reads for an element of the client's is its share with the client's
      half of the refresh added. */
  method ClientPart(p: HashParams, hashes: nat -> seq<nat>, e: Setting, mine: seq<nat>, t: Hashed, theirs: seq<nat>, t': Hashed,
                    link: Link, all: seq<seq<seq<nat>>>, u: nat, ghost highers: seq<seq<seq<int>>>)
    returns (tables: seq<seq<Row>>, ghost received: seq<seq<nat>>)
    requires SixBits(p) && FullRows(p, hashes) && TablesOf(p, hashes, mine, t) && TablesOf(p, hashes, theirs, t')
    requires ValidSetting(e) && u < e.n - 1 && InLanes(theirs) && |link.down| == 4 && LinkReady(p, link, theirs, t'.bins)
    requires forall k :: 0 <= k < 4 ==> AllSearched(p, t.bins, mine, link.down[k])
    requires |highers| == |mine| && AllShared(all, e, mine, highers, |mine|) && SharesFor(all, e.n)
    ensures ClientServes(tables, link, e, mine, t.numbers, theirs, all, u)
    ensures HighersFor(highers, |mine|, e.t)
    ensures ClientOutcome(e, mine, highers, t.bins, link, theirs, t', received, tables, u)
  {
    var shares := HandDown(p, hashes, e, mine, t, theirs, t', link, all, u, highers);
    received := shares;
    FourReceived(mine, theirs, all, e.n, received, u);
    tables := ServeBins(p, t'.bins, link, theirs, shares, e.ds, u, e.ms);
    forall i | 0 <= i < |mine|
      ensures ReadsItem(tables, link, e, mine[i], all[i], t.numbers[i], theirs, u)
    {
      var b := t.numbers[i];
      NumbersBelow(p, hashes, mine, t, i);
      assert TableServes(tables[b], t'.bins[b], link, theirs, received, e.ds, u, b, e.ms);
      if mine[i] in theirs {
        HeldServes(p, hashes, e, mine, t, theirs, t', link, all, received, tables, u, i);
      }
    }
  }

  lemma {:induction false} FourReceived(mine: seq<nat>, theirs: seq<nat>, all: seq<seq<seq<nat>>>, n: nat, received: seq<seq<nat>>, u: nat)
    requires |all| == |mine| && SharesFor(all, n) && u < n && HandedAll(mine, theirs, all, n, received, u, 4)
    ensures Received(received, |theirs|)
  {
    forall k | 0 <= k < 4
      ensures |received[k]| == |theirs|
    {
      assert Handed(mine, theirs, ShareColumn(all, n, k, u), received[k]);
    }
  }

  // ---------------------------------------------------------------- all clients

  ghost predicate ClientsServe(tables: seq<seq<seq<Row>>>, links: seq<Link>, e: Setting, mine: seq<nat>, numbers: seq<nat>,
                               sets: seq<seq<nat>>, all: seq<seq<seq<nat>>>, upto: nat)
    requires LaneModuli(e.ms) && |all| == |mine| == |numbers| && SharesFor(all, e.n) && |links| == |sets| < e.n
  {
    && |tables| == upto <= |sets|
    && forall u :: 0 <= u < upto ==> ClientServes(tables[u], links[u], e, mine, numbers, sets[u], all, u)
  }

  lemma {:induction false} ServeNext(tables: seq<seq<seq<Row>>>, next: seq<seq<Row>>, links: seq<Link>, e: Setting, mine: seq<nat>,
                                     numbers: seq<nat>, sets: seq<seq<nat>>, all: seq<seq<seq<nat>>>, u: nat)
    requires LaneModuli(e.ms) && |all| == |mine| == |numbers| && SharesFor(all, e.n) && |links| == |sets| < e.n && u < |sets|
    requires ClientsServe(tables, links, e, mine, numbers, sets, all, u)
    requires ClientServes(next, links[u], e, mine, numbers, sets[u], all, u)
    ensures ClientsServe(tables + [next], links, e, mine, numbers, sets, all, u + 1)
  {
    forall v | 0 <= v < u + 1
      ensures ClientServes((tables + [next])[v], links[v], e, mine, numbers, sets[v], all, v)
    {
      ServeAt((tables + [next])[v], if v < u then tables[v] else next, links[v], e, mine, numbers, sets[v], all, v);
    }
  }

  lemma {:induction false} ServeAt(tables: seq<seq<Row>>, tables': seq<seq<Row>>, link: Link, e: Setting, mine: seq<nat>, numbers: seq<nat>,
                                   theirs: seq<nat>, all: seq<seq<seq<nat>>>, u: nat)
    requires LaneModuli(e.ms) && |all| == |mine| == |numbers| && SharesFor(all, e.n) && u < e.n
    requires ClientServes(tables', link, e, mine, numbers, theirs, all, u) && tables == tables'
    ensures ClientServes(tables, link, e, mine, numbers, theirs, all, u)
  {
  }

  // Everything a run is given besides the sets.
  ghost predicate LinksDone(p: HashParams, hashes: nat -> seq<nat>, mine: seq<nat>, sets: seq<seq<nat>>, links: seq<Link>)
    requires p.Usable()
  {
    && |links| == |sets|
    && forall u :: 0 <= u < |sets| ==> InLanes(sets[u]) && LinkDone(p, hashes, mine, sets[u], links[u])
  }

  lemma {:induction false} ClientReady(p: HashParams, hashes: nat -> seq<nat>, mine: seq<nat>, t: Hashed, sets: seq<seq<nat>>,
                                       clients: seq<Hashed>, links: seq<Link>, u: nat)
    requires p.Usable() && FullRows(p, hashes) && SetFits(p, hashes, mine) && TablesOf(p, hashes, mine, t)
    requires AllSetsFit(p, hashes, sets, |sets|) && AllTablesOf(p, hashes, sets, clients, |sets|)
    requires LinksDone(p, hashes, mine, sets, links) && u < |sets|
    ensures TablesOf(p, hashes, sets[u], clients[u]) && InLanes(sets[u]) && |links[u].down| == 4
    ensures LinkReady(p, links[u], sets[u], clients[u].bins)
    ensures forall k :: 0 <= k < 4 ==> AllSearched(p, t.bins, mine, links[u].down[k])
  {
    assert LinkDone(p, hashes, mine, sets[u], links[u]) && SetFits(p, hashes, sets[u]);
  }

  ghost predicate ClientOutcomes(e: Setting, mine: seq<nat>, highers: seq<seq<seq<int>>>, bins: seq<Simple.Bin>, links: seq<Link>,
                                 sets: seq<seq<nat>>, clients: seq<Hashed>, received: seq<seq<seq<nat>>>, tables: seq<seq<seq<Row>>>, upto: nat)
    requires LaneModuli(e.ms) && HighersFor(highers, |mine|, e.t)
  {
    && |tables| == |received| == upto <= |sets| == |links| == |clients|
    && forall u :: 0 <= u < upto ==> ClientOutcome(e, mine, highers, bins, links[u], sets[u], clients[u], received[u], tables[u], u)
  }

  lemma {:induction false} OutcomeNext(e: Setting, mine: seq<nat>, highers: seq<seq<seq<int>>>, bins: seq<Simple.Bin>, links: seq<Link>,
                                       sets: seq<seq<nat>>, clients: seq<Hashed>, received: seq<seq<seq<nat>>>, got: seq<seq<nat>>,
                                       tables: seq<seq<seq<Row>>>, next: seq<seq<Row>>, u: nat)
    requires LaneModuli(e.ms) && HighersFor(highers, |mine|, e.t)
    requires ClientOutcomes(e, mine, highers, bins, links, sets, clients, received, tables, u) && u < |sets|
    requires ClientOutcome(e, mine, highers, bins, links[u], sets[u], clients[u], got, next, u)
    ensures ClientOutcomes(e, mine, highers, bins, links, sets, clients, received + [got], tables + [next], u + 1)
  {
    var received', tables' := received + [got], tables + [next];
    forall v | 0 <= v < u + 1
      ensures ClientOutcome(e, mine, highers, bins, links[v], sets[v], clients[v], received'[v], tables'[v], v)
    {
      if v < u {
        assert received'[v] == received[v] && tables'[v] == tables[v];
      }
    }
  }

  method AllClients(p: HashParams, hashes: nat -> seq<nat>, e: Setting, mine: seq<nat>, t: Hashed, sets: seq<seq<nat>>,
                    clients: seq<Hashed>, links: seq<Link>, all: seq<seq<seq<nat>>>, ghost highers: seq<seq<seq<int>>>)
    returns (tables: seq<seq<seq<Row>>>, ghost received: seq<seq<seq<nat>>>)
    requires SixBits(p) && FullRows(p, hashes) && SetFits(p, hashes, mine) && TablesOf(p, hashes, mine, t)
    requires AllSetsFit(p, hashes, sets, |sets|) && AllTablesOf(p, hashes, sets, clients, |sets|)
    requires ValidSetting(e) && |sets| == e.n - 1 && LinksDone(p, hashes, mine, sets, links)
    requires |highers| == |mine| && AllShared(all, e, mine, highers, |mine|) && SharesFor(all, e.n)
    ensures ClientsServe(tables, links, e, mine, t.numbers, sets, all, |sets|) && HighersFor(highers, |mine|, e.t)
    ensures ClientOutcomes(e, mine, highers, t.bins, links, sets, clients, received, tables, |sets|)
  {
    tables, received := [], [];
    assert HighersFor(highers, |mine|, e.t);
    for u := 0 to |sets|
      invariant ClientsServe(tables, links, e, mine, t.numbers, sets, all, u)
      invariant ClientOutcomes(e, mine, highers, t.bins, links, sets, clients, received, tables, u)
    {
      ClientReady(p, hashes, mine, t, sets, clients, links, u);
      var next;
      ghost var got;
      next, got := ClientPart(p, hashes, e, mine, t, sets[u], clients[u], links[u], all, u, highers);
      ServeNext(tables, next, links, e, mine, t.numbers, sets, all, u);
      OutcomeNext(e, mine, highers, t.bins, links, sets, clients, received, got, tables, next, u);
      tables, received := tables + [next], received + [got];
    }
  }

  // ---------------------------------------------------------------- the decision

  // Which clients have x in their sets.
  function Holders(sets: seq<seq<nat>>, x: nat): (r: seq<bool>)
    ensures |r| == |sets| && forall u :: 0 <= u < |r| ==> (r[u] <==> x in sets[u])
  {
    seq(|sets|, u requires 0 <= u < |sets| => x in sets[u])
  }

  // All clients' rows for bin b.
  function RowsAt(tables: seq<seq<seq<Row>>>, b: nat): (r: seq<seq<Row>>)
    requires forall u :: 0 <= u < |tables| ==> b < |tables[u]|
    ensures |r| == |tables| && forall u :: 0 <= u < |r| ==> r[u] == tables[u][b]
  {
    seq(|tables|, u requires 0 <= u < |tables| => tables[u][b])
  }

  // The leader's OPRF values for x in bin b, client by client.
  function ValuesAt(links: seq<Link>, b: nat, x: nat): (r: seq<nat -> nat>)
    ensures |r| == |links| && forall u :: 0 <= u < |r| ==> r[u] == Values(links[u].up, b, x)
  {
    seq(|links|, u requires 0 <= u < |links| => Values(links[u].up, b, x))
  }

  lemma {:induction false} ItemServed(tables: seq<seq<seq<Row>>>, links: seq<Link>, e: Setting, mine: seq<nat>, numbers: seq<nat>,
                                      sets: seq<seq<nat>>, all: seq<seq<seq<nat>>>, i: nat)
    requires ValidSetting(e) && |all| == |mine| == |numbers| && SharesFor(all, e.n) && |links| == |sets| == e.n - 1 && i < |mine|
    requires ClientsServe(tables, links, e, mine, numbers, sets, all, |sets|)
    ensures forall u :: 0 <= u < |tables| ==> numbers[i] < |tables[u]|
    ensures AllServe(RowsAt(tables, numbers[i]), ValuesAt(links, numbers[i], mine[i]), Holders(sets, mine[i]), e, mine[i], all[i], numbers[i])
  {
    var b, held := numbers[i], Holders(sets, mine[i]);
    forall u | 0 <= u < |tables|
      ensures b < |tables[u]| && Readable(tables[u][b])
      ensures held[u] ==> ServesElement(tables[u][b], Values(links[u].up, b, mine[i]), e, mine[i], all[i], b, u)
    {
      assert ClientServes(tables[u], links[u], e, mine, numbers, sets[u], all, u);
      assert ReadsItem(tables[u], links[u], e, mine[i], all[i], b, sets[u], u);
    }
  }

  // An element of the leader is in the result exactly when its words reconstruct it, and its words are
  // the refreshed shares of the leader and of every client that holds it.
  ghost predicate Decided(e: Setting, x: nat, holders: seq<bool>, higher: seq<seq<int>>, b: nat, words: seq<nat>, marked: bool)
    requires LaneModuli(e.ms) && |higher| == 4 && e.n > 0
  {
    && GoodWords(words, holders, e, x, higher, b)
    && (marked <==> Reconstructs(words, e.ms, e.t, x))
    && (CountHeld(holders) >= e.t - 1 ==> marked)
  }

  // Prime moduli above the number of parties.
  ghost predicate GoodSetting(e: Setting) {
    ValidSetting(e) && PrimeLanes(e.ms) && forall k :: 0 <= k < 4 ==> e.n < e.ms[k]
  }

  // The loop over the selections goes through all of them.
  ghost predicate Decidable(e: Setting, all: seq<seq<nat>>) {
    GoodSetting(e) && forall sel: seq<nat> :: sel in all <==> Selection(sel, e.n, e.t)
  }

  method DecideElement(e: Setting, x: nat, b: nat, rows: seq<seq<Row>>, values: seq<nat -> nat>, shares: seq<seq<nat>>,
                       selections: seq<seq<nat>>, ghost higher: seq<seq<int>>, ghost holders: seq<bool>)
    returns (marked: bool, ghost words: seq<nat>)
    requires Decidable(e, selections) && ValidHigher(higher, e.t) && x < LANE && Shared(shares, x, higher, e.ms, e.n)
    requires AllServe(rows, values, holders, e, x, shares, b)
    ensures Decided(e, x, holders, higher, b, words, marked) && WordsCollected(words, rows, values, e, x, b, e.n - 1)
  {
    var collected := CollectElement(e, x, b, rows, values, shares, higher, holders);
    marked := Decide(collected, selections, e.ms, e.t, x);
    words := collected;
    if CountHeld(holders) >= e.t - 1 {
      EnoughHolders(words, holders, e, x, higher, b);
    }
  }

  ghost predicate AllDecided(e: Setting, mine: seq<nat>, sets: seq<seq<nat>>, highers: seq<seq<seq<int>>>, numbers: seq<nat>,
                             words: seq<seq<nat>>, marks: seq<bool>, upto: nat)
    requires LaneModuli(e.ms) && e.n > 0 && HighersFor(highers, |mine|, e.t) && |numbers| == |mine|
  {
    && |words| == |marks| == upto <= |mine|
    && forall i :: 0 <= i < upto ==> Decided(e, mine[i], Holders(sets, mine[i]), highers[i], numbers[i], words[i], marks[i])
  }

  lemma {:induction false} DecidedNext(e: Setting, mine: seq<nat>, sets: seq<seq<nat>>, highers: seq<seq<seq<int>>>, numbers: seq<nat>,
                                       words: seq<seq<nat>>, marks: seq<bool>, i: nat, own: seq<nat>, marked: bool)
    requires LaneModuli(e.ms) && e.n > 0 && HighersFor(highers, |mine|, e.t) && |numbers| == |mine| && i < |mine|
    requires AllDecided(e, mine, sets, highers, numbers, words, marks, i)
    requires Decided(e, mine[i], Holders(sets, mine[i]), highers[i], numbers[i], own, marked)
    ensures AllDecided(e, mine, sets, highers, numbers, words + [own], marks + [marked], i + 1)
  {
    var words', marks' := words + [own], marks + [marked];
    forall k | 0 <= k < i + 1
      ensures Decided(e, mine[k], Holders(sets, mine[k]), highers[k], numbers[k], words'[k], marks'[k])
    {
      if k < i {
        assert words'[k] == words[k] && marks'[k] == marks[k];
      }
    }
  }

  // The clients' words for an element are collected from their tables.
  ghost predicate ItemCollected(words: seq<nat>, tables: seq<seq<seq<Row>>>, links: seq<Link>, e: Setting, x: nat, b: nat)
    requires LaneModuli(e.ms)
  {
    && (forall u :: 0 <= u < |tables| ==> b < |tables[u]|)
    && WordsCollected(words, RowsAt(tables, b), ValuesAt(links, b, x), e, x, b, |tables|)
  }

  ghost predicate ItemsCollected(words: seq<seq<nat>>, tables: seq<seq<seq<Row>>>, links: seq<Link>, e: Setting, mine: seq<nat>,
                                 numbers: seq<nat>, upto: nat)
    requires LaneModuli(e.ms)
  {
    && |words| == upto <= |mine| == |numbers|
    && forall i :: 0 <= i < upto ==> ItemCollected(words[i], tables, links, e, mine[i], numbers[i])
  }

  lemma {:induction false} ItemsNext(words: seq<seq<nat>>, own: seq<nat>, tables: seq<seq<seq<Row>>>, links: seq<Link>, e: Setting,
                                     mine: seq<nat>, numbers: seq<nat>, i: nat)
    requires LaneModuli(e.ms) && i < |mine| == |numbers| && ItemsCollected(words, tables, links, e, mine, numbers, i)
    requires forall u :: 0 <= u < |tables| ==> numbers[i] < |tables[u]|
    requires WordsCollected(own, RowsAt(tables, numbers[i]), ValuesAt(links, numbers[i], mine[i]), e, mine[i], numbers[i], |tables|)
    ensures ItemsCollected(words + [own], tables, links, e, mine, numbers, i + 1)
  {
    var words' := words + [own];
    assert ItemCollected(own, tables, links, e, mine[i], numbers[i]);
    forall k | 0 <= k < i + 1
      ensures ItemCollected(words'[k], tables, links, e, mine[k], numbers[k])
    {
      if k < i {
        assert words'[k] == words[k];
      }
    }
  }

  // All elements of the leader.
  method DecideAll(e: Setting, mine: seq<nat>, numbers: seq<nat>, tables: seq<seq<seq<Row>>>, links: seq<Link>,
                   all: seq<seq<seq<nat>>>, selections: seq<seq<nat>>, ghost sets: seq<seq<nat>>, ghost highers: seq<seq<seq<int>>>)
    returns (marks: seq<bool>, ghost words: seq<seq<nat>>)
    requires Decidable(e, selections) && |links| == |sets| == e.n - 1 && |numbers| == |mine| && InLanes(mine)
    requires HighersFor(highers, |mine|, e.t) && AllShared(all, e, mine, highers, |mine|) && SharesFor(all, e.n)
    requires ClientsServe(tables, links, e, mine, numbers, sets, all, |sets|)
    ensures AllDecided(e, mine, sets, highers, numbers, words, marks, |mine|)
    ensures ItemsCollected(words, tables, links, e, mine, numbers, |mine|)
  {
    marks, words := [], [];
    for i := 0 to |mine|
      invariant AllDecided(e, mine, sets, highers, numbers, words, marks, i)
      invariant ItemsCollected(words, tables, links, e, mine, numbers, i)
    {
      ItemServed(tables, links, e, mine, numbers, sets, all, i);
      var marked, own := DecideElement(e, mine[i], numbers[i], RowsAt(tables, numbers[i]), ValuesAt(links, numbers[i], mine[i]), all[i],
                                       selections, highers[i], Holders(sets, mine[i]));
      DecidedNext(e, mine, sets, highers, numbers, words, marks, i, own, marked);
      ItemsNext(words, own, tables, links, e, mine, numbers, i);
      marks, words := marks + [marked], words + [own];
    }
  }

  // ---------------------------------------------------------------- the run

  // From the hashed sets on.
  method RunTables(e: Setting, p: HashParams, hashes: nat -> seq<nat>, mine: seq<nat>, t: Hashed, sets: seq<seq<nat>>, clients: seq<Hashed>,
                   highers: seq<seq<seq<int>>>, links: seq<Link>)
    returns (marks: seq<bool>, ghost received: seq<seq<seq<nat>>>, ghost words: seq<seq<nat>>)
    requires GoodSetting(e) && |sets| == e.n - 1
    requires SixBits(p) && FullRows(p, hashes) && SetFits(p, hashes, mine) && TablesOf(p, hashes, mine, t) && InLanes(mine)
    requires AllSetsFit(p, hashes, sets, |sets|) && AllTablesOf(p, hashes, sets, clients, |sets|)
    requires LinksDone(p, hashes, mine, sets, links)
    requires HighersFor(highers, |mine|, e.t)
    ensures |marks| == |words| == |mine| && forall i :: 0 <= i < |mine| ==> |words[i]| == e.n && |highers[i]| == 4
    ensures HoldersGood(e, mine, sets, highers, t.numbers, words)
    ensures forall i :: 0 <= i < |mine| ==> (marks[i] <==> Reconstructs(words[i], e.ms, e.t, mine[i]))
    ensures forall i :: 0 <= i < |mine| && |Flags.Flagged(Holders(sets, mine[i]), |sets|)| >= e.t - 1 ==> marks[i]
    ensures AllReceived(p, hashes, e, mine, sets, highers, links, received)
    ensures AllWordsRead(p, hashes, e, mine, sets, links, t.numbers, received, words)
  {
    var all := ShareAll(e, mine, highers);
    SharedSizes(all, e, mine, highers);
    var tables;
    tables, received := AllClients(p, hashes, e, mine, t, sets, clients, links, all, highers);
    var selections := Selections(e.n, e.t);
    marks, words := DecideAll(e, mine, t.numbers, tables, links, all, selections, sets, highers);
    DecidedMeans(e, mine, sets, highers, t.numbers, words, marks);
    EverythingReceived(p, hashes, e, mine, t, sets, clients, highers, links, received, tables);
    EveryWordRead(p, hashes, e, mine, t, sets, clients, highers, links, received, tables, words);
  }

  // What client u has for its elements in the four lanes: each sits in one cuckoo bin and is read in the leader's simple
  // bin of that number.
  ghost predicate ReceivedAt(p: HashParams, hashes: nat -> seq<nat>, e: Setting, mine: seq<nat>, theirs: seq<nat>,
                             highers: seq<seq<seq<int>>>, link: Link, received: seq<seq<nat>>, u: nat)
    requires p.Usable() && LaneModuli(e.ms) && HighersFor(highers, |mine|, e.t)
  {
    exists numbers :: NumbersOf(p, hashes, theirs, numbers)
      && LanesRead(SimpleTable(p, ItemHash(mine, hashes), p.n), e, mine, highers, link, numbers, theirs, received, u, 4)
  }

  ghost predicate AllReceived(p: HashParams, hashes: nat -> seq<nat>, e: Setting, mine: seq<nat>, sets: seq<seq<nat>>,
                              highers: seq<seq<seq<int>>>, links: seq<Link>, received: seq<seq<seq<nat>>>)
    requires p.Usable() && LaneModuli(e.ms) && HighersFor(highers, |mine|, e.t)
  {
    && |received| == |sets| == |links|
    && forall u :: 0 <= u < |sets| ==> ReceivedAt(p, hashes, e, mine, sets[u], highers, links[u], received[u], u)
  }

  // The word for the leader's element x and a client: some slots that reading with the leader's values yields in the five
  // tables of the client's bin b, and the leader's half for the slot number among them.
  ghost predicate WordRead(word: nat, e: Setting, x: nat, b: nat, bin: Simple.Bin, link: Link, theirs: seq<nat>, received: seq<seq<nat>>, u: nat)
    requires LaneModuli(e.ms)
  {
    && Received(received, |theirs|)
    && exists slots :: SlotsOf(slots, x, b, bin, link, theirs, received, e, u) && WordFrom(word, slots, Values(link.up, b, x), e, x, b, u)
  }

  ghost predicate SlotsOf(slots: Slots, x: nat, b: nat, bin: Simple.Bin, link: Link, theirs: seq<nat>, received: seq<seq<nat>>,
                          e: Setting, u: nat)
    requires LaneModuli(e.ms) && Received(received, |theirs|)
  {
    && |slots.shares| == 4 && |link.up| == 5
    && forall k :: 0 <= k < 5 ==>
         SlotReads(TableEntry(slots, k), link.up[k].oprf(b, x), k, bin, link, theirs, received, e.ds, u, b, e.ms)
  }

  ghost predicate AllWordsRead(p: HashParams, hashes: nat -> seq<nat>, e: Setting, mine: seq<nat>, sets: seq<seq<nat>>, links: seq<Link>,
                               numbers: seq<nat>, received: seq<seq<seq<nat>>>, words: seq<seq<nat>>)
    requires p.Usable() && LaneModuli(e.ms)
  {
    && |words| == |numbers| == |mine| && |received| == |sets| == |links| && (forall i :: 0 <= i < |mine| ==> |words[i]| > |sets|)
    && forall i, u :: 0 <= i < |mine| && 0 <= u < |sets| ==>
         WordReadAt(p, hashes, e, mine[i], sets[u], links[u], numbers[i], received[u], words[i][u], u)
  }

  ghost predicate WordReadAt(p: HashParams, hashes: nat -> seq<nat>, e: Setting, x: nat, theirs: seq<nat>, link: Link, b: nat,
                             received: seq<seq<nat>>, word: nat, u: nat)
    requires p.Usable() && LaneModuli(e.ms)
  {
    var table := SimpleTable(p, ItemHash(theirs, hashes), p.n);
    b < |table| && WordRead(word, e, x, b, table[b], link, theirs, received, u)
  }

  lemma {:induction false} EverythingReceived(p: HashParams, hashes: nat -> seq<nat>, e: Setting, mine: seq<nat>, t: Hashed,
                                              sets: seq<seq<nat>>, clients: seq<Hashed>, highers: seq<seq<seq<int>>>, links: seq<Link>,
                                              received: seq<seq<seq<nat>>>, tables: seq<seq<seq<Row>>>)
    requires p.Usable() && FullRows(p, hashes) && LaneModuli(e.ms) && HighersFor(highers, |mine|, e.t) && TablesOf(p, hashes, mine, t)
    requires AllTablesOf(p, hashes, sets, clients, |sets|)
    requires ClientOutcomes(e, mine, highers, t.bins, links, sets, clients, received, tables, |sets|)
    ensures AllReceived(p, hashes, e, mine, sets, highers, links, received)
  {
    forall u | 0 <= u < |sets|
      ensures ReceivedAt(p, hashes, e, mine, sets[u], highers, links[u], received[u], u)
    {
      assert ClientOutcome(e, mine, highers, t.bins, links[u], sets[u], clients[u], received[u], tables[u], u);
      assert TablesOf(p, hashes, sets[u], clients[u]);
    }
  }

  lemma {:induction false} RowYields(row: Row, k: nat, e: Setting, b: nat, bin: Simple.Bin, link: Link, theirs: seq<nat>,
                                     received: seq<seq<nat>>, u: nat, v: nat)
    requires LaneModuli(e.ms) && Received(received, |theirs|) && k < 5 == |link.up|
    requires RowReads(row, k, bin, link, theirs, received, e.ds, u, b, e.ms)
    ensures row.Full() && SlotReads(Slot(row, v), v, k, bin, link, theirs, received, e.ds, u, b, e.ms)
  {
  }

  lemma {:induction false} EntryRead(rows: seq<Row>, values: nat -> nat, k: nat)
    requires Readable(rows) && k < 5
    ensures TableEntry(SlotsRead(rows, values), k) == Slot(rows[k], values(k))
  {
  }

  lemma {:induction false} RowsYield(rows: seq<Row>, e: Setting, x: nat, b: nat, bin: Simple.Bin, link: Link, theirs: seq<nat>,
                                     received: seq<seq<nat>>, u: nat, values: nat -> nat)
    requires LaneModuli(e.ms) && Received(received, |theirs|) && BinReads(rows, bin, link, theirs, received, e.ds, u, b, e.ms)
    requires Readable(rows) && values == Values(link.up, b, x)
    ensures SlotsOf(SlotsRead(rows, values), x, b, bin, link, theirs, received, e, u)
  {
    var slots := SlotsRead(rows, values);
    forall k | 0 <= k < 5
      ensures SlotReads(TableEntry(slots, k), link.up[k].oprf(b, x), k, bin, link, theirs, received, e.ds, u, b, e.ms)
    {
      var v := values(k);
      assert v == ValueAt(link.up, b, x, k) == link.up[k].oprf(b, x);
      RowYields(rows[k], k, e, b, bin, link, theirs, received, u, v);
      EntryRead(rows, values, k);
    }
  }

  lemma {:induction false} EveryWordRead(p: HashParams, hashes: nat -> seq<nat>, e: Setting, mine: seq<nat>, t: Hashed,
                                         sets: seq<seq<nat>>, clients: seq<Hashed>, highers: seq<seq<seq<int>>>, links: seq<Link>,
                                         received: seq<seq<seq<nat>>>, tables: seq<seq<seq<Row>>>, words: seq<seq<nat>>)
    requires p.Usable() && FullRows(p, hashes) && LaneModuli(e.ms) && HighersFor(highers, |mine|, e.t) && TablesOf(p, hashes, mine, t)
    requires AllTablesOf(p, hashes, sets, clients, |sets|) && |words| == |mine| && forall i :: 0 <= i < |mine| ==> |words[i]| > |sets|
    requires ClientOutcomes(e, mine, highers, t.bins, links, sets, clients, received, tables, |sets|)
    requires ItemsCollected(words, tables, links, e, mine, t.numbers, |mine|)
    ensures AllWordsRead(p, hashes, e, mine, sets, links, t.numbers, received, words)
  {
    forall i, u | 0 <= i < |mine| && 0 <= u < |sets|
      ensures WordReadAt(p, hashes, e, mine[i], sets[u], links[u], t.numbers[i], received[u], words[i][u], u)
    {
      assert ClientOutcome(e, mine, highers, t.bins, links[u], sets[u], clients[u], received[u], tables[u], u);
      assert TablesOf(p, hashes, sets[u], clients[u]);
      assert ItemCollected(words[i], tables, links, e, mine[i], t.numbers[i]);
      OneWordRead(p, hashes, e, mine[i], sets[u], clients[u], links[u], t.numbers[i], received[u], tables[u], words[i][u], u);
    }
  }

  lemma {:induction false} OneWordRead(p: HashParams, hashes: nat -> seq<nat>, e: Setting, x: nat, theirs: seq<nat>, t': Hashed, link: Link,
                                       b: nat, received: seq<seq<nat>>, tables: seq<seq<Row>>, word: nat, u: nat)
    requires p.Usable() && FullRows(p, hashes) && LaneModuli(e.ms) && TablesOf(p, hashes, theirs, t') && Received(received, |theirs|)
    requires TablesRead(tables, t'.bins, link, theirs, received, e.ds, u, e.ms, |t'.bins|)
    requires b < |tables| && Readable(tables[b]) && CollectedWord(word, tables[b], Values(link.up, b, x), e, x, b, u)
    ensures WordReadAt(p, hashes, e, x, theirs, link, b, received, word, u)
  {
    assert BinReads(tables[b], t'.bins[b], link, theirs, received, e.ds, u, b, e.ms);
    RowsYield(tables[b], e, x, b, t'.bins[b], link, theirs, received, u, Values(link.up, b, x));
  }


  /** The protocol. It completes exactly when every party's set has the agreed size and its stash does not
      overflow. Then an element of the leader is marked exactly when its collected words reconstruct it with some
      threshold - 1 clients, the words of its holders being their refreshed shares, and every element held by at
      least threshold - 1 clients is marked, whatever was drawn. */
  method Run(e: Setting, p: HashParams, hashes: nat -> seq<nat>, mine: seq<nat>, sets: seq<seq<nat>>,
             highers: seq<seq<seq<int>>>, links: seq<Link>)
    returns (r: Option<seq<bool>>, ghost numbers: seq<nat>, ghost received: seq<seq<seq<nat>>>, ghost words: seq<seq<nat>>)
    requires GoodSetting(e) && |sets| == e.n - 1
    requires SixBits(p) && FullRows(p, hashes) && InLanes(mine) && LinksDone(p, hashes, mine, sets, links)
    requires HighersFor(highers, |mine|, e.t)
    ensures r.Some? <==> SetFits(p, hashes, mine) && AllSetsFit(p, hashes, sets, |sets|)
    ensures r.Some? ==> |numbers| == |mine| && NumbersOf(p, hashes, mine, numbers)
    ensures r.Some? ==> |r.value| == |words| == |mine| && forall i :: 0 <= i < |mine| ==> |words[i]| == e.n
    ensures r.Some? ==> HoldersGood(e, mine, sets, highers, numbers, words)
    ensures r.Some? ==> forall i :: 0 <= i < |mine| ==> (r.value[i] <==> Reconstructs(words[i], e.ms, e.t, mine[i]))
    ensures r.Some? ==> AllReceived(p, hashes, e, mine, sets, highers, links, received)
    ensures r.Some? ==> AllWordsRead(p, hashes, e, mine, sets, links, numbers, received, words)
    ensures r.Some? ==> forall i :: 0 <= i < |mine| && |Flags.Flagged(Holders(sets, mine[i]), |sets|)| >= e.t - 1 ==> r.value[i]
  {
    r, numbers, received, words := None, [], [], [];
    var own := HashSet(p, hashes, mine);
    if own.Some? {
      var t := own.value;
      var clients := HashClients(p, hashes, sets);
      numbers := t.numbers;
      if clients.Some? {
        var marks;
        marks, received, words := RunTables(e, p, hashes, mine, t, sets, clients.value, highers, links);
        r := Some(marks);
      }
    }
  }

  // The words of the leader and of every holder are refreshed shares.
  ghost predicate HoldersGood(e: Setting, mine: seq<nat>, sets: seq<seq<nat>>, highers: seq<seq<seq<int>>>, numbers: seq<nat>,
                              words: seq<seq<nat>>)
    requires ValidSetting(e) && |sets| == e.n - 1 && HighersFor(highers, |mine|, e.t) && |numbers| == |mine|
  {
    && |words| == |mine| && (forall i :: 0 <= i < |mine| ==> |words[i]| == e.n)
    && forall i, u :: 0 <= i < |mine| && 0 <= u < e.n && (u == e.n - 1 || mine[i] in sets[u]) ==>
         GoodWord(words[i][u], e, mine[i], highers[i], numbers[i], u)
  }

  /** In every lane such a word is the value of the element's sharing polynomial at the party's point plus all
      clients' updates for it. */
  lemma {:induction false} HoldersWord(e: Setting, mine: seq<nat>, sets: seq<seq<nat>>, highers: seq<seq<seq<int>>>, numbers: seq<nat>,
                                       words: seq<seq<nat>>, i: nat, u: nat, k: nat)
    requires ValidSetting(e) && |sets| == e.n - 1 && HighersFor(highers, |mine|, e.t) && |numbers| == |mine|
    requires HoldersGood(e, mine, sets, highers, numbers, words)
    requires i < |mine| && u < e.n && k < 4 && (u == e.n - 1 || mine[i] in sets[u])
    ensures |words| == |mine| && |words[i]| == e.n && |highers[i]| == 4
    ensures Lane(words[i][u], k) < e.ms[k] && Cong(Lane(words[i][u], k),
      Eval([mine[i] % e.ms[k]] + highers[i][k], u + 1) + UpdateSum(e.ds, k, numbers[i], u), e.ms[k])
  {
    assert GoodWord(words[i][u], e, mine[i], highers[i], numbers[i], u);
    GoodWordIff(words[i][u], e, mine[i], highers[i], numbers[i], u);
  }

  /** What the decisions say: the words of the holders and of the leader are their refreshed shares, and the marks
      are what the words reconstruct. */
  lemma {:induction false} DecidedMeans(e: Setting, mine: seq<nat>, sets: seq<seq<nat>>, highers: seq<seq<seq<int>>>, numbers: seq<nat>,
                                        words: seq<seq<nat>>, marks: seq<bool>)
    requires ValidSetting(e) && |sets| == e.n - 1 && HighersFor(highers, |mine|, e.t) && |numbers| == |mine|
    requires AllDecided(e, mine, sets, highers, numbers, words, marks, |mine|)
    ensures |marks| == |words| == |mine| && forall i :: 0 <= i < |mine| ==> |words[i]| == e.n && |highers[i]| == 4
    ensures HoldersGood(e, mine, sets, highers, numbers, words)
    ensures forall i :: 0 <= i < |mine| ==> (marks[i] <==> Reconstructs(words[i], e.ms, e.t, mine[i]))
    ensures forall i :: 0 <= i < |mine| && |Flags.Flagged(Holders(sets, mine[i]), |sets|)| >= e.t - 1 ==> marks[i]
  {
    forall i | 0 <= i < |mine|
      ensures |words[i]| == e.n && |highers[i]| == 4 && (marks[i] <==> Reconstructs(words[i], e.ms, e.t, mine[i]))
      ensures forall u :: 0 <= u < e.n && (u == e.n - 1 || mine[i] in sets[u]) ==> GoodWord(words[i][u], e, mine[i], highers[i], numbers[i], u)
      ensures |Flags.Flagged(Holders(sets, mine[i]), |sets|)| >= e.t - 1 ==> marks[i]
    {
      var held := Holders(sets, mine[i]);
      assert Decided(e, mine[i], held, highers[i], numbers[i], words[i], marks[i]);
      HeldCounts(held, |held|);
      assert held[..|held|] == held;
      forall u | 0 <= u < e.n && (u == e.n - 1 || mine[i] in sets[u])
        ensures GoodWord(words[i][u], e, mine[i], highers[i], numbers[i], u)
      {
        assert u < e.n - 1 ==> held[u];
      }
    }
  }
}
