/**
 A group of prime order whose elements are 32-byte strings, as section 3 of RFC 9496 offers it:
 equal elements have equal encodings, the identity is the all-zero string, and strings that encode no
 element are not valid.
 */
module Groups {
  import opened NumberTheory
  import opened BitPositions

  const ZERO_POINT: Point := [0, 0, 0, 0, 0, 0, 0, 0, 0, 0, 0, 0, 0, 0, 0, 0, 0, 0, 0, 0, 0, 0, 0, 0, 0, 0, 0, 0, 0, 0, 0, 0]

  datatype Group = Group(valid: Point -> bool, add: (Point, Point) -> Point, sub: (Point, Point) -> Point,
                         base: Point, order: nat)

  // Names an instance of the laws, so that a proof uses just the ones it asks for.
  ghost predicate Instance(a: Point, b: Point, c: Point) {
    true
  }

  ghost predicate Laws(g: Group) {
    && g.valid(ZERO_POINT) && g.valid(g.base)
    && forall a, b, c {:trigger Instance(a, b, c)} :: Instance(a, b, c) && g.valid(a) && g.valid(b) && g.valid(c) ==>
      && g.valid(g.add(a, b)) && g.valid(g.sub(a, b))
      && g.add(g.add(a, b), c) == g.add(a, g.add(b, c))
      && g.add(a, b) == g.add(b, a)
      && g.add(a, ZERO_POINT) == a
      && g.add(g.sub(a, b), b) == a
  }

  lemma {:induction false} AddValid(g: Group, a: Point, b: Point)
    requires Laws(g) && g.valid(a) && g.valid(b)
    ensures g.valid(g.add(a, b)) && g.valid(g.sub(a, b)) && g.add(g.sub(a, b), b) == a
  {
    assert Instance(a, b, a);
  }

  lemma {:induction false} AddAssoc(g: Group, a: Point, b: Point, c: Point)
    requires Laws(g) && g.valid(a) && g.valid(b) && g.valid(c)
    ensures g.add(g.add(a, b), c) == g.add(a, g.add(b, c))
  {
    assert Instance(a, b, c);
  }

  lemma {:induction false} AddComm(g: Group, a: Point, b: Point)
    requires Laws(g) && g.valid(a) && g.valid(b)
    ensures g.add(a, b) == g.add(b, a)
  {
    assert Instance(a, b, a);
  }

  lemma {:induction false} AddZero(g: Group, a: Point)
    requires Laws(g) && g.valid(a)
    ensures g.add(a, ZERO_POINT) == a == g.add(ZERO_POINT, a)
  {
    assert Instance(a, ZERO_POINT, a);
  }

  // Scalar multiplication: k times p.
  function Times(g: Group, k: nat, p: Point): Point {
    if k == 0 then ZERO_POINT else g.add(Times(g, k - 1, p), p)
  }

  ghost predicate IsGroup(g: Group) {
    Laws(g) && Prime(g.order) && forall p :: g.valid(p) ==> Times(g, g.order, p) == ZERO_POINT
  }

  /** Subtraction undoes addition. */
  lemma {:induction false} SubAdd(g: Group, a: Point, b: Point)
    requires Laws(g) && g.valid(a) && g.valid(b)
    ensures g.sub(g.add(a, b), b) == a
  {
    var t := g.add(a, b);
    AddValid(g, a, b);
    AddValid(g, t, b);
    Cancel(g, g.sub(t, b), a, b);
  }

  lemma {:induction false} Cancel(g: Group, s: Point, a: Point, b: Point)
    requires Laws(g) && g.valid(s) && g.valid(a) && g.valid(b) && g.add(s, b) == g.add(a, b)
    ensures s == a
  {
    var n := g.sub(ZERO_POINT, b);
    AddValid(g, ZERO_POINT, b);
    AddComm(g, n, b);
    AddAssoc(g, s, b, n);
    AddAssoc(g, a, b, n);
    AddZero(g, s);
    AddZero(g, a);
  }

  lemma {:induction false} TimesValid(g: Group, k: nat, p: Point)
    requires Laws(g) && g.valid(p)
    ensures g.valid(Times(g, k, p))
  {
    if k > 0 {
      TimesValid(g, k - 1, p);
      AddValid(g, Times(g, k - 1, p), p);
    }
  }

  // (j + k) p = j p + k p
  lemma {:induction false} TimesAdd(g: Group, j: nat, k: nat, p: Point)
    requires Laws(g) && g.valid(p)
    ensures Times(g, j + k, p) == g.add(Times(g, j, p), Times(g, k, p))
  {
    TimesValid(g, j, p);
    if k == 0 {
      AddZero(g, Times(g, j, p));
    } else {
      TimesAdd(g, j, k - 1, p);
      TimesValid(g, k - 1, p);
      AddAssoc(g, Times(g, j, p), Times(g, k - 1, p), p);
    }
  }

  lemma {:induction false} TimesOnce(g: Group, p: Point)
    requires Laws(g) && g.valid(p)
    ensures Times(g, 0, p) == ZERO_POINT && Times(g, 1, p) == p
  {
    assert Times(g, 1, p) == g.add(Times(g, 0, p), p);
    AddZero(g, p);
  }

  lemma {:induction false} TimesZero(g: Group, k: nat)
    requires Laws(g)
    ensures Times(g, k, ZERO_POINT) == ZERO_POINT
  {
    if k > 0 {
      TimesZero(g, k - 1);
      AddZero(g, ZERO_POINT);
    }
  }

  // (j k) p = j (k p)
  lemma {:induction false} TimesTimes(g: Group, j: nat, k: nat, p: Point)
    requires Laws(g) && g.valid(p)
    ensures Times(g, j * k, p) == Times(g, j, Times(g, k, p))
  {
    if j > 0 {
      var i, q := (j - 1) * k, Times(g, k, p);
      TimesTimes(g, j - 1, k, p);
      assert j * k == i + k by { Distribute(k, j - 1, 1); }
      TimesAdd(g, i, k, p);
    }
  }

  /** Only the scalar's residue modulo the order matters. */
  lemma {:induction false} TimesMod(g: Group, k: nat, p: Point)
    requires IsGroup(g) && g.valid(p)
    ensures Times(g, k, p) == Times(g, k % g.order, p)
  {
    var q, r := k / g.order, k % g.order;
    var t := q * g.order;
    assert k == t + r;
    TimesAdd(g, t, r, p);
    TimesTimes(g, q, g.order, p);
    TimesZero(g, q);
    TimesValid(g, r, p);
    AddZero(g, Times(g, r, p));
  }

  // Congruent scalars give the same multiple.
  lemma {:induction false} TimesCong(g: Group, j: nat, k: nat, p: Point)
    requires IsGroup(g) && g.valid(p) && Cong(j, k, g.order)
    ensures Times(g, j, p) == Times(g, k, p)
  {
    TimesMod(g, j, p);
    TimesMod(g, k, p);
  }

  // k (p + q) = k p + k q
  lemma {:induction false} TimesOfSum(g: Group, k: nat, p: Point, q: Point)
    requires Laws(g) && g.valid(p) && g.valid(q)
    ensures Times(g, k, g.add(p, q)) == g.add(Times(g, k, p), Times(g, k, q))
  {
    if k == 0 {
      AddZero(g, ZERO_POINT);
    } else {
      TimesOfSum(g, k - 1, p, q);
      TimesValid(g, k - 1, p);
      TimesValid(g, k - 1, q);
      Interchange(g, Times(g, k - 1, p), Times(g, k - 1, q), p, q);
    }
  }

  // (a + b) + (c + d) = (a + c) + (b + d)
  lemma {:induction false} Interchange(g: Group, a: Point, b: Point, c: Point, d: Point)
    requires Laws(g) && g.valid(a) && g.valid(b) && g.valid(c) && g.valid(d)
    ensures g.add(g.add(a, b), g.add(c, d)) == g.add(g.add(a, c), g.add(b, d))
  {
    AddValid(g, c, d);
    AddValid(g, b, d);
    AddAssoc(g, a, b, g.add(c, d));
    AddAssoc(g, b, c, d);
    AddComm(g, b, c);
    AddAssoc(g, c, b, d);
    AddAssoc(g, a, c, g.add(b, d));
  }
}
