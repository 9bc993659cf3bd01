/**
 The Bloom filter of BEH21: bits packed into 64-bit words. The hash is an arbitrary function.
 */
module BloomFilters {
  import opened NumberTheory
  import opened Bits
  import opened Paillier

  const BITS_PER_WORD: nat := 64

  // ---------------------------------------------------------------- the filter

  class BloomFilter {
    const size: nat
    const seeds: seq<nat>
    const hash: (nat, nat) -> nat
    var data: seq<nat>

    ghost predicate Valid()
      reads this
    {
      size > 0 && |seeds| > 0 && |data| == (size + BITS_PER_WORD - 1) / BITS_PER_WORD
    }

    // operator[]
    function Bit(idx: nat): bool
      requires Valid() && idx < size
      reads this
    {
      WordInRange(idx, size);
      BitAt(data[idx / BITS_PER_WORD], idx % BITS_PER_WORD)
    }

    // The positions of an element: one per seed.
    function Position(element: nat, s: nat): nat
      requires size > 0
    {
      hash(element, s) % size
    }

    ghost predicate Covers(element: nat)
      requires Valid()
      reads this
    {
      forall i :: 0 <= i < |seeds| ==> Bit(Position(element, seeds[i]))
    }

    // numBits > 0 and a non-empty seed list are checked by the C++ constructor.
    constructor (numBits: nat, hashSeeds: seq<nat>, h: (nat, nat) -> nat)
      requires numBits > 0 && |hashSeeds| > 0
      ensures Valid() && size == numBits && seeds == hashSeeds && hash == h
      ensures forall i :: 0 <= i < size ==> !Bit(i)
    {
      size, seeds, hash := numBits, hashSeeds, h;
      data := seq((numBits + BITS_PER_WORD - 1) / BITS_PER_WORD, _ => 0);
      new;
      forall i | 0 <= i < size
        ensures !Bit(i)
      {
        WordInRange(i, size);
        PowPositive(2, i % BITS_PER_WORD);
        ModUnique(0, Pow(2, i % BITS_PER_WORD), 0, 0);
      }
    }

    // set: throws out of range, otherwise sets exactly that bit.
    method Set(idx: nat) returns (ok: bool)
      requires Valid()
      modifies this
      ensures Valid() && (ok <==> idx < size)
      ensures forall i :: 0 <= i < size ==> (Bit(i) <==> (i == idx || old(Bit(i))))
    {
      if idx >= size {
        return false;
      }
      WordInRange(idx, size);
      var wordIdx, bitIdx := idx / BITS_PER_WORD, idx % BITS_PER_WORD;
      ghost var was := data;
      data := data[wordIdx := OrBit(data[wordIdx], bitIdx)];
      forall i | 0 <= i < size
        ensures Bit(i) <==> (i == idx || old(Bit(i)))
      {
        WordInRange(i, size);
        if i / BITS_PER_WORD == wordIdx {
          OrBitSets(was[wordIdx], bitIdx, i % BITS_PER_WORD);
          assert i == BITS_PER_WORD * (i / BITS_PER_WORD) + i % BITS_PER_WORD;
          assert idx == BITS_PER_WORD * wordIdx + bitIdx;
        }
      }
      ok := true;
    }

    /** add: afterwards the set bits are the old ones and the element's positions. */
    method Add(element: nat)
      requires Valid()
      modifies this
      ensures Valid() && Covers(element)
      ensures forall i :: 0 <= i < size ==>
        (Bit(i) <==> old(Bit(i)) || exists k :: 0 <= k < |seeds| && i == Position(element, seeds[k]))
    {
      for j := 0 to |seeds|
        invariant Valid()
        invariant forall i :: 0 <= i < size ==>
          (Bit(i) <==> old(Bit(i)) || exists k :: 0 <= k < j && i == Position(element, seeds[k]))
      {
        var idx := Position(element, seeds[j]);
        var ok := Set(idx);
      }
    }

    method Contains(element: nat) returns (r: bool)
      requires Valid()
      ensures r <==> Covers(element)
    {
      for j := 0 to |seeds|
        invariant forall i :: 0 <= i < j ==> Bit(Position(element, seeds[i]))
      {
        if !Bit(Position(element, seeds[j])) {
          return false;
        }
      }
      return true;
    }
  }

  lemma {:induction false} WordInRange(idx: nat, size: nat)
    requires idx < size
    ensures idx / BITS_PER_WORD < (size + BITS_PER_WORD - 1) / BITS_PER_WORD
  {
  }

  /** A filter built from a set covers every element of the set. */
  method BuildFilter(inputs: seq<nat>, numBits: nat, seeds: seq<nat>, h: (nat, nat) -> nat) returns (f: BloomFilter)
    requires numBits > 0 && |seeds| > 0
    ensures fresh(f) && f.Valid() && f.size == numBits && f.seeds == seeds && f.hash == h
    ensures forall x :: x in inputs ==> f.Covers(x)
  {
    f := new BloomFilter(numBits, seeds, h);
    for i := 0 to |inputs|
      invariant fresh(f) && f.Valid() && f.size == numBits && f.seeds == seeds && f.hash == h
      invariant forall k :: 0 <= k < i ==> f.Covers(inputs[k])
    {
      f.Add(inputs[i]);
    }
  }
}
