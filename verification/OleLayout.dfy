/**
 How YYH26 packs its oblivious linear evaluations: one cell per party, bin and slot is laid out in rows
 of a fixed width by a row and column cursor, evaluated row by row, and read back with the same cursor.
 */
module OleLayout {
  import opened NumberTheory
  import opened OleRefresh

  // The number of slots of the first b bins.
  function Before(sizes: seq<nat>, b: nat): nat
    requires b <= |sizes|
  {
    if b == 0 then 0 else Before(sizes, b - 1) + sizes[b - 1]
  }

  lemma {:induction false} BeforeGrows(sizes: seq<nat>, b: nat, c: nat)
    requires b <= c <= |sizes|
    ensures Before(sizes, b) <= Before(sizes, c)
  {
    if b < c {
      BeforeGrows(sizes, b, c - 1);
    }
  }

  // Party i, bin b, slot j.
  ghost predicate IsCell(sizes: seq<nat>, n: nat, i: nat, b: nat, j: nat) {
    i < n && b < |sizes| && j < sizes[b]
  }

  // The number of cells before this one in the order of the loops.
  function Offset(sizes: seq<nat>, i: nat, b: nat, j: nat): nat
    requires b <= |sizes|
  {
    i * Before(sizes, |sizes|) + Before(sizes, b) + j
  }

  /** The places follow the loops: the next slot, bin or party goes on where the one before ended. */
  lemma {:induction false} OffsetFollows(sizes: seq<nat>, i: nat, b: nat, j: nat)
    requires b < |sizes|
    ensures Offset(sizes, 0, 0, 0) == 0 && Offset(sizes, i, b, j + 1) == Offset(sizes, i, b, j) + 1
    ensures Offset(sizes, i, b + 1, 0) == Offset(sizes, i, b, sizes[b])
    ensures Offset(sizes, i + 1, 0, 0) == Offset(sizes, i, |sizes|, 0)
  {
    var t := Before(sizes, |sizes|);
    assert (i + 1) * t == i * t + t;
  }

  // Inside its party's part.
  lemma {:induction false} InPart(sizes: seq<nat>, n: nat, i: nat, b: nat, j: nat)
    requires IsCell(sizes, n, i, b, j)
    ensures Before(sizes, b) + j < Before(sizes, |sizes|)
  {
    BeforeGrows(sizes, b + 1, |sizes|);
  }

  lemma {:induction false} OffsetBelow(sizes: seq<nat>, n: nat, i: nat, b: nat, j: nat)
    requires IsCell(sizes, n, i, b, j)
    ensures Offset(sizes, i, b, j) < n * Before(sizes, |sizes|)
  {
    InPart(sizes, n, i, b, j);
    var t := Before(sizes, |sizes|);
    MulMono(t, i + 1, n);
    assert t * (i + 1) == i * t + t && t * n == n * t;
  }

  /** No two cells share a place. */
  lemma {:induction false} OffsetInjective(sizes: seq<nat>, n: nat, i: nat, b: nat, j: nat, i': nat, b': nat, j': nat)
    requires IsCell(sizes, n, i, b, j) && IsCell(sizes, n, i', b', j')
    requires Offset(sizes, i, b, j) == Offset(sizes, i', b', j')
    ensures i == i' && b == b' && j == j'
  {
    InPart(sizes, n, i, b, j);
    InPart(sizes, n, i', b', j');
    var t := Before(sizes, |sizes|);
    ModUnique(Offset(sizes, i, b, j), t, i, Before(sizes, b) + j);
    ModUnique(Offset(sizes, i', b', j'), t, i', Before(sizes, b') + j');
    if b < b' {
      BeforeGrows(sizes, b + 1, b');
    } else if b' < b {
      BeforeGrows(sizes, b' + 1, b);
    }
  }

  // ---------------------------------------------------------------- the cursor

  class Cursor {
    const width: nat
    var row: nat
    var col: nat

    ghost predicate Valid()
      reads this
    {
      width > 0 && col <= width
    }

    // How many places were handed out.
    ghost function Count(): nat
      reads this
    {
      row * width + col
    }

    constructor (width: nat)
      requires width > 0
      ensures this.width == width && Valid() && Count() == 0
    {
      this.width := width;
      row, col := 0, 0;
    }

    /** The next place: rows are filled from left to right, one after the other. */
    method Next() returns (r: nat, c: nat)
      requires Valid()
      modifies this
      ensures Valid() && Count() == old(Count()) + 1
      ensures c < width && r == old(Count()) / width && c == old(Count()) % width
    {
      ghost var count := Count();
      if col >= width {
        row, col := row + 1, 0;
        assert row * width == (row - 1) * width + width;
      }
      r, c := row, col;
      col := col + 1;
      ModUnique(count, width, r, c);
    }
  }

  lemma {:induction false} RowBelow(count: nat, width: nat, rows: nat)
    requires width > 0 && count < rows * width
    ensures count / width < rows
  {
    var q := count / width;
    assert count == q * width + count % width;
    if q >= rows {
      MulMono(width, rows, q);
    }
  }

  // ---------------------------------------------------------------- writing

  // Place number `o` of the grid holds v.
  ghost predicate At(grid: array2<nat>, o: nat, v: nat)
    reads grid
  {
    grid.Length1 > 0 && o / grid.Length1 < grid.Length0 && grid[o / grid.Length1, o % grid.Length1] == v
  }

  // Every cell before `count` holds its value.
  ghost predicate Filled(grid: array2<nat>, sizes: seq<nat>, n: nat, values: (nat, nat, nat) -> nat, count: nat)
    reads grid
  {
    forall i: nat, b: nat, j: nat :: IsCell(sizes, n, i, b, j) && Offset(sizes, i, b, j) < count ==>
      At(grid, Offset(sizes, i, b, j), values(i, b, j))
  }

  lemma {:induction false} PlacesDiffer(a: nat, b: nat, w: nat)
    requires w > 0 && a != b
    ensures a / w != b / w || a % w != b % w
  {
    assert a == (a / w) * w + a % w && b == (b / w) * w + b % w;
  }

  // Writing one place changes no other.
  method WritePlace(grid: array2<nat>, r: nat, c: nat, v: nat, ghost count: nat)
    requires grid.Length1 > 0 && r == count / grid.Length1 < grid.Length0 && c == count % grid.Length1
    modifies grid
    ensures At(grid, count, v)
    ensures forall o: nat, w: nat :: o != count && old(At(grid, o, w)) ==> At(grid, o, w)
  {
    grid[r, c] := v;
    forall o: nat, w: nat | o != count && old(At(grid, o, w))
      ensures At(grid, o, w)
    {
      PlacesDiffer(o, count, grid.Length1);
    }
  }

  // One more cell.
  method WriteCell(grid: array2<nat>, cursor: Cursor, sizes: seq<nat>, n: nat, values: (nat, nat, nat) -> nat, i: nat, b: nat, j: nat)
    requires IsCell(sizes, n, i, b, j) && n * Before(sizes, |sizes|) <= grid.Length0 * grid.Length1
    requires cursor.Valid() && cursor.width == grid.Length1 && cursor.Count() == Offset(sizes, i, b, j)
    requires Filled(grid, sizes, n, values, cursor.Count())
    modifies grid, cursor
    ensures cursor.Valid() && cursor.Count() == Offset(sizes, i, b, j) + 1
    ensures Filled(grid, sizes, n, values, cursor.Count())
  {
    ghost var count := cursor.Count();
    OffsetBelow(sizes, n, i, b, j);
    RowBelow(count, grid.Length1, grid.Length0);
    var r, c := cursor.Next();
    WritePlace(grid, r, c, values(i, b, j), count);
    forall i': nat, b': nat, j': nat | IsCell(sizes, n, i', b', j') && Offset(sizes, i', b', j') < count + 1
      ensures At(grid, Offset(sizes, i', b', j'), values(i', b', j'))
    {
      if Offset(sizes, i', b', j') == count {
        OffsetInjective(sizes, n, i, b, j, i', b', j');
      }
    }
  }

  /** The writing loops: parties, bins and slots, as many slots as the bin's table has. */
  method Scatter(sizes: seq<nat>, n: nat, values: (nat, nat, nat) -> nat, grid: array2<nat>)
    requires grid.Length1 > 0 && n * Before(sizes, |sizes|) <= grid.Length0 * grid.Length1
    modifies grid
    ensures Filled(grid, sizes, n, values, n * Before(sizes, |sizes|))
    ensures forall i: nat, b: nat, j: nat :: IsCell(sizes, n, i, b, j) ==>
      var o := Offset(sizes, i, b, j);
      o / grid.Length1 < grid.Length0 && grid[o / grid.Length1, o % grid.Length1] == values(i, b, j)
  {
    var cursor := new Cursor(grid.Length1);
    for i := 0 to n
      invariant cursor.Valid() && cursor.width == grid.Length1 && cursor.Count() == i * Before(sizes, |sizes|)
      invariant fresh(cursor) && Filled(grid, sizes, n, values, cursor.Count())
    {
      for b := 0 to |sizes|
        invariant cursor.Valid() && cursor.width == grid.Length1 && cursor.Count() == Offset(sizes, i, b, 0)
        invariant fresh(cursor) && Filled(grid, sizes, n, values, cursor.Count())
      {
        for j := 0 to sizes[b]
          invariant cursor.Valid() && cursor.width == grid.Length1 && cursor.Count() == Offset(sizes, i, b, j)
          invariant fresh(cursor) && Filled(grid, sizes, n, values, cursor.Count())
        {
          WriteCell(grid, cursor, sizes, n, values, i, b, j);
        }
      }
      assert (i + 1) * Before(sizes, |sizes|) == i * Before(sizes, |sizes|) + Before(sizes, |sizes|);
    }
    forall i: nat, b: nat, j: nat | IsCell(sizes, n, i, b, j)
      ensures At(grid, Offset(sizes, i, b, j), values(i, b, j))
    {
      OffsetBelow(sizes, n, i, b, j);
    }
  }

  // ---------------------------------------------------------------- reading back

  // Every cell before `count` was read from its place.
  ghost predicate ReadBack(out: array3<nat>, grid: array2<nat>, sizes: seq<nat>, n: nat, count: nat)
    reads out, grid
  {
    forall i: nat, b: nat, j: nat :: IsCell(sizes, n, i, b, j) && Offset(sizes, i, b, j) < count ==>
      i < out.Length0 && j < out.Length1 && b < out.Length2 && At(grid, Offset(sizes, i, b, j), out[i, j, b])
  }

  method ReadCell(out: array3<nat>, grid: array2<nat>, cursor: Cursor, sizes: seq<nat>, n: nat, i: nat, b: nat, j: nat)
    requires IsCell(sizes, n, i, b, j) && n * Before(sizes, |sizes|) <= grid.Length0 * grid.Length1
    requires cursor.Valid() && cursor.width == grid.Length1 && cursor.Count() == Offset(sizes, i, b, j)
    requires out.Length0 == n && out.Length2 == |sizes| && j < out.Length1
    requires ReadBack(out, grid, sizes, n, cursor.Count())
    modifies out, cursor
    ensures cursor.Valid() && cursor.Count() == Offset(sizes, i, b, j) + 1
    ensures ReadBack(out, grid, sizes, n, cursor.Count())
  {
    ghost var count := cursor.Count();
    OffsetBelow(sizes, n, i, b, j);
    RowBelow(count, grid.Length1, grid.Length0);
    var r, c := cursor.Next();
    out[i, j, b] := grid[r, c];
    forall i': nat, b': nat, j': nat | IsCell(sizes, n, i', b', j') && Offset(sizes, i', b', j') < count + 1
      ensures i' < out.Length0 && j' < out.Length1 && b' < out.Length2 && At(grid, Offset(sizes, i', b', j'), out[i', j', b'])
    {
      if Offset(sizes, i', b', j') == count {
        OffsetInjective(sizes, n, i, b, j, i', b', j');
      }
    }
  }

  method Gather(grid: array2<nat>, sizes: seq<nat>, n: nat, maxSize: nat) returns (out: array3<nat>)
    requires grid.Length1 > 0 && n * Before(sizes, |sizes|) <= grid.Length0 * grid.Length1
    requires forall b :: 0 <= b < |sizes| ==> sizes[b] <= maxSize
    ensures out.Length0 == n && out.Length1 == maxSize && out.Length2 == |sizes| && fresh(out)
    ensures ReadBack(out, grid, sizes, n, n * Before(sizes, |sizes|))
  {
    out := new nat[n, maxSize, |sizes|]((_, _, _) => 0);
    var cursor := new Cursor(grid.Length1);
    for i := 0 to n
      invariant cursor.Valid() && cursor.width == grid.Length1 && cursor.Count() == i * Before(sizes, |sizes|)
      invariant fresh(cursor) && ReadBack(out, grid, sizes, n, cursor.Count())
    {
      for b := 0 to |sizes|
        invariant cursor.Valid() && cursor.width == grid.Length1 && cursor.Count() == Offset(sizes, i, b, 0)
        invariant fresh(cursor) && ReadBack(out, grid, sizes, n, cursor.Count())
      {
        for j := 0 to sizes[b]
          invariant cursor.Valid() && cursor.width == grid.Length1 && cursor.Count() == Offset(sizes, i, b, j)
          invariant fresh(cursor) && ReadBack(out, grid, sizes, n, cursor.Count())
        {
          ReadCell(out, grid, cursor, sizes, n, i, b, j);
        }
      }
      assert (i + 1) * Before(sizes, |sizes|) == i * Before(sizes, |sizes|) + Before(sizes, |sizes|);
    }
  }

  // ---------------------------------------------------------------- a batch

  // The number of rows: the quotient rounded up.
  function RowsFor(cells: nat, width: nat): nat
    requires width > 0
  {
    (cells + width - 1) / width
  }

  lemma {:induction false} RowsSuffice(cells: nat, width: nat)
    requires width > 0
    ensures cells <= RowsFor(cells, width) * width < cells + width
  {
    var a := cells + width - 1;
    assert a == (a / width) * width + a % width;
  }

  // Every place of the result is the evaluation of the places of the inputs.
  ghost predicate Evaluated(a: array2<nat>, x: array2<nat>, b: array2<nat>, out: array2<nat>, m: nat)
    requires m > 0
    reads a, x, b, out
  {
    && a.Length0 == x.Length0 == b.Length0 == out.Length0 && a.Length1 == x.Length1 == b.Length1 == out.Length1
    && forall r, c :: 0 <= r < out.Length0 && 0 <= c < out.Length1 ==> out[r, c] == Ole(a[r, c], x[r, c], b[r, c], m)
  }

  lemma {:induction false} PlaceEvaluated(a: array2<nat>, x: array2<nat>, b: array2<nat>, out: array2<nat>, m: nat, o: nat,
                                          factor: nat, input: nat, summand: nat, result: nat)
    requires m > 0 && Evaluated(a, x, b, out, m)
    requires At(a, o, factor) && At(x, o, input) && At(b, o, summand) && At(out, o, result)
    ensures result == Ole(factor, input, summand, m)
  {
    var r, c := o / out.Length1, o % out.Length1;
    assert out[r, c] == Ole(a[r, c], x[r, c], b[r, c], m);
  }

  // All places of the grids, row by row.
  method EvaluateRows(a: array2<nat>, x: array2<nat>, b: array2<nat>, m: nat) returns (out: array2<nat>)
    requires m > 0 && a.Length0 == x.Length0 == b.Length0 && a.Length1 == x.Length1 == b.Length1
    ensures fresh(out) && Evaluated(a, x, b, out, m)
  {
    out := new nat[a.Length0, a.Length1]((_, _) => 0);
    for r := 0 to a.Length0
      invariant forall r', c' :: 0 <= r' < r && 0 <= c' < out.Length1 ==> out[r', c'] == Ole(a[r', c'], x[r', c'], b[r', c'], m)
    {
      for c := 0 to a.Length1
        invariant forall r', c' :: 0 <= r' < r && 0 <= c' < out.Length1 ==> out[r', c'] == Ole(a[r', c'], x[r', c'], b[r', c'], m)
        invariant forall c' :: 0 <= c' < c ==> out[r, c'] == Ole(a[r, c'], x[r, c'], b[r, c'], m)
      {
        out[r, c] := Ole(a[r, c], x[r, c], b[r, c], m);
      }
    }
  }

  // A new grid with every cell in its place.
  method Filling(sizes: seq<nat>, n: nat, rows: nat, width: nat, values: (nat, nat, nat) -> nat) returns (grid: array2<nat>)
    requires width > 0 && n * Before(sizes, |sizes|) <= rows * width
    ensures fresh(grid) && grid.Length0 == rows && grid.Length1 == width
    ensures Filled(grid, sizes, n, values, n * Before(sizes, |sizes|))
  {
    grid := new nat[rows, width]((_, _) => 0);
    Scatter(sizes, n, values, grid);
  }

  /** A batch of evaluations: no place runs out of the rows set aside, and every party, bin and slot gets
      the evaluation of its own factor, input and summand. */
  method BatchedOle(sizes: seq<nat>, n: nat, maxSize: nat, width: nat, m: nat,
                    factors: (nat, nat, nat) -> nat, inputs: (nat, nat, nat) -> nat, summands: (nat, nat, nat) -> nat)
    returns (out: array3<nat>)
    requires width > 0 && m > 0 && forall b :: 0 <= b < |sizes| ==> sizes[b] <= maxSize
    ensures out.Length0 == n && out.Length1 == maxSize && out.Length2 == |sizes|
    ensures forall i: nat, b: nat, j: nat :: IsCell(sizes, n, i, b, j) ==>
      i < out.Length0 && j < out.Length1 && b < out.Length2
      && out[i, j, b] == Ole(factors(i, b, j), inputs(i, b, j), summands(i, b, j), m)
    ensures forall i: nat, b: nat, j: nat :: i < n && b < |sizes| && j < sizes[b] ==>
      i < out.Length0 && j < out.Length1 && b < out.Length2
      && out[i, j, b] == (factors(i, b, j) * inputs(i, b, j) + summands(i, b, j)) % m
  {
    var cells := n * Before(sizes, |sizes|);
    RowsSuffice(cells, width);
    var rows := RowsFor(cells, width);
    var a := Filling(sizes, n, rows, width, factors);
    var x := Filling(sizes, n, rows, width, inputs);
    var b := Filling(sizes, n, rows, width, summands);
    var results := EvaluateRows(a, x, b, m);
    out := Gather(results, sizes, n, maxSize);
    forall i: nat, bin: nat, j: nat | i < n && bin < |sizes| && j < sizes[bin]
      ensures i < out.Length0 && j < out.Length1 && bin < out.Length2
      ensures out[i, j, bin] == Ole(factors(i, bin, j), inputs(i, bin, j), summands(i, bin, j), m)
    {
      assert IsCell(sizes, n, i, bin, j);
      OffsetBelow(sizes, n, i, bin, j);
      PlaceEvaluated(a, x, b, results, m, Offset(sizes, i, bin, j), factors(i, bin, j), inputs(i, bin, j), summands(i, bin, j),
                     out[i, j, bin]);
    }
  }
}
