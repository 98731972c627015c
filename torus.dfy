/** The toroidal indexer of the incremental engine (src/life.mjs).
    A grid of `cols * rows` cells is stored row by row: cell (x, y) has
    linear index x + y * cols.  Coordinates outside the grid, negative ones
    included, wrap around both edges. */
module Torus {
  import FullGrid

  /** JavaScript's `%`: the remainder truncated toward zero, so it takes
      the sign of the dividend (-1 % 5 is -1), unlike Dafny's Euclidean `%`. */
  function JsRem(a: int, n: int): (r: int)
    requires n > 0
    ensures -n < r < n
    ensures r != 0 ==> (r < 0 <==> a < 0)
    ensures a >= 0 ==> r == a % n
  {
    if a >= 0 then a % n else -((-a) % n)
  }

  /** The truncated remainder lies strictly between -n and n and differs
      from the Euclidean one by n exactly when it is negative. */
  lemma JsRemIsTruncated(a: int, n: int)
    requires n > 0
    ensures a >= 0 ==> JsRem(a, n) == a % n
    ensures a < 0 ==> -n < JsRem(a, n) <= 0
    ensures a % n == (if JsRem(a, n) < 0 then JsRem(a, n) + n else JsRem(a, n))
  {
    if a < 0 {
      NegativeRem(a, n);
    }
  }

  lemma NegativeRem(a: int, n: int)
    requires n > 0 && a < 0
    ensures a % n == (if (-a) % n == 0 then 0 else n - (-a) % n)
  {
    var m := (-a) % n;
    DivModUnique(-a, n, (-a) / n, m);
    if m != 0 {
      DivModUnique(a, n, -((-a) / n) - 1, n - m);
    } else {
      DivModUnique(a, n, -((-a) / n), 0);
    }
  }

  /** Euclidean division is the only decomposition a == q * n + r with 0 <= r < n. */
  lemma DivModUnique(a: int, n: int, q: int, r: int)
    requires n > 0 && 0 <= r < n && a == q * n + r
    ensures a / n == q && a % n == r
  {
    var q', r' := a / n, a % n;
    assert (q - q') * n == r' - r;
    if q > q' {
      MulAtLeast(q - q', n);
    } else if q < q' {
      MulAtLeast(q' - q, n);
    }
  }

  lemma MulAtLeast(d: int, n: int)
    requires d >= 1 && n > 0
    ensures d * n >= n
  {
    assert d * n == (d - 1) * n + n;
  }

  /** Shifting by a whole number of periods does not change the Euclidean remainder. */
  lemma ModShift(a: int, k: int, n: int)
    requires n > 0
    ensures (a + k * n) % n == a % n
  {
    DivModUnique(a, n, a / n, a % n);
    assert a + k * n == (a / n + k) * n + a % n;
    DivModUnique(a + k * n, n, a / n + k, a % n);
  }

  /** One axis of pointToIndex: the truncated remainder, moved into
      [0, n) by adding n when the delta is negative and the remainder nonzero. */
  function Wrap(d: int, n: int): (w: int)
    requires n > 0
    ensures 0 <= w < n
  {
    JsRemIsTruncated(d, n);
    var m := JsRem(d, n);
    if m == 0 then 0 else (if d < 0 then n else 0) + m
  }

  /** The sign fix-up makes the truncated remainder Euclidean. */
  lemma WrapIsMod(d: int, n: int)
    requires n > 0
    ensures Wrap(d, n) == d % n
  {
    JsRemIsTruncated(d, n);
  }

  /** The number of cells of a cols x rows grid, counted row by row.  Stated
      recursively so that the grid-level proofs reason about a cell count
      rather than a product; CellsIsProduct relates the two. */
  function Cells(cols: int, rows: int): (n: int)
    ensures cols >= 0 ==> n >= 0
    ensures n > 0 ==> cols > 0 && rows > 0
    decreases rows
  {
    if rows <= 0 then 0 else Cells(cols, rows - 1) + cols
  }

  lemma {:induction false} CellsIsProduct(cols: int, rows: int)
    requires rows >= 0
    ensures Cells(cols, rows) == cols * rows
    decreases rows
  {
    if rows > 0 {
      CellsIsProduct(cols, rows - 1);
    }
  }

  /** pointToIndex: the wrapped linear index of any integer coordinate. */
  function PointToIndex(cols: int, rows: int, dx: int, dy: int): (r: int)
    requires cols > 0 && rows > 0
    ensures 0 <= r < Cells(cols, rows)
  {
    var x := Wrap(dx, cols);
    var y := Wrap(dy, rows);
    InRange(cols, rows, x, y);
    x + y * cols
  }

  /** The index is the Euclidean remainders of the two coordinates, row by row. */
  lemma PointToIndexIsMod(cols: int, rows: int, dx: int, dy: int)
    requires cols > 0 && rows > 0
    ensures PointToIndex(cols, rows, dx, dy) == dx % cols + (dy % rows) * cols
  {
    WrapIsMod(dx, cols);
    WrapIsMod(dy, rows);
  }

  lemma InRange(cols: int, rows: int, x: int, y: int)
    requires 0 <= x < cols && 0 <= y < rows
    ensures 0 <= x + y * cols < Cells(cols, rows)
  {
    CellsIsProduct(cols, rows);
    assert y * cols <= (rows - 1) * cols;
    assert (rows - 1) * cols == cols * rows - cols;
  }

  /** indexToPoint: [index % cols, Math.floor(index / cols)], with JavaScript's
      truncating `%` and a floor division (Dafny's `/` floors for a positive
      divisor).  For a negative index the pair is not a decomposition of it. */
  function IndexToPoint(cols: int, rows: int, index: int): (p: (int, int))
    requires cols > 0
    ensures index >= 0 ==> 0 <= p.0 < cols && 0 <= p.1 && index == p.0 + p.1 * cols
    ensures index < 0 ==> p.0 <= 0 && p.1 < 0
  {
    (JsRem(index, cols), index / cols)
  }

  /** A nonnegative index splits into a column in [0, cols) and a row, and
      the row of an index of the grid lies in [0, rows). */
  lemma IndexToPointSplits(cols: int, rows: int, index: int)
    requires cols > 0
    ensures index >= 0 ==> 0 <= IndexToPoint(cols, rows, index).0 < cols
    ensures index >= 0 ==> index == IndexToPoint(cols, rows, index).0 + IndexToPoint(cols, rows, index).1 * cols
    ensures 0 <= index < Cells(cols, rows) ==> 0 <= IndexToPoint(cols, rows, index).1 < rows
  {
    RowInRange(cols, rows, index);
  }

  lemma RowInRange(cols: int, rows: int, index: int)
    requires cols > 0
    ensures index >= 0 ==> index == index % cols + index / cols * cols
    ensures 0 <= index < Cells(cols, rows) ==> 0 <= index / cols < rows
  {
    if rows >= 0 {
      CellsIsProduct(cols, rows);
    }
    if 0 <= index {
      DivModUnique(index, cols, index / cols, index % cols);
      if index < cols * rows && index / cols >= rows {
        MulMono(rows, index / cols, cols);
      }
    }
  }

  lemma MulMono(a: int, b: int, n: int)
    requires a <= b && n > 0
    ensures a * n <= b * n
  {
    assert b * n == a * n + (b - a) * n;
  }
  /** Wrapping a coordinate of the grid is the identity, so the two functions are inverse. */
  lemma {:induction false} IndexToPointInverse(cols: int, rows: int, x: int, y: int)
    requires cols > 0 && rows > 0
    requires 0 <= x < cols && 0 <= y < rows
    ensures IndexToPoint(cols, rows, PointToIndex(cols, rows, x, y)) == (x, y)
  {
    var i := PointToIndex(cols, rows, x, y);
    PointToIndexIsMod(cols, rows, x, y);
    DivModUnique(x, cols, 0, x);
    DivModUnique(y, rows, 0, y);
    DivModUnique(i, cols, y, x);
  }

  lemma {:induction false} PointToIndexInverse(cols: int, rows: int, index: int)
    requires cols > 0 && rows > 0
    requires 0 <= index < Cells(cols, rows)
    ensures PointToIndex(cols, rows, IndexToPoint(cols, rows, index).0, IndexToPoint(cols, rows, index).1) == index
  {
    var p := IndexToPoint(cols, rows, index);
    IndexToPointSplits(cols, rows, index);
    PointToIndexIsMod(cols, rows, p.0, p.1);
    DivModUnique(p.0, cols, 0, p.0);
    DivModUnique(p.1, rows, 0, p.1);
  }

  /** Shifting a coordinate by a multiple of its axis' extent lands on the same cell. */
  lemma {:induction false} WrapPeriodic(cols: int, rows: int, dx: int, dy: int, k: int)
    requires cols > 0 && rows > 0
    ensures PointToIndex(cols, rows, dx + k * cols, dy) == PointToIndex(cols, rows, dx, dy)
    ensures PointToIndex(cols, rows, dx, dy + k * rows) == PointToIndex(cols, rows, dx, dy)
  {
    PointToIndexIsMod(cols, rows, dx, dy);
    PointToIndexIsMod(cols, rows, dx + k * cols, dy);
    PointToIndexIsMod(cols, rows, dx, dy + k * rows);
    ModShift(dx, k, cols);
    ModShift(dy, k, rows);
  }

  /** -1 is the last column (row) and every exact multiple of the extent is column (row) 0. */
  lemma {:induction false} WrapEdges(cols: int, rows: int, k: int)
    requires cols > 0 && rows > 0
    ensures PointToIndex(cols, rows, -1, 0) == cols - 1
    ensures PointToIndex(cols, rows, 0, -1) == (rows - 1) * cols
    ensures PointToIndex(cols, rows, k * cols, 0) == 0
    ensures PointToIndex(cols, rows, 0, k * rows) == 0
  {
    PointToIndexIsMod(cols, rows, -1, 0);
    PointToIndexIsMod(cols, rows, 0, -1);
    PointToIndexIsMod(cols, rows, k * cols, 0);
    PointToIndexIsMod(cols, rows, 0, k * rows);
    DivModUnique(0, cols, 0, 0);
    DivModUnique(0, rows, 0, 0);
    DivModUnique(-1, cols, -1, cols - 1);
    DivModUnique(-1, rows, -1, rows - 1);
    DivModUnique(k * cols, cols, k, 0);
    DivModUnique(k * rows, rows, k, 0);
  }

  /** Cases from the indexer table the repository checks: the 38 x 11,
      5 x 8, 10 x 3 and 5 x 5 grids, including wrap-around in both
      directions. */
  lemma IndexerTable()
    ensures PointToIndex(38, 11, 35, 3) == 149
    ensures PointToIndex(5, 8, -1, -1) == 39 && PointToIndex(5, 8, 1, -1) == 36
    ensures PointToIndex(5, 8, -1, 1) == 9 && PointToIndex(5, 8, 1, 1) == 6
    ensures IndexToPoint(10, 3, 9) == (9, 0) && IndexToPoint(10, 3, 19) == (9, 1)
    ensures IndexToPoint(10, 3, 20) == (0, 2)
    ensures PointToIndex(10, 3, -1, -1) == 29
    ensures PointToIndex(5, 5, 7, 0) == 2 && PointToIndex(5, 5, -6, 0) == 4
    ensures PointToIndex(5, 5, 0, 9) == 20 && PointToIndex(5, 5, 0, -7) == 15
  {
    PointToIndexIsMod(38, 11, 35, 3);
    PointToIndexIsMod(5, 8, -1, -1);
    PointToIndexIsMod(5, 8, 1, -1);
    PointToIndexIsMod(5, 8, -1, 1);
    PointToIndexIsMod(5, 8, 1, 1);
    JsRemIsTruncated(9, 10);
    JsRemIsTruncated(19, 10);
    JsRemIsTruncated(20, 10);
    PointToIndexIsMod(10, 3, -1, -1);
    PointToIndexIsMod(5, 5, 7, 0);
    PointToIndexIsMod(5, 5, -6, 0);
    PointToIndexIsMod(5, 5, 0, 9);
    PointToIndexIsMod(5, 5, 0, -7);
  }

  /** The relative positions of the eight neighbours, in the order the source lists them. */
  const Offsets: seq<(int, int)> :=
    [(-1, -1), (-1, 0), (-1, 1), (0, -1), (0, 1), (1, -1), (1, 0), (1, 1)]

  /** The eight neighbour indices wired to cell `index` at initialisation.
      It is a list: on a grid narrower or shorter than 3 it repeats cells. */
  function Neighbours(cols: int, rows: int, index: int): (ns: seq<int>)
    requires cols > 0 && rows > 0 && 0 <= index < Cells(cols, rows)
    ensures |ns| == 8
    ensures forall k :: 0 <= k < 8 ==> 0 <= ns[k] < Cells(cols, rows)
  {
    var p := IndexToPoint(cols, rows, index);
    seq(8, k requires 0 <= k < 8 => PointToIndex(cols, rows, p.0 + Offsets[k].0, p.1 + Offsets[k].1))
  }

  /** Neighbour k of cell `index` sits at the wrapped coordinates of offset k. */
  lemma {:induction false} NeighbourAt(cols: int, rows: int, index: int, k: int)
    requires cols > 0 && rows > 0 && 0 <= index < Cells(cols, rows) && 0 <= k < 8
    ensures IndexToPoint(cols, rows, Neighbours(cols, rows, index)[k]) ==
      ((IndexToPoint(cols, rows, index).0 + Offsets[k].0) % cols,
       (IndexToPoint(cols, rows, index).1 + Offsets[k].1) % rows)
  {
    var p := IndexToPoint(cols, rows, index);
    var dx, dy := p.0 + Offsets[k].0, p.1 + Offsets[k].1;
    var a, b := dx % cols, dy % rows;
    assert Neighbours(cols, rows, index)[k] == PointToIndex(cols, rows, dx, dy);
    PointToIndexIsMod(cols, rows, dx, dy);
    PointToIndexIsMod(cols, rows, a, b);
    DivModUnique(a, cols, 0, a);
    DivModUnique(b, rows, 0, b);
    IndexToPointInverse(cols, rows, a, b);
  }

  /** Being a neighbour is symmetric: offset k and offset 7 - k cancel out. */
  lemma {:induction false} NeighboursSymmetric(cols: int, rows: int, i: int, j: int)
    requires cols > 0 && rows > 0 && 0 <= i < Cells(cols, rows) && 0 <= j < Cells(cols, rows)
    ensures j in Neighbours(cols, rows, i) <==> i in Neighbours(cols, rows, j)
  {
    if j in Neighbours(cols, rows, i) {
      NeighbourBack(cols, rows, i, j);
    }
    if i in Neighbours(cols, rows, j) {
      NeighbourBack(cols, rows, j, i);
    }
  }

  lemma NeighbourBack(cols: int, rows: int, i: int, j: int)
    requires cols > 0 && rows > 0 && 0 <= i < Cells(cols, rows) && 0 <= j < Cells(cols, rows)
    requires j in Neighbours(cols, rows, i)
    ensures i in Neighbours(cols, rows, j)
  {
    var k :| 0 <= k < 8 && Neighbours(cols, rows, i)[k] == j;
    NeighbourBackAt(cols, rows, i, k);
  }

  /** Neighbour 7 - k of neighbour k of a cell is the cell itself. */
  lemma NeighbourBackAt(cols: int, rows: int, i: int, k: int)
    requires cols > 0 && rows > 0 && 0 <= i < Cells(cols, rows) && 0 <= k < 8
    ensures Neighbours(cols, rows, Neighbours(cols, rows, i)[k])[7 - k] == i
  {
    var j := Neighbours(cols, rows, i)[k];
    var a, b := Offsets[k].0, Offsets[k].1;
    var p := IndexToPoint(cols, rows, i);
    var q := IndexToPoint(cols, rows, j);
    NeighbourAt(cols, rows, i, k);
    assert Offsets[7 - k] == (-a, -b);
    assert Neighbours(cols, rows, j)[7 - k] == PointToIndex(cols, rows, q.0 - a, q.1 - b);
    IndexToPointSplits(cols, rows, i);
    BackToCell(cols, rows, p.0, p.1, a, b, q.0, q.1);
  }

  lemma BackToCell(cols: int, rows: int, x: int, y: int, a: int, b: int, u: int, v: int)
    requires cols > 0 && rows > 0 && 0 <= x < cols && 0 <= y < rows
    requires u == (x + a) % cols && v == (y + b) % rows
    ensures PointToIndex(cols, rows, u - a, v - b) == x + y * cols
  {
    WrapBack(x, a, cols, u);
    WrapBack(y, b, rows, v);
    PointToIndexIsMod(cols, rows, u - a, v - b);
  }

  /** Stepping by `a` and wrapping, then stepping back and wrapping, returns to `x`. */
  lemma WrapBack(x: int, a: int, n: int, u: int)
    requires 0 <= x < n && u == (x + a) % n
    ensures (u - a) % n == x
  {
    var q := (x + a) / n;
    DivModUnique(x + a, n, q, (x + a) % n);
    assert (x + a) % n - a == x + (-q) * n;
    ModShift(x, -q, n);
    DivModUnique(x, n, 0, x);
  }

  /** The engine's wiring: the neighbour list of every cell, computed once
      when the cells are created. */
  function Wiring(cols: int, rows: int): (w: seq<seq<int>>)
    requires cols > 0 && rows > 0
    ensures |w| == Cells(cols, rows)
    ensures forall i :: 0 <= i < |w| ==> w[i] == Neighbours(cols, rows, i)
  {
    seq(Cells(cols, rows), i requires 0 <= i < Cells(cols, rows) => Neighbours(cols, rows, i))
  }

  /** The toroidal wiring gives every cell eight neighbours in the grid, and
      being a neighbour is mutual. */
  lemma WiringIsSymmetric(cols: int, rows: int)
    requires cols > 0 && rows > 0
    ensures FullGrid.Wired(Wiring(cols, rows), Cells(cols, rows))
    ensures FullGrid.Symmetric(Wiring(cols, rows))
  {
    var w := Wiring(cols, rows);
    forall i, j | 0 <= i < |w| && 0 <= j < |w|
      ensures j in w[i] <==> i in w[j]
    {
      NeighboursSymmetric(cols, rows, i, j);
    }
  }
}
