/** The older, stateless variant of the engine (lib/life.mjs): a full-grid
    `calculate` that maps every cell through the rule, reporting each new
    value to a callback, on an indexer whose axes are exchanged. */
module LibLife {
  import opened Rule
  import Torus
  import FullGrid

  /** pointToIndex of lib/life.mjs (lines 25-31): the same wrap as the src
      indexer, but dx is wrapped by `rows`, dy by `cols`, and a row is taken
      to be `rows` cells long. */
  function PointToIndex(cols: int, rows: int, dx: int, dy: int): (r: int)
    requires cols > 0 && rows > 0
    ensures 0 <= r < Torus.Cells(cols, rows)
  {
    var x := Torus.Wrap(dx, rows);
    var y := Torus.Wrap(dy, cols);
    Torus.InRange(rows, cols, x, y);
    CellsCommute(cols, rows);
    x + y * rows
  }

  lemma CellsCommute(a: int, b: int)
    requires a >= 0 && b >= 0
    ensures Torus.Cells(a, b) == Torus.Cells(b, a)
  {
    Torus.CellsIsProduct(a, b);
    Torus.CellsIsProduct(b, a);
  }

  /** The lib indexer is the src indexer with the two axes exchanged: the
      Euclidean remainder of dx by rows plus that of dy by cols times rows. */
  lemma PointToIndexIsSwapped(cols: int, rows: int, dx: int, dy: int)
    requires cols > 0 && rows > 0
    ensures PointToIndex(cols, rows, dx, dy) == Torus.PointToIndex(rows, cols, dx, dy)
    ensures PointToIndex(cols, rows, dx, dy) == dx % rows + (dy % cols) * rows
  {
    Torus.PointToIndexIsMod(rows, cols, dx, dy);
  }

  /** On a square grid the two indexers agree. */
  lemma SquareAgrees(n: int, dx: int, dy: int)
    requires n > 0
    ensures PointToIndex(n, n, dx, dy) == Torus.PointToIndex(n, n, dx, dy)
  {
  }

  /** Cases from the 5 x 5 table the repository checks for this indexer:
      wrap-around along x, in both directions. */
  lemma FiveByFiveAlongX()
    ensures PointToIndex(5, 5, 7, 0) == 2 && PointToIndex(5, 5, -1, 0) == 4
    ensures PointToIndex(5, 5, -10, 0) == 0
  {
    PointToIndexIsSwapped(5, 5, 7, 0);
    PointToIndexIsSwapped(5, 5, -1, 0);
    PointToIndexIsSwapped(5, 5, -10, 0);
  }

  /** Cases from the same table: wrap-around along y, in both directions. */
  lemma FiveByFiveAlongY()
    ensures PointToIndex(5, 5, 0, 6) == 5 && PointToIndex(5, 5, 0, -1) == 20
    ensures PointToIndex(5, 5, 0, -7) == 15
  {
    PointToIndexIsSwapped(5, 5, 0, 6);
    PointToIndexIsSwapped(5, 5, 0, -1);
    PointToIndexIsSwapped(5, 5, 0, -7);
  }

  /** On a grid that is not square they do not: on 8 columns by 6 rows the
      point (7, 0) is cell 1 for the lib indexer and cell 7 for the src one. */
  lemma AxesSwapped()
    ensures PointToIndex(8, 6, 7, 0) == 1
    ensures Torus.PointToIndex(8, 6, 7, 0) == 7
  {
    Torus.JsRemIsTruncated(7, 6);
    Torus.JsRemIsTruncated(7, 8);
  }

  /** indexToPoint of lib/life.mjs (line 33) is the same expression as the
      src one, so the model uses Torus.IndexToPoint for both; on 5 x 5 it
      gives the column and row of every index. */
  lemma IndexToPointFiveByFive(index: int)
    requires 0 <= index < 25
    ensures Torus.IndexToPoint(5, 5, index) == (index % 5, index / 5)
    ensures 0 <= index % 5 < 5 && 0 <= index / 5 < 5
  {
  }

  /** init of lib/life.mjs: cols * rows values, cell i taking the i-th draw. */
  function Init(cols: nat, rows: nat, draw: nat -> Bit): (g: seq<Bit>)
    ensures |g| == cols * rows
  {
    Torus.CellsIsProduct(cols, rows);
    seq(Torus.Cells(cols, rows), i requires 0 <= i < Torus.Cells(cols, rows) => draw(i))
  }

  /** Every value of the initial grid is a draw of its own cell. */
  lemma InitCells(cols: nat, rows: nat, draw: nat -> Bit, i: int)
    requires 0 <= i < cols * rows
    ensures Init(cols, rows, draw)[i] == draw(i)
  {
  }

  /** The indexer a calculation uses: the one lib/life.mjs has, or the
      corrected one, which is the src indexer. */
  datatype Indexer = AsWritten | Corrected

  function Locate(ix: Indexer, cols: int, rows: int, dx: int, dy: int): (r: int)
    requires cols > 0 && rows > 0
    ensures 0 <= r < Torus.Cells(cols, rows)
  {
    match ix
    case AsWritten => PointToIndex(cols, rows, dx, dy)
    case Corrected => Torus.PointToIndex(cols, rows, dx, dy)
  }

  /** The nine values calculate adds up for cell `index`, in its order: the
      three cells of the column to the left, the one above, the cell
      itself, the one below, and the three of the column to the right. */
  function Sum9(ix: Indexer, cols: int, rows: int, grid: seq<Bit>, index: int): (s: int)
    requires cols > 0 && rows > 0 && |grid| == Torus.Cells(cols, rows) && 0 <= index < |grid|
    ensures grid[index] as int <= s <= 8 + grid[index] as int
  {
    var p := Torus.IndexToPoint(cols, rows, index);
    var x, y := p.0, p.1;
    grid[Locate(ix, cols, rows, x - 1, y - 1)] as int + grid[Locate(ix, cols, rows, x - 1, y)] +
    grid[Locate(ix, cols, rows, x - 1, y + 1)] + grid[Locate(ix, cols, rows, x, y - 1)] +
    grid[index] + grid[Locate(ix, cols, rows, x, y + 1)] +
    grid[Locate(ix, cols, rows, x + 1, y - 1)] + grid[Locate(ix, cols, rows, x + 1, y)] +
    grid[Locate(ix, cols, rows, x + 1, y + 1)]
  }

  /** One call of the callback: the cell's coordinates and its new value. */
  datatype Call = Call(x: int, y: int, value: Bit)

  /** calculate: a new grid, each cell the rule on its nine-cell sum in the
      old grid, together with the calls made to the callback, one per cell
      in the order of the map. */
  function Calculate(ix: Indexer, cols: int, rows: int, grid: seq<Bit>): (r: (seq<Bit>, seq<Call>))
    requires cols > 0 && rows > 0 && |grid| == Torus.Cells(cols, rows)
    ensures |r.0| == |grid| && |r.1| == |grid|
  {
    var next := seq(|grid|, i requires 0 <= i < |grid| => Next(grid[i], Sum9(ix, cols, rows, grid, i)));
    var calls := seq(|grid|, i requires 0 <= i < |grid| =>
      Call(Torus.IndexToPoint(cols, rows, i).0, Torus.IndexToPoint(cols, rows, i).1, next[i]));
    (next, calls)
  }

  /** Cell i of the new grid is the rule on cell i's old value and its
      nine-cell sum in the old grid, whatever the other cells become. */
  lemma CalculateAt(ix: Indexer, cols: int, rows: int, grid: seq<Bit>, i: int)
    requires cols > 0 && rows > 0 && |grid| == Torus.Cells(cols, rows) && 0 <= i < |grid|
    ensures Calculate(ix, cols, rows, grid).0[i] == Next(grid[i], Sum9(ix, cols, rows, grid, i))
  {
  }

  /** The callback fires for every cell, changed or not, in ascending index
      order: call i names the coordinates of cell i and its new value. */
  lemma CallbackPerCell(ix: Indexer, cols: int, rows: int, grid: seq<Bit>, i: int)
    requires cols > 0 && rows > 0 && |grid| == Torus.Cells(cols, rows) && 0 <= i < |grid|
    ensures var c := Calculate(ix, cols, rows, grid).1[i];
      0 <= c.x < cols && 0 <= c.y < rows &&
      Torus.PointToIndex(cols, rows, c.x, c.y) == i &&
      c.value == Calculate(ix, cols, rows, grid).0[i]
  {
    Torus.IndexToPointSplits(cols, rows, i);
    Torus.PointToIndexInverse(cols, rows, i);
  }

  /** With the corrected indexer the nine-cell sum is the cell plus its
      eight wired neighbours. */
  lemma CorrectedSum(cols: int, rows: int, grid: seq<Bit>, i: int)
    requires cols > 0 && rows > 0 && |grid| == Torus.Cells(cols, rows) && 0 <= i < |grid|
    requires FullGrid.Wired(Torus.Wiring(cols, rows), |grid|)
    ensures Sum9(Corrected, cols, rows, grid, i) == FullGrid.NeighbourhoodSum(Torus.Wiring(cols, rows), grid, i)
  {
    var ns := Torus.Neighbours(cols, rows, i);
    var p := Torus.IndexToPoint(cols, rows, i);
    assert Torus.Wiring(cols, rows)[i] == ns;
    FullGrid.SumOverEight(grid, ns);
    assert ns[0] == Torus.PointToIndex(cols, rows, p.0 - 1, p.1 - 1);
    assert ns[1] == Torus.PointToIndex(cols, rows, p.0 - 1, p.1);
    assert ns[2] == Torus.PointToIndex(cols, rows, p.0 - 1, p.1 + 1);
    assert ns[3] == Torus.PointToIndex(cols, rows, p.0, p.1 - 1);
    assert ns[4] == Torus.PointToIndex(cols, rows, p.0, p.1 + 1);
    assert ns[5] == Torus.PointToIndex(cols, rows, p.0 + 1, p.1 - 1);
    assert ns[6] == Torus.PointToIndex(cols, rows, p.0 + 1, p.1);
    assert ns[7] == Torus.PointToIndex(cols, rows, p.0 + 1, p.1 + 1);
  }

  /** With the corrected indexer, calculate is the full-grid step of the
      incremental engine's wiring, on every grid size. */
  lemma CorrectedIsStep(cols: int, rows: int, grid: seq<Bit>)
    requires cols > 0 && rows > 0 && |grid| == Torus.Cells(cols, rows)
    ensures FullGrid.Wired(Torus.Wiring(cols, rows), |grid|)
    ensures Calculate(Corrected, cols, rows, grid).0 == FullGrid.Step(Torus.Wiring(cols, rows), grid)
  {
    var w := Torus.Wiring(cols, rows);
    Torus.WiringIsSymmetric(cols, rows);
    var next := Calculate(Corrected, cols, rows, grid).0;
    forall i | 0 <= i < |grid|
      ensures next[i] == Next(grid[i], FullGrid.NeighbourhoodSum(w, grid, i))
    {
      CorrectedSum(cols, rows, grid, i);
    }
    FullGrid.StepByCells(w, grid, next);
  }

  /** On a square grid both indexers pick the same nine cells. */
  lemma SquareSum(n: int, grid: seq<Bit>, i: int)
    requires n > 0 && |grid| == Torus.Cells(n, n) && 0 <= i < |grid|
    ensures Sum9(AsWritten, n, n, grid, i) == Sum9(Corrected, n, n, grid, i)
  {
    forall dx, dy
      ensures Locate(AsWritten, n, n, dx, dy) == Locate(Corrected, n, n, dx, dy)
    {
      SquareAgrees(n, dx, dy);
    }
  }

  /** On a square grid the lib calculate as written is that full-grid step. */
  lemma SquareIsStep(n: int, grid: seq<Bit>)
    requires n > 0 && |grid| == Torus.Cells(n, n)
    ensures FullGrid.Wired(Torus.Wiring(n, n), |grid|)
    ensures Calculate(AsWritten, n, n, grid).0 == FullGrid.Step(Torus.Wiring(n, n), grid)
  {
    CorrectedIsStep(n, n, grid);
    var a := Calculate(AsWritten, n, n, grid).0;
    var b := Calculate(Corrected, n, n, grid).0;
    forall i | 0 <= i < |grid|
      ensures a[i] == b[i]
    {
      SquareSum(n, grid, i);
    }
  }
}
