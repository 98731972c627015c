/** The oscillators of the pattern tests (src/life.test.mjs:170-260) on the
    toroidal wiring: each alternates between its two phases forever.  The
    tests call an `init` and a `calculate` that only lib/life.mjs defines
    (src/life.mjs does not export them).  What is proved here is what
    lib's `calculate` computes on the expected phases: with its indexer as
    written the 8-by-6 and 6-by-8 toads go wrong after one step, with the
    corrected indexer every pattern steps from each phase to the other. */
module Patterns {
  import opened Rule
  import Torus
  import opened FullGrid
  import LibLife

  /** Linear index of column x, row y. */
  function Index(cols: int, x: int, y: int): int
  {
    x + y * cols
  }

  /** The wrapped indices of the eight neighbours of column x, row y, in
      the order of the offsets. */
  function Around(cols: int, rows: int, x: int, y: int): (ns: seq<int>)
    requires cols > 0 && rows > 0
    ensures |ns| == 8
  {
    [(x - 1) % cols + ((y - 1) % rows) * cols, (x - 1) % cols + (y % rows) * cols,
     (x - 1) % cols + ((y + 1) % rows) * cols, x % cols + ((y - 1) % rows) * cols,
     x % cols + ((y + 1) % rows) * cols, (x + 1) % cols + ((y - 1) % rows) * cols,
     (x + 1) % cols + (y % rows) * cols, (x + 1) % cols + ((y + 1) % rows) * cols]
  }

  /** w wires every cell (x, y) of a cols-by-rows grid to the Euclidean
      remainders of its eight offsets. */
  ghost predicate Toroidal(w: seq<seq<int>>, cols: int, rows: int)
    requires cols > 0 && rows > 0
  {
    forall x, y :: 0 <= x < cols && 0 <= y < rows ==>
      0 <= Index(cols, x, y) < |w| && w[Index(cols, x, y)] == Around(cols, rows, x, y)
  }

  /** The engine wires cell (x, y) to Around(cols, rows, x, y). */
  lemma WiredAround(cols: int, rows: int, x: int, y: int)
    requires cols > 0 && rows > 0 && 0 <= x < cols && 0 <= y < rows
    ensures 0 <= Index(cols, x, y) < Torus.Cells(cols, rows)
    ensures Torus.Neighbours(cols, rows, Index(cols, x, y)) == Around(cols, rows, x, y)
  {
    var i := Index(cols, x, y);
    Torus.InRange(cols, rows, x, y);
    Torus.PointToIndexIsMod(cols, rows, x, y);
    Torus.DivModUnique(x, cols, 0, x);
    Torus.DivModUnique(y, rows, 0, y);
    assert Torus.PointToIndex(cols, rows, x, y) == i;
    Torus.IndexToPointInverse(cols, rows, x, y);
    var ns, ms := Torus.Neighbours(cols, rows, i), Around(cols, rows, x, y);
    forall k | 0 <= k < 8
      ensures ns[k] == ms[k]
    {
      var dx, dy := x + Torus.Offsets[k].0, y + Torus.Offsets[k].1;
      assert ns[k] == Torus.PointToIndex(cols, rows, dx, dy);
      Torus.PointToIndexIsMod(cols, rows, dx, dy);
    }
  }

  /** The engine's wiring is toroidal in that sense. */
  lemma WiringIsToroidal(cols: int, rows: int)
    requires cols > 0 && rows > 0
    ensures Toroidal(Torus.Wiring(cols, rows), cols, rows)
  {
    forall x, y | 0 <= x < cols && 0 <= y < rows
      ensures 0 <= Index(cols, x, y) < |Torus.Wiring(cols, rows)|
      ensures Torus.Wiring(cols, rows)[Index(cols, x, y)] == Around(cols, rows, x, y)
    {
      WiredAround(cols, rows, x, y);
    }
  }

  /** The engine's wiring wires every cell of the grid. */
  lemma WiringIsWired(cols: int, rows: int)
    requires cols > 0 && rows > 0
    ensures Wired(Torus.Wiring(cols, rows), Torus.Cells(cols, rows))
  {
    Torus.WiringIsSymmetric(cols, rows);
  }

  /** Cell j of h is the rule applied to cell j's old nine-cell sum in g. */
  ghost predicate CellOk(w: seq<seq<int>>, g: seq<Bit>, h: seq<Bit>, j: int)
    requires Wired(w, |g|) && |h| == |g| && 0 <= j < |g|
  {
    h[j] == Next(g[j], NeighbourhoodSum(w, g, j))
  }

  /** Every cell of h from i on is the step of g there. */
  ghost predicate StepsFrom(w: seq<seq<int>>, g: seq<Bit>, h: seq<Bit>, i: int)
    requires Wired(w, |g|) && |h| == |g|
  {
    forall j :: 0 <= j < |g| && i <= j ==> CellOk(w, g, h, j)
  }

  /** When every cell steps to h, the step of g is h. */
  lemma StepsFromStart(w: seq<seq<int>>, g: seq<Bit>, h: seq<Bit>)
    requires Wired(w, |g|) && |h| == |g| && StepsFrom(w, g, h, 0)
    ensures Step(w, g) == h
  {
    forall i | 0 <= i < |g|
      ensures h[i] == Next(g[i], NeighbourhoodSum(w, g, i))
    {
      assert CellOk(w, g, h, i);
    }
    StepByCells(w, g, h);
  }

  /** The value of cell j, or 0 off the grid. */
  function Value(g: seq<Bit>, j: int): (v: int)
    ensures 0 <= j < |g| ==> v == g[j]
  {
    if 0 <= j < |g| then g[j] else 0
  }

  /** If the cells after (x, y) already step to h, and the sum of the
      cell and of n0, ..., n7, which are its eight wrapped offsets, gives
      h's value there, then the cells from (x, y) on step to h. */
  lemma CellStep(w: seq<seq<int>>, cols: int, rows: int, g: seq<Bit>, h: seq<Bit>, i: int, x: int, y: int,
                 n0: int, n1: int, n2: int, n3: int, n4: int, n5: int, n6: int, n7: int)
    requires cols > 0 && rows > 0 && Wired(w, |g|) && Toroidal(w, cols, rows) && |h| == |g|
    requires 0 <= x < cols && 0 <= y < rows && i == x + y * cols
    requires n0 == (x - 1) % cols + ((y - 1) % rows) * cols && n1 == (x - 1) % cols + (y % rows) * cols
    requires n2 == (x - 1) % cols + ((y + 1) % rows) * cols && n3 == x % cols + ((y - 1) % rows) * cols
    requires n4 == x % cols + ((y + 1) % rows) * cols && n5 == (x + 1) % cols + ((y - 1) % rows) * cols
    requires n6 == (x + 1) % cols + (y % rows) * cols && n7 == (x + 1) % cols + ((y + 1) % rows) * cols
    requires StepsFrom(w, g, h, i + 1)
    requires Next(Value(g, i), Value(g, i) + Value(g, n0) + Value(g, n1) + Value(g, n2) +
                  Value(g, n3) + Value(g, n4) + Value(g, n5) + Value(g, n6) + Value(g, n7)) == Value(h, i)
    ensures StepsFrom(w, g, h, i)
  {
    var ns := Around(cols, rows, x, y);
    assert Index(cols, x, y) == i;
    assert w[i] == ns;
    SumOverEight(g, w[i]);
    assert CellOk(w, g, h, i);
  }

  /** The toad of src/life.test.mjs:172-193, 8 columns by 6 rows: the live cells of its first phase ... */
  const ToadA: seq<Bit> :=
    [0, 0, 0, 0, 0, 0, 0, 0] +
    [0, 0, 0, 0, 1, 0, 0, 0] +
    [0, 0, 1, 0, 0, 1, 0, 0] +
    [0, 0, 1, 0, 0, 1, 0, 0] +
    [0, 0, 0, 1, 0, 0, 0, 0] +
    [0, 0, 0, 0, 0, 0, 0, 0]
  /** ... and of its second. */
  const ToadB: seq<Bit> :=
    [0, 0, 0, 0, 0, 0, 0, 0] +
    [0, 0, 0, 0, 0, 0, 0, 0] +
    [0, 0, 0, 1, 1, 1, 0, 0] +
    [0, 0, 1, 1, 1, 0, 0, 0] +
    [0, 0, 0, 0, 0, 0, 0, 0] +
    [0, 0, 0, 0, 0, 0, 0, 0]

  /** The second toad of src/life.test.mjs:195-220, 6 columns by 8 rows: the live cells of its first phase ... */
  const TallToadA: seq<Bit> :=
    [0, 0, 0, 0, 0, 0] +
    [0, 0, 0, 0, 0, 0] +
    [0, 0, 0, 1, 0, 0] +
    [0, 1, 0, 0, 1, 0] +
    [0, 1, 0, 0, 1, 0] +
    [0, 0, 1, 0, 0, 0] +
    [0, 0, 0, 0, 0, 0] +
    [0, 0, 0, 0, 0, 0]
  /** ... and of its second. */
  const TallToadB: seq<Bit> :=
    [0, 0, 0, 0, 0, 0] +
    [0, 0, 0, 0, 0, 0] +
    [0, 0, 0, 0, 0, 0] +
    [0, 0, 1, 1, 1, 0] +
    [0, 1, 1, 1, 0, 0] +
    [0, 0, 0, 0, 0, 0] +
    [0, 0, 0, 0, 0, 0] +
    [0, 0, 0, 0, 0, 0]

  /** The blinker of src/life.test.mjs:222-240, 5 by 5: the live cells of its first phase ... */
  const BlinkerA: seq<Bit> :=
    [0, 0, 0, 0, 0] +
    [0, 0, 1, 0, 0] +
    [0, 0, 1, 0, 0] +
    [0, 0, 1, 0, 0] +
    [0, 0, 0, 0, 0]
  /** ... and of its second. */
  const BlinkerB: seq<Bit> :=
    [0, 0, 0, 0, 0] +
    [0, 0, 0, 0, 0] +
    [0, 1, 1, 1, 0] +
    [0, 0, 0, 0, 0] +
    [0, 0, 0, 0, 0]

  // The row lemmas below walk a grid backwards, one CellStep per cell,
  // from StepsFrom(w, g, h, |g|) (which holds vacuously) down to the first
  // cell of their row; the top lemma of each pattern chains the rows and
  // concludes with StepsFromStart.  The arguments of each CellStep call are
  // the cell's index i = x + y * cols, its column x and row y, and then
  // n0, ..., n7: the eight entries of Around(cols, rows, x, y), worked out.
  // None of these numbers is taken on trust: CellStep's requires restates
  // every one of them as the wrapped-offset expression it stands for and
  // also demands that the rule on the cell's nine-cell sum in g gives its
  // value in h, so a wrong literal or a wrong expected cell fails to verify.

  /** Rows 5 to 5 of ToadA step to those of ToadB. */
  lemma ToadForthRow5(w: seq<seq<int>>)
    requires Wired(w, |ToadA|) && Toroidal(w, 8, 6)
    ensures StepsFrom(w, ToadA, ToadB, 40)
  {
    assert StepsFrom(w, ToadA, ToadB, 48);
    CellStep(w, 8, 6, ToadA, ToadB, 47, 7, 5, 38, 46, 6, 39, 7, 32, 40, 0);
    CellStep(w, 8, 6, ToadA, ToadB, 46, 6, 5, 37, 45, 5, 38, 6, 39, 47, 7);
    CellStep(w, 8, 6, ToadA, ToadB, 45, 5, 5, 36, 44, 4, 37, 5, 38, 46, 6);
    CellStep(w, 8, 6, ToadA, ToadB, 44, 4, 5, 35, 43, 3, 36, 4, 37, 45, 5);
    CellStep(w, 8, 6, ToadA, ToadB, 43, 3, 5, 34, 42, 2, 35, 3, 36, 44, 4);
    CellStep(w, 8, 6, ToadA, ToadB, 42, 2, 5, 33, 41, 1, 34, 2, 35, 43, 3);
    CellStep(w, 8, 6, ToadA, ToadB, 41, 1, 5, 32, 40, 0, 33, 1, 34, 42, 2);
    CellStep(w, 8, 6, ToadA, ToadB, 40, 0, 5, 39, 47, 7, 32, 0, 33, 41, 1);
  }

  /** Rows 4 to 5 of ToadA step to those of ToadB. */
  lemma ToadForthRow4(w: seq<seq<int>>)
    requires Wired(w, |ToadA|) && Toroidal(w, 8, 6)
    ensures StepsFrom(w, ToadA, ToadB, 32)
  {
    ToadForthRow5(w);
    CellStep(w, 8, 6, ToadA, ToadB, 39, 7, 4, 30, 38, 46, 31, 47, 24, 32, 40);
    CellStep(w, 8, 6, ToadA, ToadB, 38, 6, 4, 29, 37, 45, 30, 46, 31, 39, 47);
    CellStep(w, 8, 6, ToadA, ToadB, 37, 5, 4, 28, 36, 44, 29, 45, 30, 38, 46);
    CellStep(w, 8, 6, ToadA, ToadB, 36, 4, 4, 27, 35, 43, 28, 44, 29, 37, 45);
    CellStep(w, 8, 6, ToadA, ToadB, 35, 3, 4, 26, 34, 42, 27, 43, 28, 36, 44);
    CellStep(w, 8, 6, ToadA, ToadB, 34, 2, 4, 25, 33, 41, 26, 42, 27, 35, 43);
    CellStep(w, 8, 6, ToadA, ToadB, 33, 1, 4, 24, 32, 40, 25, 41, 26, 34, 42);
    CellStep(w, 8, 6, ToadA, ToadB, 32, 0, 4, 31, 39, 47, 24, 40, 25, 33, 41);
  }

  /** Rows 3 to 5 of ToadA step to those of ToadB. */
  lemma ToadForthRow3(w: seq<seq<int>>)
    requires Wired(w, |ToadA|) && Toroidal(w, 8, 6)
    ensures StepsFrom(w, ToadA, ToadB, 24)
  {
    ToadForthRow4(w);
    CellStep(w, 8, 6, ToadA, ToadB, 31, 7, 3, 22, 30, 38, 23, 39, 16, 24, 32);
    CellStep(w, 8, 6, ToadA, ToadB, 30, 6, 3, 21, 29, 37, 22, 38, 23, 31, 39);
    CellStep(w, 8, 6, ToadA, ToadB, 29, 5, 3, 20, 28, 36, 21, 37, 22, 30, 38);
    CellStep(w, 8, 6, ToadA, ToadB, 28, 4, 3, 19, 27, 35, 20, 36, 21, 29, 37);
    CellStep(w, 8, 6, ToadA, ToadB, 27, 3, 3, 18, 26, 34, 19, 35, 20, 28, 36);
    CellStep(w, 8, 6, ToadA, ToadB, 26, 2, 3, 17, 25, 33, 18, 34, 19, 27, 35);
    CellStep(w, 8, 6, ToadA, ToadB, 25, 1, 3, 16, 24, 32, 17, 33, 18, 26, 34);
    CellStep(w, 8, 6, ToadA, ToadB, 24, 0, 3, 23, 31, 39, 16, 32, 17, 25, 33);
  }

  /** Rows 2 to 5 of ToadA step to those of ToadB. */
  lemma ToadForthRow2(w: seq<seq<int>>)
    requires Wired(w, |ToadA|) && Toroidal(w, 8, 6)
    ensures StepsFrom(w, ToadA, ToadB, 16)
  {
    ToadForthRow3(w);
    CellStep(w, 8, 6, ToadA, ToadB, 23, 7, 2, 14, 22, 30, 15, 31, 8, 16, 24);
    CellStep(w, 8, 6, ToadA, ToadB, 22, 6, 2, 13, 21, 29, 14, 30, 15, 23, 31);
    CellStep(w, 8, 6, ToadA, ToadB, 21, 5, 2, 12, 20, 28, 13, 29, 14, 22, 30);
    CellStep(w, 8, 6, ToadA, ToadB, 20, 4, 2, 11, 19, 27, 12, 28, 13, 21, 29);
    CellStep(w, 8, 6, ToadA, ToadB, 19, 3, 2, 10, 18, 26, 11, 27, 12, 20, 28);
    CellStep(w, 8, 6, ToadA, ToadB, 18, 2, 2, 9, 17, 25, 10, 26, 11, 19, 27);
    CellStep(w, 8, 6, ToadA, ToadB, 17, 1, 2, 8, 16, 24, 9, 25, 10, 18, 26);
    CellStep(w, 8, 6, ToadA, ToadB, 16, 0, 2, 15, 23, 31, 8, 24, 9, 17, 25);
  }

  /** Rows 1 to 5 of ToadA step to those of ToadB. */
  lemma ToadForthRow1(w: seq<seq<int>>)
    requires Wired(w, |ToadA|) && Toroidal(w, 8, 6)
    ensures StepsFrom(w, ToadA, ToadB, 8)
  {
    ToadForthRow2(w);
    CellStep(w, 8, 6, ToadA, ToadB, 15, 7, 1, 6, 14, 22, 7, 23, 0, 8, 16);
    CellStep(w, 8, 6, ToadA, ToadB, 14, 6, 1, 5, 13, 21, 6, 22, 7, 15, 23);
    CellStep(w, 8, 6, ToadA, ToadB, 13, 5, 1, 4, 12, 20, 5, 21, 6, 14, 22);
    CellStep(w, 8, 6, ToadA, ToadB, 12, 4, 1, 3, 11, 19, 4, 20, 5, 13, 21);
    CellStep(w, 8, 6, ToadA, ToadB, 11, 3, 1, 2, 10, 18, 3, 19, 4, 12, 20);
    CellStep(w, 8, 6, ToadA, ToadB, 10, 2, 1, 1, 9, 17, 2, 18, 3, 11, 19);
    CellStep(w, 8, 6, ToadA, ToadB, 9, 1, 1, 0, 8, 16, 1, 17, 2, 10, 18);
    CellStep(w, 8, 6, ToadA, ToadB, 8, 0, 1, 7, 15, 23, 0, 16, 1, 9, 17);
  }

  /** Rows 0 to 5 of ToadA step to those of ToadB. */
  lemma ToadForthRow0(w: seq<seq<int>>)
    requires Wired(w, |ToadA|) && Toroidal(w, 8, 6)
    ensures StepsFrom(w, ToadA, ToadB, 0)
  {
    ToadForthRow1(w);
    CellStep(w, 8, 6, ToadA, ToadB, 7, 7, 0, 46, 6, 14, 47, 15, 40, 0, 8);
    CellStep(w, 8, 6, ToadA, ToadB, 6, 6, 0, 45, 5, 13, 46, 14, 47, 7, 15);
    CellStep(w, 8, 6, ToadA, ToadB, 5, 5, 0, 44, 4, 12, 45, 13, 46, 6, 14);
    CellStep(w, 8, 6, ToadA, ToadB, 4, 4, 0, 43, 3, 11, 44, 12, 45, 5, 13);
    CellStep(w, 8, 6, ToadA, ToadB, 3, 3, 0, 42, 2, 10, 43, 11, 44, 4, 12);
    CellStep(w, 8, 6, ToadA, ToadB, 2, 2, 0, 41, 1, 9, 42, 10, 43, 3, 11);
    CellStep(w, 8, 6, ToadA, ToadB, 1, 1, 0, 40, 0, 8, 41, 9, 42, 2, 10);
    CellStep(w, 8, 6, ToadA, ToadB, 0, 0, 0, 47, 7, 15, 40, 8, 41, 1, 9);
  }

  /** On any toroidal 8-by-6 wiring one step takes ToadA to ToadB. */
  lemma ToadForth(w: seq<seq<int>>)
    requires Wired(w, |ToadA|) && Toroidal(w, 8, 6)
    ensures Step(w, ToadA) == ToadB
  {
    ToadForthRow0(w);
    StepsFromStart(w, ToadA, ToadB);
  }

  /** Rows 5 to 5 of ToadB step to those of ToadA. */
  lemma ToadBackRow5(w: seq<seq<int>>)
    requires Wired(w, |ToadB|) && Toroidal(w, 8, 6)
    ensures StepsFrom(w, ToadB, ToadA, 40)
  {
    assert StepsFrom(w, ToadB, ToadA, 48);
    CellStep(w, 8, 6, ToadB, ToadA, 47, 7, 5, 38, 46, 6, 39, 7, 32, 40, 0);
    CellStep(w, 8, 6, ToadB, ToadA, 46, 6, 5, 37, 45, 5, 38, 6, 39, 47, 7);
    CellStep(w, 8, 6, ToadB, ToadA, 45, 5, 5, 36, 44, 4, 37, 5, 38, 46, 6);
    CellStep(w, 8, 6, ToadB, ToadA, 44, 4, 5, 35, 43, 3, 36, 4, 37, 45, 5);
    CellStep(w, 8, 6, ToadB, ToadA, 43, 3, 5, 34, 42, 2, 35, 3, 36, 44, 4);
    CellStep(w, 8, 6, ToadB, ToadA, 42, 2, 5, 33, 41, 1, 34, 2, 35, 43, 3);
    CellStep(w, 8, 6, ToadB, ToadA, 41, 1, 5, 32, 40, 0, 33, 1, 34, 42, 2);
    CellStep(w, 8, 6, ToadB, ToadA, 40, 0, 5, 39, 47, 7, 32, 0, 33, 41, 1);
  }

  /** Rows 4 to 5 of ToadB step to those of ToadA. */
  lemma ToadBackRow4(w: seq<seq<int>>)
    requires Wired(w, |ToadB|) && Toroidal(w, 8, 6)
    ensures StepsFrom(w, ToadB, ToadA, 32)
  {
    ToadBackRow5(w);
    CellStep(w, 8, 6, ToadB, ToadA, 39, 7, 4, 30, 38, 46, 31, 47, 24, 32, 40);
    CellStep(w, 8, 6, ToadB, ToadA, 38, 6, 4, 29, 37, 45, 30, 46, 31, 39, 47);
    CellStep(w, 8, 6, ToadB, ToadA, 37, 5, 4, 28, 36, 44, 29, 45, 30, 38, 46);
    CellStep(w, 8, 6, ToadB, ToadA, 36, 4, 4, 27, 35, 43, 28, 44, 29, 37, 45);
    CellStep(w, 8, 6, ToadB, ToadA, 35, 3, 4, 26, 34, 42, 27, 43, 28, 36, 44);
    CellStep(w, 8, 6, ToadB, ToadA, 34, 2, 4, 25, 33, 41, 26, 42, 27, 35, 43);
    CellStep(w, 8, 6, ToadB, ToadA, 33, 1, 4, 24, 32, 40, 25, 41, 26, 34, 42);
    CellStep(w, 8, 6, ToadB, ToadA, 32, 0, 4, 31, 39, 47, 24, 40, 25, 33, 41);
  }

  /** Rows 3 to 5 of ToadB step to those of ToadA. */
  lemma ToadBackRow3(w: seq<seq<int>>)
    requires Wired(w, |ToadB|) && Toroidal(w, 8, 6)
    ensures StepsFrom(w, ToadB, ToadA, 24)
  {
    ToadBackRow4(w);
    CellStep(w, 8, 6, ToadB, ToadA, 31, 7, 3, 22, 30, 38, 23, 39, 16, 24, 32);
    CellStep(w, 8, 6, ToadB, ToadA, 30, 6, 3, 21, 29, 37, 22, 38, 23, 31, 39);
    CellStep(w, 8, 6, ToadB, ToadA, 29, 5, 3, 20, 28, 36, 21, 37, 22, 30, 38);
    CellStep(w, 8, 6, ToadB, ToadA, 28, 4, 3, 19, 27, 35, 20, 36, 21, 29, 37);
    CellStep(w, 8, 6, ToadB, ToadA, 27, 3, 3, 18, 26, 34, 19, 35, 20, 28, 36);
    CellStep(w, 8, 6, ToadB, ToadA, 26, 2, 3, 17, 25, 33, 18, 34, 19, 27, 35);
    CellStep(w, 8, 6, ToadB, ToadA, 25, 1, 3, 16, 24, 32, 17, 33, 18, 26, 34);
    CellStep(w, 8, 6, ToadB, ToadA, 24, 0, 3, 23, 31, 39, 16, 32, 17, 25, 33);
  }

  /** Rows 2 to 5 of ToadB step to those of ToadA. */
  lemma ToadBackRow2(w: seq<seq<int>>)
    requires Wired(w, |ToadB|) && Toroidal(w, 8, 6)
    ensures StepsFrom(w, ToadB, ToadA, 16)
  {
    ToadBackRow3(w);
    CellStep(w, 8, 6, ToadB, ToadA, 23, 7, 2, 14, 22, 30, 15, 31, 8, 16, 24);
    CellStep(w, 8, 6, ToadB, ToadA, 22, 6, 2, 13, 21, 29, 14, 30, 15, 23, 31);
    CellStep(w, 8, 6, ToadB, ToadA, 21, 5, 2, 12, 20, 28, 13, 29, 14, 22, 30);
    CellStep(w, 8, 6, ToadB, ToadA, 20, 4, 2, 11, 19, 27, 12, 28, 13, 21, 29);
    CellStep(w, 8, 6, ToadB, ToadA, 19, 3, 2, 10, 18, 26, 11, 27, 12, 20, 28);
    CellStep(w, 8, 6, ToadB, ToadA, 18, 2, 2, 9, 17, 25, 10, 26, 11, 19, 27);
    CellStep(w, 8, 6, ToadB, ToadA, 17, 1, 2, 8, 16, 24, 9, 25, 10, 18, 26);
    CellStep(w, 8, 6, ToadB, ToadA, 16, 0, 2, 15, 23, 31, 8, 24, 9, 17, 25);
  }

  /** Rows 1 to 5 of ToadB step to those of ToadA. */
  lemma ToadBackRow1(w: seq<seq<int>>)
    requires Wired(w, |ToadB|) && Toroidal(w, 8, 6)
    ensures StepsFrom(w, ToadB, ToadA, 8)
  {
    ToadBackRow2(w);
    CellStep(w, 8, 6, ToadB, ToadA, 15, 7, 1, 6, 14, 22, 7, 23, 0, 8, 16);
    CellStep(w, 8, 6, ToadB, ToadA, 14, 6, 1, 5, 13, 21, 6, 22, 7, 15, 23);
    CellStep(w, 8, 6, ToadB, ToadA, 13, 5, 1, 4, 12, 20, 5, 21, 6, 14, 22);
    CellStep(w, 8, 6, ToadB, ToadA, 12, 4, 1, 3, 11, 19, 4, 20, 5, 13, 21);
    CellStep(w, 8, 6, ToadB, ToadA, 11, 3, 1, 2, 10, 18, 3, 19, 4, 12, 20);
    CellStep(w, 8, 6, ToadB, ToadA, 10, 2, 1, 1, 9, 17, 2, 18, 3, 11, 19);
    CellStep(w, 8, 6, ToadB, ToadA, 9, 1, 1, 0, 8, 16, 1, 17, 2, 10, 18);
    CellStep(w, 8, 6, ToadB, ToadA, 8, 0, 1, 7, 15, 23, 0, 16, 1, 9, 17);
  }

  /** Rows 0 to 5 of ToadB step to those of ToadA. */
  lemma ToadBackRow0(w: seq<seq<int>>)
    requires Wired(w, |ToadB|) && Toroidal(w, 8, 6)
    ensures StepsFrom(w, ToadB, ToadA, 0)
  {
    ToadBackRow1(w);
    CellStep(w, 8, 6, ToadB, ToadA, 7, 7, 0, 46, 6, 14, 47, 15, 40, 0, 8);
    CellStep(w, 8, 6, ToadB, ToadA, 6, 6, 0, 45, 5, 13, 46, 14, 47, 7, 15);
    CellStep(w, 8, 6, ToadB, ToadA, 5, 5, 0, 44, 4, 12, 45, 13, 46, 6, 14);
    CellStep(w, 8, 6, ToadB, ToadA, 4, 4, 0, 43, 3, 11, 44, 12, 45, 5, 13);
    CellStep(w, 8, 6, ToadB, ToadA, 3, 3, 0, 42, 2, 10, 43, 11, 44, 4, 12);
    CellStep(w, 8, 6, ToadB, ToadA, 2, 2, 0, 41, 1, 9, 42, 10, 43, 3, 11);
    CellStep(w, 8, 6, ToadB, ToadA, 1, 1, 0, 40, 0, 8, 41, 9, 42, 2, 10);
    CellStep(w, 8, 6, ToadB, ToadA, 0, 0, 0, 47, 7, 15, 40, 8, 41, 1, 9);
  }

  /** On any toroidal 8-by-6 wiring one step takes ToadB to ToadA. */
  lemma ToadBack(w: seq<seq<int>>)
    requires Wired(w, |ToadB|) && Toroidal(w, 8, 6)
    ensures Step(w, ToadB) == ToadA
  {
    ToadBackRow0(w);
    StepsFromStart(w, ToadB, ToadA);
  }

  /** Rows 7 to 7 of TallToadA step to those of TallToadB. */
  lemma TallToadForthRow7(w: seq<seq<int>>)
    requires Wired(w, |TallToadA|) && Toroidal(w, 6, 8)
    ensures StepsFrom(w, TallToadA, TallToadB, 42)
  {
    assert StepsFrom(w, TallToadA, TallToadB, 48);
    CellStep(w, 6, 8, TallToadA, TallToadB, 47, 5, 7, 40, 46, 4, 41, 5, 36, 42, 0);
    CellStep(w, 6, 8, TallToadA, TallToadB, 46, 4, 7, 39, 45, 3, 40, 4, 41, 47, 5);
    CellStep(w, 6, 8, TallToadA, TallToadB, 45, 3, 7, 38, 44, 2, 39, 3, 40, 46, 4);
    CellStep(w, 6, 8, TallToadA, TallToadB, 44, 2, 7, 37, 43, 1, 38, 2, 39, 45, 3);
    CellStep(w, 6, 8, TallToadA, TallToadB, 43, 1, 7, 36, 42, 0, 37, 1, 38, 44, 2);
    CellStep(w, 6, 8, TallToadA, TallToadB, 42, 0, 7, 41, 47, 5, 36, 0, 37, 43, 1);
  }

  /** Rows 6 to 7 of TallToadA step to those of TallToadB. */
  lemma TallToadForthRow6(w: seq<seq<int>>)
    requires Wired(w, |TallToadA|) && Toroidal(w, 6, 8)
    ensures StepsFrom(w, TallToadA, TallToadB, 36)
  {
    TallToadForthRow7(w);
    CellStep(w, 6, 8, TallToadA, TallToadB, 41, 5, 6, 34, 40, 46, 35, 47, 30, 36, 42);
    CellStep(w, 6, 8, TallToadA, TallToadB, 40, 4, 6, 33, 39, 45, 34, 46, 35, 41, 47);
    CellStep(w, 6, 8, TallToadA, TallToadB, 39, 3, 6, 32, 38, 44, 33, 45, 34, 40, 46);
    CellStep(w, 6, 8, TallToadA, TallToadB, 38, 2, 6, 31, 37, 43, 32, 44, 33, 39, 45);
    CellStep(w, 6, 8, TallToadA, TallToadB, 37, 1, 6, 30, 36, 42, 31, 43, 32, 38, 44);
    CellStep(w, 6, 8, TallToadA, TallToadB, 36, 0, 6, 35, 41, 47, 30, 42, 31, 37, 43);
  }

  /** Rows 5 to 7 of TallToadA step to those of TallToadB. */
  lemma TallToadForthRow5(w: seq<seq<int>>)
    requires Wired(w, |TallToadA|) && Toroidal(w, 6, 8)
    ensures StepsFrom(w, TallToadA, TallToadB, 30)
  {
    TallToadForthRow6(w);
    CellStep(w, 6, 8, TallToadA, TallToadB, 35, 5, 5, 28, 34, 40, 29, 41, 24, 30, 36);
    CellStep(w, 6, 8, TallToadA, TallToadB, 34, 4, 5, 27, 33, 39, 28, 40, 29, 35, 41);
    CellStep(w, 6, 8, TallToadA, TallToadB, 33, 3, 5, 26, 32, 38, 27, 39, 28, 34, 40);
    CellStep(w, 6, 8, TallToadA, TallToadB, 32, 2, 5, 25, 31, 37, 26, 38, 27, 33, 39);
    CellStep(w, 6, 8, TallToadA, TallToadB, 31, 1, 5, 24, 30, 36, 25, 37, 26, 32, 38);
    CellStep(w, 6, 8, TallToadA, TallToadB, 30, 0, 5, 29, 35, 41, 24, 36, 25, 31, 37);
  }

  /** Rows 4 to 7 of TallToadA step to those of TallToadB. */
  lemma TallToadForthRow4(w: seq<seq<int>>)
    requires Wired(w, |TallToadA|) && Toroidal(w, 6, 8)
    ensures StepsFrom(w, TallToadA, TallToadB, 24)
  {
    TallToadForthRow5(w);
    CellStep(w, 6, 8, TallToadA, TallToadB, 29, 5, 4, 22, 28, 34, 23, 35, 18, 24, 30);
    CellStep(w, 6, 8, TallToadA, TallToadB, 28, 4, 4, 21, 27, 33, 22, 34, 23, 29, 35);
    CellStep(w, 6, 8, TallToadA, TallToadB, 27, 3, 4, 20, 26, 32, 21, 33, 22, 28, 34);
    CellStep(w, 6, 8, TallToadA, TallToadB, 26, 2, 4, 19, 25, 31, 20, 32, 21, 27, 33);
    CellStep(w, 6, 8, TallToadA, TallToadB, 25, 1, 4, 18, 24, 30, 19, 31, 20, 26, 32);
    CellStep(w, 6, 8, TallToadA, TallToadB, 24, 0, 4, 23, 29, 35, 18, 30, 19, 25, 31);
  }

  /** Rows 3 to 7 of TallToadA step to those of TallToadB. */
  lemma TallToadForthRow3(w: seq<seq<int>>)
    requires Wired(w, |TallToadA|) && Toroidal(w, 6, 8)
    ensures StepsFrom(w, TallToadA, TallToadB, 18)
  {
    TallToadForthRow4(w);
    CellStep(w, 6, 8, TallToadA, TallToadB, 23, 5, 3, 16, 22, 28, 17, 29, 12, 18, 24);
    CellStep(w, 6, 8, TallToadA, TallToadB, 22, 4, 3, 15, 21, 27, 16, 28, 17, 23, 29);
    CellStep(w, 6, 8, TallToadA, TallToadB, 21, 3, 3, 14, 20, 26, 15, 27, 16, 22, 28);
    CellStep(w, 6, 8, TallToadA, TallToadB, 20, 2, 3, 13, 19, 25, 14, 26, 15, 21, 27);
    CellStep(w, 6, 8, TallToadA, TallToadB, 19, 1, 3, 12, 18, 24, 13, 25, 14, 20, 26);
    CellStep(w, 6, 8, TallToadA, TallToadB, 18, 0, 3, 17, 23, 29, 12, 24, 13, 19, 25);
  }

  /** Rows 2 to 7 of TallToadA step to those of TallToadB. */
  lemma TallToadForthRow2(w: seq<seq<int>>)
    requires Wired(w, |TallToadA|) && Toroidal(w, 6, 8)
    ensures StepsFrom(w, TallToadA, TallToadB, 12)
  {
    TallToadForthRow3(w);
    CellStep(w, 6, 8, TallToadA, TallToadB, 17, 5, 2, 10, 16, 22, 11, 23, 6, 12, 18);
    CellStep(w, 6, 8, TallToadA, TallToadB, 16, 4, 2, 9, 15, 21, 10, 22, 11, 17, 23);
    CellStep(w, 6, 8, TallToadA, TallToadB, 15, 3, 2, 8, 14, 20, 9, 21, 10, 16, 22);
    CellStep(w, 6, 8, TallToadA, TallToadB, 14, 2, 2, 7, 13, 19, 8, 20, 9, 15, 21);
    CellStep(w, 6, 8, TallToadA, TallToadB, 13, 1, 2, 6, 12, 18, 7, 19, 8, 14, 20);
    CellStep(w, 6, 8, TallToadA, TallToadB, 12, 0, 2, 11, 17, 23, 6, 18, 7, 13, 19);
  }

  /** Rows 1 to 7 of TallToadA step to those of TallToadB. */
  lemma TallToadForthRow1(w: seq<seq<int>>)
    requires Wired(w, |TallToadA|) && Toroidal(w, 6, 8)
    ensures StepsFrom(w, TallToadA, TallToadB, 6)
  {
    TallToadForthRow2(w);
    CellStep(w, 6, 8, TallToadA, TallToadB, 11, 5, 1, 4, 10, 16, 5, 17, 0, 6, 12);
    CellStep(w, 6, 8, TallToadA, TallToadB, 10, 4, 1, 3, 9, 15, 4, 16, 5, 11, 17);
    CellStep(w, 6, 8, TallToadA, TallToadB, 9, 3, 1, 2, 8, 14, 3, 15, 4, 10, 16);
    CellStep(w, 6, 8, TallToadA, TallToadB, 8, 2, 1, 1, 7, 13, 2, 14, 3, 9, 15);
    CellStep(w, 6, 8, TallToadA, TallToadB, 7, 1, 1, 0, 6, 12, 1, 13, 2, 8, 14);
    CellStep(w, 6, 8, TallToadA, TallToadB, 6, 0, 1, 5, 11, 17, 0, 12, 1, 7, 13);
  }

  /** Rows 0 to 7 of TallToadA step to those of TallToadB. */
  lemma TallToadForthRow0(w: seq<seq<int>>)
    requires Wired(w, |TallToadA|) && Toroidal(w, 6, 8)
    ensures StepsFrom(w, TallToadA, TallToadB, 0)
  {
    TallToadForthRow1(w);
    CellStep(w, 6, 8, TallToadA, TallToadB, 5, 5, 0, 46, 4, 10, 47, 11, 42, 0, 6);
    CellStep(w, 6, 8, TallToadA, TallToadB, 4, 4, 0, 45, 3, 9, 46, 10, 47, 5, 11);
    CellStep(w, 6, 8, TallToadA, TallToadB, 3, 3, 0, 44, 2, 8, 45, 9, 46, 4, 10);
    CellStep(w, 6, 8, TallToadA, TallToadB, 2, 2, 0, 43, 1, 7, 44, 8, 45, 3, 9);
    CellStep(w, 6, 8, TallToadA, TallToadB, 1, 1, 0, 42, 0, 6, 43, 7, 44, 2, 8);
    CellStep(w, 6, 8, TallToadA, TallToadB, 0, 0, 0, 47, 5, 11, 42, 6, 43, 1, 7);
  }

  /** On any toroidal 6-by-8 wiring one step takes TallToadA to TallToadB. */
  lemma TallToadForth(w: seq<seq<int>>)
    requires Wired(w, |TallToadA|) && Toroidal(w, 6, 8)
    ensures Step(w, TallToadA) == TallToadB
  {
    TallToadForthRow0(w);
    StepsFromStart(w, TallToadA, TallToadB);
  }

  /** Rows 7 to 7 of TallToadB step to those of TallToadA. */
  lemma TallToadBackRow7(w: seq<seq<int>>)
    requires Wired(w, |TallToadB|) && Toroidal(w, 6, 8)
    ensures StepsFrom(w, TallToadB, TallToadA, 42)
  {
    assert StepsFrom(w, TallToadB, TallToadA, 48);
    CellStep(w, 6, 8, TallToadB, TallToadA, 47, 5, 7, 40, 46, 4, 41, 5, 36, 42, 0);
    CellStep(w, 6, 8, TallToadB, TallToadA, 46, 4, 7, 39, 45, 3, 40, 4, 41, 47, 5);
    CellStep(w, 6, 8, TallToadB, TallToadA, 45, 3, 7, 38, 44, 2, 39, 3, 40, 46, 4);
    CellStep(w, 6, 8, TallToadB, TallToadA, 44, 2, 7, 37, 43, 1, 38, 2, 39, 45, 3);
    CellStep(w, 6, 8, TallToadB, TallToadA, 43, 1, 7, 36, 42, 0, 37, 1, 38, 44, 2);
    CellStep(w, 6, 8, TallToadB, TallToadA, 42, 0, 7, 41, 47, 5, 36, 0, 37, 43, 1);
  }

  /** Rows 6 to 7 of TallToadB step to those of TallToadA. */
  lemma TallToadBackRow6(w: seq<seq<int>>)
    requires Wired(w, |TallToadB|) && Toroidal(w, 6, 8)
    ensures StepsFrom(w, TallToadB, TallToadA, 36)
  {
    TallToadBackRow7(w);
    CellStep(w, 6, 8, TallToadB, TallToadA, 41, 5, 6, 34, 40, 46, 35, 47, 30, 36, 42);
    CellStep(w, 6, 8, TallToadB, TallToadA, 40, 4, 6, 33, 39, 45, 34, 46, 35, 41, 47);
    CellStep(w, 6, 8, TallToadB, TallToadA, 39, 3, 6, 32, 38, 44, 33, 45, 34, 40, 46);
    CellStep(w, 6, 8, TallToadB, TallToadA, 38, 2, 6, 31, 37, 43, 32, 44, 33, 39, 45);
    CellStep(w, 6, 8, TallToadB, TallToadA, 37, 1, 6, 30, 36, 42, 31, 43, 32, 38, 44);
    CellStep(w, 6, 8, TallToadB, TallToadA, 36, 0, 6, 35, 41, 47, 30, 42, 31, 37, 43);
  }

  /** Rows 5 to 7 of TallToadB step to those of TallToadA. */
  lemma TallToadBackRow5(w: seq<seq<int>>)
    requires Wired(w, |TallToadB|) && Toroidal(w, 6, 8)
    ensures StepsFrom(w, TallToadB, TallToadA, 30)
  {
    TallToadBackRow6(w);
    CellStep(w, 6, 8, TallToadB, TallToadA, 35, 5, 5, 28, 34, 40, 29, 41, 24, 30, 36);
    CellStep(w, 6, 8, TallToadB, TallToadA, 34, 4, 5, 27, 33, 39, 28, 40, 29, 35, 41);
    CellStep(w, 6, 8, TallToadB, TallToadA, 33, 3, 5, 26, 32, 38, 27, 39, 28, 34, 40);
    CellStep(w, 6, 8, TallToadB, TallToadA, 32, 2, 5, 25, 31, 37, 26, 38, 27, 33, 39);
    CellStep(w, 6, 8, TallToadB, TallToadA, 31, 1, 5, 24, 30, 36, 25, 37, 26, 32, 38);
    CellStep(w, 6, 8, TallToadB, TallToadA, 30, 0, 5, 29, 35, 41, 24, 36, 25, 31, 37);
  }

  /** Rows 4 to 7 of TallToadB step to those of TallToadA. */
  lemma TallToadBackRow4(w: seq<seq<int>>)
    requires Wired(w, |TallToadB|) && Toroidal(w, 6, 8)
    ensures StepsFrom(w, TallToadB, TallToadA, 24)
  {
    TallToadBackRow5(w);
    CellStep(w, 6, 8, TallToadB, TallToadA, 29, 5, 4, 22, 28, 34, 23, 35, 18, 24, 30);
    CellStep(w, 6, 8, TallToadB, TallToadA, 28, 4, 4, 21, 27, 33, 22, 34, 23, 29, 35);
    CellStep(w, 6, 8, TallToadB, TallToadA, 27, 3, 4, 20, 26, 32, 21, 33, 22, 28, 34);
    CellStep(w, 6, 8, TallToadB, TallToadA, 26, 2, 4, 19, 25, 31, 20, 32, 21, 27, 33);
    CellStep(w, 6, 8, TallToadB, TallToadA, 25, 1, 4, 18, 24, 30, 19, 31, 20, 26, 32);
    CellStep(w, 6, 8, TallToadB, TallToadA, 24, 0, 4, 23, 29, 35, 18, 30, 19, 25, 31);
  }

  /** Rows 3 to 7 of TallToadB step to those of TallToadA. */
  lemma TallToadBackRow3(w: seq<seq<int>>)
    requires Wired(w, |TallToadB|) && Toroidal(w, 6, 8)
    ensures StepsFrom(w, TallToadB, TallToadA, 18)
  {
    TallToadBackRow4(w);
    CellStep(w, 6, 8, TallToadB, TallToadA, 23, 5, 3, 16, 22, 28, 17, 29, 12, 18, 24);
    CellStep(w, 6, 8, TallToadB, TallToadA, 22, 4, 3, 15, 21, 27, 16, 28, 17, 23, 29);
    CellStep(w, 6, 8, TallToadB, TallToadA, 21, 3, 3, 14, 20, 26, 15, 27, 16, 22, 28);
    CellStep(w, 6, 8, TallToadB, TallToadA, 20, 2, 3, 13, 19, 25, 14, 26, 15, 21, 27);
    CellStep(w, 6, 8, TallToadB, TallToadA, 19, 1, 3, 12, 18, 24, 13, 25, 14, 20, 26);
    CellStep(w, 6, 8, TallToadB, TallToadA, 18, 0, 3, 17, 23, 29, 12, 24, 13, 19, 25);
  }

  /** Rows 2 to 7 of TallToadB step to those of TallToadA. */
  lemma TallToadBackRow2(w: seq<seq<int>>)
    requires Wired(w, |TallToadB|) && Toroidal(w, 6, 8)
    ensures StepsFrom(w, TallToadB, TallToadA, 12)
  {
    TallToadBackRow3(w);
    CellStep(w, 6, 8, TallToadB, TallToadA, 17, 5, 2, 10, 16, 22, 11, 23, 6, 12, 18);
    CellStep(w, 6, 8, TallToadB, TallToadA, 16, 4, 2, 9, 15, 21, 10, 22, 11, 17, 23);
    CellStep(w, 6, 8, TallToadB, TallToadA, 15, 3, 2, 8, 14, 20, 9, 21, 10, 16, 22);
    CellStep(w, 6, 8, TallToadB, TallToadA, 14, 2, 2, 7, 13, 19, 8, 20, 9, 15, 21);
    CellStep(w, 6, 8, TallToadB, TallToadA, 13, 1, 2, 6, 12, 18, 7, 19, 8, 14, 20);
    CellStep(w, 6, 8, TallToadB, TallToadA, 12, 0, 2, 11, 17, 23, 6, 18, 7, 13, 19);
  }

  /** Rows 1 to 7 of TallToadB step to those of TallToadA. */
  lemma TallToadBackRow1(w: seq<seq<int>>)
    requires Wired(w, |TallToadB|) && Toroidal(w, 6, 8)
    ensures StepsFrom(w, TallToadB, TallToadA, 6)
  {
    TallToadBackRow2(w);
    CellStep(w, 6, 8, TallToadB, TallToadA, 11, 5, 1, 4, 10, 16, 5, 17, 0, 6, 12);
    CellStep(w, 6, 8, TallToadB, TallToadA, 10, 4, 1, 3, 9, 15, 4, 16, 5, 11, 17);
    CellStep(w, 6, 8, TallToadB, TallToadA, 9, 3, 1, 2, 8, 14, 3, 15, 4, 10, 16);
    CellStep(w, 6, 8, TallToadB, TallToadA, 8, 2, 1, 1, 7, 13, 2, 14, 3, 9, 15);
    CellStep(w, 6, 8, TallToadB, TallToadA, 7, 1, 1, 0, 6, 12, 1, 13, 2, 8, 14);
    CellStep(w, 6, 8, TallToadB, TallToadA, 6, 0, 1, 5, 11, 17, 0, 12, 1, 7, 13);
  }

  /** Rows 0 to 7 of TallToadB step to those of TallToadA. */
  lemma TallToadBackRow0(w: seq<seq<int>>)
    requires Wired(w, |TallToadB|) && Toroidal(w, 6, 8)
    ensures StepsFrom(w, TallToadB, TallToadA, 0)
  {
    TallToadBackRow1(w);
    CellStep(w, 6, 8, TallToadB, TallToadA, 5, 5, 0, 46, 4, 10, 47, 11, 42, 0, 6);
    CellStep(w, 6, 8, TallToadB, TallToadA, 4, 4, 0, 45, 3, 9, 46, 10, 47, 5, 11);
    CellStep(w, 6, 8, TallToadB, TallToadA, 3, 3, 0, 44, 2, 8, 45, 9, 46, 4, 10);
    CellStep(w, 6, 8, TallToadB, TallToadA, 2, 2, 0, 43, 1, 7, 44, 8, 45, 3, 9);
    CellStep(w, 6, 8, TallToadB, TallToadA, 1, 1, 0, 42, 0, 6, 43, 7, 44, 2, 8);
    CellStep(w, 6, 8, TallToadB, TallToadA, 0, 0, 0, 47, 5, 11, 42, 6, 43, 1, 7);
  }

  /** On any toroidal 6-by-8 wiring one step takes TallToadB to TallToadA. */
  lemma TallToadBack(w: seq<seq<int>>)
    requires Wired(w, |TallToadB|) && Toroidal(w, 6, 8)
    ensures Step(w, TallToadB) == TallToadA
  {
    TallToadBackRow0(w);
    StepsFromStart(w, TallToadB, TallToadA);
  }

  /** Rows 4 to 4 of BlinkerA step to those of BlinkerB. */
  lemma BlinkerForthRow4(w: seq<seq<int>>)
    requires Wired(w, |BlinkerA|) && Toroidal(w, 5, 5)
    ensures StepsFrom(w, BlinkerA, BlinkerB, 20)
  {
    assert StepsFrom(w, BlinkerA, BlinkerB, 25);
    CellStep(w, 5, 5, BlinkerA, BlinkerB, 24, 4, 4, 18, 23, 3, 19, 4, 15, 20, 0);
    CellStep(w, 5, 5, BlinkerA, BlinkerB, 23, 3, 4, 17, 22, 2, 18, 3, 19, 24, 4);
    CellStep(w, 5, 5, BlinkerA, BlinkerB, 22, 2, 4, 16, 21, 1, 17, 2, 18, 23, 3);
    CellStep(w, 5, 5, BlinkerA, BlinkerB, 21, 1, 4, 15, 20, 0, 16, 1, 17, 22, 2);
    CellStep(w, 5, 5, BlinkerA, BlinkerB, 20, 0, 4, 19, 24, 4, 15, 0, 16, 21, 1);
  }

  /** Rows 3 to 4 of BlinkerA step to those of BlinkerB. */
  lemma BlinkerForthRow3(w: seq<seq<int>>)
    requires Wired(w, |BlinkerA|) && Toroidal(w, 5, 5)
    ensures StepsFrom(w, BlinkerA, BlinkerB, 15)
  {
    BlinkerForthRow4(w);
    CellStep(w, 5, 5, BlinkerA, BlinkerB, 19, 4, 3, 13, 18, 23, 14, 24, 10, 15, 20);
    CellStep(w, 5, 5, BlinkerA, BlinkerB, 18, 3, 3, 12, 17, 22, 13, 23, 14, 19, 24);
    CellStep(w, 5, 5, BlinkerA, BlinkerB, 17, 2, 3, 11, 16, 21, 12, 22, 13, 18, 23);
    CellStep(w, 5, 5, BlinkerA, BlinkerB, 16, 1, 3, 10, 15, 20, 11, 21, 12, 17, 22);
    CellStep(w, 5, 5, BlinkerA, BlinkerB, 15, 0, 3, 14, 19, 24, 10, 20, 11, 16, 21);
  }

  /** Rows 2 to 4 of BlinkerA step to those of BlinkerB. */
  lemma BlinkerForthRow2(w: seq<seq<int>>)
    requires Wired(w, |BlinkerA|) && Toroidal(w, 5, 5)
    ensures StepsFrom(w, BlinkerA, BlinkerB, 10)
  {
    BlinkerForthRow3(w);
    CellStep(w, 5, 5, BlinkerA, BlinkerB, 14, 4, 2, 8, 13, 18, 9, 19, 5, 10, 15);
    CellStep(w, 5, 5, BlinkerA, BlinkerB, 13, 3, 2, 7, 12, 17, 8, 18, 9, 14, 19);
    CellStep(w, 5, 5, BlinkerA, BlinkerB, 12, 2, 2, 6, 11, 16, 7, 17, 8, 13, 18);
    CellStep(w, 5, 5, BlinkerA, BlinkerB, 11, 1, 2, 5, 10, 15, 6, 16, 7, 12, 17);
    CellStep(w, 5, 5, BlinkerA, BlinkerB, 10, 0, 2, 9, 14, 19, 5, 15, 6, 11, 16);
  }

  /** Rows 1 to 4 of BlinkerA step to those of BlinkerB. */
  lemma BlinkerForthRow1(w: seq<seq<int>>)
    requires Wired(w, |BlinkerA|) && Toroidal(w, 5, 5)
    ensures StepsFrom(w, BlinkerA, BlinkerB, 5)
  {
    BlinkerForthRow2(w);
    CellStep(w, 5, 5, BlinkerA, BlinkerB, 9, 4, 1, 3, 8, 13, 4, 14, 0, 5, 10);
    CellStep(w, 5, 5, BlinkerA, BlinkerB, 8, 3, 1, 2, 7, 12, 3, 13, 4, 9, 14);
    CellStep(w, 5, 5, BlinkerA, BlinkerB, 7, 2, 1, 1, 6, 11, 2, 12, 3, 8, 13);
    CellStep(w, 5, 5, BlinkerA, BlinkerB, 6, 1, 1, 0, 5, 10, 1, 11, 2, 7, 12);
    CellStep(w, 5, 5, BlinkerA, BlinkerB, 5, 0, 1, 4, 9, 14, 0, 10, 1, 6, 11);
  }

  /** Rows 0 to 4 of BlinkerA step to those of BlinkerB. */
  lemma BlinkerForthRow0(w: seq<seq<int>>)
    requires Wired(w, |BlinkerA|) && Toroidal(w, 5, 5)
    ensures StepsFrom(w, BlinkerA, BlinkerB, 0)
  {
    BlinkerForthRow1(w);
    CellStep(w, 5, 5, BlinkerA, BlinkerB, 4, 4, 0, 23, 3, 8, 24, 9, 20, 0, 5);
    CellStep(w, 5, 5, BlinkerA, BlinkerB, 3, 3, 0, 22, 2, 7, 23, 8, 24, 4, 9);
    CellStep(w, 5, 5, BlinkerA, BlinkerB, 2, 2, 0, 21, 1, 6, 22, 7, 23, 3, 8);
    CellStep(w, 5, 5, BlinkerA, BlinkerB, 1, 1, 0, 20, 0, 5, 21, 6, 22, 2, 7);
    CellStep(w, 5, 5, BlinkerA, BlinkerB, 0, 0, 0, 24, 4, 9, 20, 5, 21, 1, 6);
  }

  /** On any toroidal 5-by-5 wiring one step takes BlinkerA to BlinkerB. */
  lemma BlinkerForth(w: seq<seq<int>>)
    requires Wired(w, |BlinkerA|) && Toroidal(w, 5, 5)
    ensures Step(w, BlinkerA) == BlinkerB
  {
    BlinkerForthRow0(w);
    StepsFromStart(w, BlinkerA, BlinkerB);
  }

  /** Rows 4 to 4 of BlinkerB step to those of BlinkerA. */
  lemma BlinkerBackRow4(w: seq<seq<int>>)
    requires Wired(w, |BlinkerB|) && Toroidal(w, 5, 5)
    ensures StepsFrom(w, BlinkerB, BlinkerA, 20)
  {
    assert StepsFrom(w, BlinkerB, BlinkerA, 25);
    CellStep(w, 5, 5, BlinkerB, BlinkerA, 24, 4, 4, 18, 23, 3, 19, 4, 15, 20, 0);
    CellStep(w, 5, 5, BlinkerB, BlinkerA, 23, 3, 4, 17, 22, 2, 18, 3, 19, 24, 4);
    CellStep(w, 5, 5, BlinkerB, BlinkerA, 22, 2, 4, 16, 21, 1, 17, 2, 18, 23, 3);
    CellStep(w, 5, 5, BlinkerB, BlinkerA, 21, 1, 4, 15, 20, 0, 16, 1, 17, 22, 2);
    CellStep(w, 5, 5, BlinkerB, BlinkerA, 20, 0, 4, 19, 24, 4, 15, 0, 16, 21, 1);
  }

  /** Rows 3 to 4 of BlinkerB step to those of BlinkerA. */
  lemma BlinkerBackRow3(w: seq<seq<int>>)
    requires Wired(w, |BlinkerB|) && Toroidal(w, 5, 5)
    ensures StepsFrom(w, BlinkerB, BlinkerA, 15)
  {
    BlinkerBackRow4(w);
    CellStep(w, 5, 5, BlinkerB, BlinkerA, 19, 4, 3, 13, 18, 23, 14, 24, 10, 15, 20);
    CellStep(w, 5, 5, BlinkerB, BlinkerA, 18, 3, 3, 12, 17, 22, 13, 23, 14, 19, 24);
    CellStep(w, 5, 5, BlinkerB, BlinkerA, 17, 2, 3, 11, 16, 21, 12, 22, 13, 18, 23);
    CellStep(w, 5, 5, BlinkerB, BlinkerA, 16, 1, 3, 10, 15, 20, 11, 21, 12, 17, 22);
    CellStep(w, 5, 5, BlinkerB, BlinkerA, 15, 0, 3, 14, 19, 24, 10, 20, 11, 16, 21);
  }

  /** Rows 2 to 4 of BlinkerB step to those of BlinkerA. */
  lemma BlinkerBackRow2(w: seq<seq<int>>)
    requires Wired(w, |BlinkerB|) && Toroidal(w, 5, 5)
    ensures StepsFrom(w, BlinkerB, BlinkerA, 10)
  {
    BlinkerBackRow3(w);
    CellStep(w, 5, 5, BlinkerB, BlinkerA, 14, 4, 2, 8, 13, 18, 9, 19, 5, 10, 15);
    CellStep(w, 5, 5, BlinkerB, BlinkerA, 13, 3, 2, 7, 12, 17, 8, 18, 9, 14, 19);
    CellStep(w, 5, 5, BlinkerB, BlinkerA, 12, 2, 2, 6, 11, 16, 7, 17, 8, 13, 18);
    CellStep(w, 5, 5, BlinkerB, BlinkerA, 11, 1, 2, 5, 10, 15, 6, 16, 7, 12, 17);
    CellStep(w, 5, 5, BlinkerB, BlinkerA, 10, 0, 2, 9, 14, 19, 5, 15, 6, 11, 16);
  }

  /** Rows 1 to 4 of BlinkerB step to those of BlinkerA. */
  lemma BlinkerBackRow1(w: seq<seq<int>>)
    requires Wired(w, |BlinkerB|) && Toroidal(w, 5, 5)
    ensures StepsFrom(w, BlinkerB, BlinkerA, 5)
  {
    BlinkerBackRow2(w);
    CellStep(w, 5, 5, BlinkerB, BlinkerA, 9, 4, 1, 3, 8, 13, 4, 14, 0, 5, 10);
    CellStep(w, 5, 5, BlinkerB, BlinkerA, 8, 3, 1, 2, 7, 12, 3, 13, 4, 9, 14);
    CellStep(w, 5, 5, BlinkerB, BlinkerA, 7, 2, 1, 1, 6, 11, 2, 12, 3, 8, 13);
    CellStep(w, 5, 5, BlinkerB, BlinkerA, 6, 1, 1, 0, 5, 10, 1, 11, 2, 7, 12);
    CellStep(w, 5, 5, BlinkerB, BlinkerA, 5, 0, 1, 4, 9, 14, 0, 10, 1, 6, 11);
  }

  /** Rows 0 to 4 of BlinkerB step to those of BlinkerA. */
  lemma BlinkerBackRow0(w: seq<seq<int>>)
    requires Wired(w, |BlinkerB|) && Toroidal(w, 5, 5)
    ensures StepsFrom(w, BlinkerB, BlinkerA, 0)
  {
    BlinkerBackRow1(w);
    CellStep(w, 5, 5, BlinkerB, BlinkerA, 4, 4, 0, 23, 3, 8, 24, 9, 20, 0, 5);
    CellStep(w, 5, 5, BlinkerB, BlinkerA, 3, 3, 0, 22, 2, 7, 23, 8, 24, 4, 9);
    CellStep(w, 5, 5, BlinkerB, BlinkerA, 2, 2, 0, 21, 1, 6, 22, 7, 23, 3, 8);
    CellStep(w, 5, 5, BlinkerB, BlinkerA, 1, 1, 0, 20, 0, 5, 21, 6, 22, 2, 7);
    CellStep(w, 5, 5, BlinkerB, BlinkerA, 0, 0, 0, 24, 4, 9, 20, 5, 21, 1, 6);
  }

  /** On any toroidal 5-by-5 wiring one step takes BlinkerB to BlinkerA. */
  lemma BlinkerBack(w: seq<seq<int>>)
    requires Wired(w, |BlinkerB|) && Toroidal(w, 5, 5)
    ensures Step(w, BlinkerB) == BlinkerA
  {
    BlinkerBackRow0(w);
    StepsFromStart(w, BlinkerB, BlinkerA);
  }

  /** On the engine's 8-by-6 wiring the two phases of the 8-by-6 toad step to each other. */
  lemma ToadPhases()
    ensures |ToadA| == Torus.Cells(8, 6) && |ToadB| == |ToadA| && Wired(Torus.Wiring(8, 6), |ToadA|)
    ensures Step(Torus.Wiring(8, 6), ToadA) == ToadB && Step(Torus.Wiring(8, 6), ToadB) == ToadA
  {
    WiringIsWired(8, 6);
    WiringIsToroidal(8, 6);
    ToadForth(Torus.Wiring(8, 6));
    ToadBack(Torus.Wiring(8, 6));
  }

  /** Every generation of the 8-by-6 toad is one of its two phases, by parity. */
  lemma ToadOscillates(n: nat)
    ensures |ToadA| == Torus.Cells(8, 6) && Wired(Torus.Wiring(8, 6), |ToadA|)
    ensures Iterate(Torus.Wiring(8, 6), ToadA, n) == if n % 2 == 0 then ToadA else ToadB
  {
    ToadPhases();
    PeriodTwo(Torus.Wiring(8, 6), ToadA, ToadB, n);
  }

  /** On the engine's 6-by-8 wiring the two phases of the 6-by-8 toad step to each other. */
  lemma TallToadPhases()
    ensures |TallToadA| == Torus.Cells(6, 8) && |TallToadB| == |TallToadA| && Wired(Torus.Wiring(6, 8), |TallToadA|)
    ensures Step(Torus.Wiring(6, 8), TallToadA) == TallToadB && Step(Torus.Wiring(6, 8), TallToadB) == TallToadA
  {
    WiringIsWired(6, 8);
    WiringIsToroidal(6, 8);
    TallToadForth(Torus.Wiring(6, 8));
    TallToadBack(Torus.Wiring(6, 8));
  }

  /** Every generation of the 6-by-8 toad is one of its two phases, by parity. */
  lemma TallToadOscillates(n: nat)
    ensures |TallToadA| == Torus.Cells(6, 8) && Wired(Torus.Wiring(6, 8), |TallToadA|)
    ensures Iterate(Torus.Wiring(6, 8), TallToadA, n) == if n % 2 == 0 then TallToadA else TallToadB
  {
    TallToadPhases();
    PeriodTwo(Torus.Wiring(6, 8), TallToadA, TallToadB, n);
  }

  /** On the engine's 5-by-5 wiring the two phases of the 5-by-5 blinker step to each other. */
  lemma BlinkerPhases()
    ensures |BlinkerA| == Torus.Cells(5, 5) && |BlinkerB| == |BlinkerA| && Wired(Torus.Wiring(5, 5), |BlinkerA|)
    ensures Step(Torus.Wiring(5, 5), BlinkerA) == BlinkerB && Step(Torus.Wiring(5, 5), BlinkerB) == BlinkerA
  {
    WiringIsWired(5, 5);
    WiringIsToroidal(5, 5);
    BlinkerForth(Torus.Wiring(5, 5));
    BlinkerBack(Torus.Wiring(5, 5));
  }

  /** Every generation of the 5-by-5 blinker is one of its two phases, by parity. */
  lemma BlinkerOscillates(n: nat)
    ensures |BlinkerA| == Torus.Cells(5, 5) && Wired(Torus.Wiring(5, 5), |BlinkerA|)
    ensures Iterate(Torus.Wiring(5, 5), BlinkerA, n) == if n % 2 == 0 then BlinkerA else BlinkerB
  {
    BlinkerPhases();
    PeriodTwo(Torus.Wiring(5, 5), BlinkerA, BlinkerB, n);
  }

  /** Two phases that the full-grid step swaps are swapped by calculate
      with the corrected indexer. */
  lemma CorrectedSwapsPhases(cols: int, rows: int, a: seq<Bit>, b: seq<Bit>)
    requires cols > 0 && rows > 0 && |a| == Torus.Cells(cols, rows) && |b| == |a|
    requires Wired(Torus.Wiring(cols, rows), |a|)
    requires Step(Torus.Wiring(cols, rows), a) == b && Step(Torus.Wiring(cols, rows), b) == a
    ensures LibLife.Calculate(LibLife.Corrected, cols, rows, a).0 == b
    ensures LibLife.Calculate(LibLife.Corrected, cols, rows, b).0 == a
  {
    LibLife.CorrectedIsStep(cols, rows, a);
    LibLife.CorrectedIsStep(cols, rows, b);
  }

  /** With the corrected indexer, calculate produces the expected phases of
      every oscillator of the pattern tests: each call turns one phase into
      the other. */
  lemma CorrectedGivesExpectedPhases()
    ensures |ToadA| == Torus.Cells(8, 6) && |TallToadA| == Torus.Cells(6, 8) && |BlinkerA| == Torus.Cells(5, 5)
    ensures LibLife.Calculate(LibLife.Corrected, 8, 6, ToadA).0 == ToadB
    ensures LibLife.Calculate(LibLife.Corrected, 8, 6, ToadB).0 == ToadA
    ensures LibLife.Calculate(LibLife.Corrected, 6, 8, TallToadA).0 == TallToadB
    ensures LibLife.Calculate(LibLife.Corrected, 6, 8, TallToadB).0 == TallToadA
    ensures LibLife.Calculate(LibLife.Corrected, 5, 5, BlinkerA).0 == BlinkerB
    ensures LibLife.Calculate(LibLife.Corrected, 5, 5, BlinkerB).0 == BlinkerA
  {
    ToadPhases();
    CorrectedSwapsPhases(8, 6, ToadA, ToadB);
    TallToadPhases();
    CorrectedSwapsPhases(6, 8, TallToadA, TallToadB);
    BlinkerPhases();
    CorrectedSwapsPhases(5, 5, BlinkerA, BlinkerB);
  }

  /** On the square blinker, calculate with the lib indexer as written
      produces the expected phases too. */
  lemma BlinkerPhasesAsWritten()
    ensures |BlinkerA| == Torus.Cells(5, 5)
    ensures LibLife.Calculate(LibLife.AsWritten, 5, 5, BlinkerA).0 == BlinkerB
    ensures LibLife.Calculate(LibLife.AsWritten, 5, 5, BlinkerB).0 == BlinkerA
  {
    BlinkerPhases();
    LibLife.SquareIsStep(5, BlinkerA);
    LibLife.SquareIsStep(5, BlinkerB);
  }

  /** The nine-cell sum of calculate with the lib indexer as written, once
      the cell's coordinates and the eight indices the indexer gives its
      neighbours are known. */
  lemma AsWrittenSum(cols: int, rows: int, grid: seq<Bit>, index: int, x: int, y: int,
                     n0: int, n1: int, n2: int, n3: int, n4: int, n5: int, n6: int, n7: int)
    requires cols > 0 && rows > 0 && |grid| == Torus.Cells(cols, rows) && 0 <= index < |grid|
    requires Torus.IndexToPoint(cols, rows, index) == (x, y)
    requires LibLife.PointToIndex(cols, rows, x - 1, y - 1) == n0
    requires LibLife.PointToIndex(cols, rows, x - 1, y) == n1
    requires LibLife.PointToIndex(cols, rows, x - 1, y + 1) == n2
    requires LibLife.PointToIndex(cols, rows, x, y - 1) == n3
    requires LibLife.PointToIndex(cols, rows, x, y + 1) == n4
    requires LibLife.PointToIndex(cols, rows, x + 1, y - 1) == n5
    requires LibLife.PointToIndex(cols, rows, x + 1, y) == n6
    requires LibLife.PointToIndex(cols, rows, x + 1, y + 1) == n7
    ensures 0 <= n0 < |grid| && 0 <= n1 < |grid| && 0 <= n2 < |grid| && 0 <= n3 < |grid|
    ensures 0 <= n4 < |grid| && 0 <= n5 < |grid| && 0 <= n6 < |grid| && 0 <= n7 < |grid|
    ensures LibLife.Sum9(LibLife.AsWritten, cols, rows, grid, index) ==
      grid[n0] as int + grid[n1] + grid[n2] + grid[n3] + grid[index] + grid[n4] + grid[n5] + grid[n6] + grid[n7]
  {
  }

  /** Cell 19 of the 8-by-6 toad and the cells the lib indexer takes for
      its neighbours: only cell 21 is alive before the step. */
  lemma ToadAroundNineteen()
    ensures |ToadA| == 48 && |ToadB| == 48
    ensures ToadA[19] == 0 && ToadB[19] == 1
    ensures ToadA[8] == 0 && ToadA[14] == 0 && ToadA[20] == 0 && ToadA[9] == 0
    ensures ToadA[21] == 1 && ToadA[10] == 0 && ToadA[16] == 0 && ToadA[22] == 0
  {
  }

  /** Cell 20 of the 6-by-8 toad and the cells the lib indexer takes for
      its neighbours: cells 19 and 25 are alive before the step. */
  lemma TallToadAroundTwenty()
    ensures |TallToadA| == 48 && |TallToadB| == 48
    ensures TallToadA[20] == 0 && TallToadB[20] == 1
    ensures TallToadA[17] == 0 && TallToadA[25] == 1 && TallToadA[33] == 0 && TallToadA[18] == 0
    ensures TallToadA[34] == 0 && TallToadA[19] == 1 && TallToadA[27] == 0 && TallToadA[35] == 0
  {
  }

  /** With the lib indexer as written, the nine-cell sum of cell 19 of
      the 8-by-6 toad is 1. */
  lemma ToadSumAsWritten()
    ensures |ToadA| == Torus.Cells(8, 6)
    ensures LibLife.Sum9(LibLife.AsWritten, 8, 6, ToadA, 19) == 1
  {
    ToadAroundNineteen();
    Torus.CellsIsProduct(8, 6);
    Torus.JsRemIsTruncated(19, 8);
    assert Torus.IndexToPoint(8, 6, 19) == (3, 2);
    LibLife.PointToIndexIsSwapped(8, 6, 2, 1);
    LibLife.PointToIndexIsSwapped(8, 6, 2, 2);
    LibLife.PointToIndexIsSwapped(8, 6, 2, 3);
    LibLife.PointToIndexIsSwapped(8, 6, 3, 1);
    LibLife.PointToIndexIsSwapped(8, 6, 3, 3);
    LibLife.PointToIndexIsSwapped(8, 6, 4, 1);
    LibLife.PointToIndexIsSwapped(8, 6, 4, 2);
    LibLife.PointToIndexIsSwapped(8, 6, 4, 3);
    AsWrittenSum(8, 6, ToadA, 19, 3, 2, 8, 14, 20, 9, 21, 10, 16, 22);
  }

  /** With the lib indexer as written, the first calculation of the 8-by-6
      toad is wrong: cell 19 (column 3, row 2) adds up the cells of the
      transposed neighbourhood, of which only cell 21 is alive, so it comes
      out dead where the second phase has it alive. */
  lemma ToadFailsAsWritten()
    ensures |ToadA| == Torus.Cells(8, 6)
    ensures LibLife.Calculate(LibLife.AsWritten, 8, 6, ToadA).0[19] == 0
    ensures ToadB[19] == 1
    ensures LibLife.Calculate(LibLife.AsWritten, 8, 6, ToadA).0 != ToadB
  {
    ToadAroundNineteen();
    ToadSumAsWritten();
    LibLife.CalculateAt(LibLife.AsWritten, 8, 6, ToadA, 19);
  }


  /** With the lib indexer as written, the nine-cell sum of cell 20 of
      the 6-by-8 toad is 2. */
  lemma TallToadSumAsWritten()
    ensures |TallToadA| == Torus.Cells(6, 8)
    ensures LibLife.Sum9(LibLife.AsWritten, 6, 8, TallToadA, 20) == 2
  {
    TallToadAroundTwenty();
    Torus.CellsIsProduct(6, 8);
    Torus.JsRemIsTruncated(20, 6);
    assert Torus.IndexToPoint(6, 8, 20) == (2, 3);
    LibLife.PointToIndexIsSwapped(6, 8, 1, 2);
    LibLife.PointToIndexIsSwapped(6, 8, 1, 3);
    LibLife.PointToIndexIsSwapped(6, 8, 1, 4);
    LibLife.PointToIndexIsSwapped(6, 8, 2, 2);
    LibLife.PointToIndexIsSwapped(6, 8, 2, 4);
    LibLife.PointToIndexIsSwapped(6, 8, 3, 2);
    LibLife.PointToIndexIsSwapped(6, 8, 3, 3);
    LibLife.PointToIndexIsSwapped(6, 8, 3, 4);
    AsWrittenSum(6, 8, TallToadA, 20, 2, 3, 17, 25, 33, 18, 34, 19, 27, 35);
  }

  /** With the lib indexer as written, the first calculation of the 6-by-8
      toad is wrong as well: cell 20 (column 2, row 3) adds up the cells of
      the transposed neighbourhood, of which cells 19 and 25 are alive, so
      it stays dead where the second phase has it alive. */
  lemma TallToadFailsAsWritten()
    ensures |TallToadA| == Torus.Cells(6, 8)
    ensures LibLife.Calculate(LibLife.AsWritten, 6, 8, TallToadA).0[20] == 0
    ensures TallToadB[20] == 1
    ensures LibLife.Calculate(LibLife.AsWritten, 6, 8, TallToadA).0 != TallToadB
  {
    TallToadAroundTwenty();
    TallToadSumAsWritten();
    LibLife.CalculateAt(LibLife.AsWritten, 6, 8, TallToadA, 20);
  }

}
