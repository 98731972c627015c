/** The full-grid stepper: the reference semantics of one generation.  A
    grid is a sequence of cell values; the wiring gives, for every cell, the
    list of its eight neighbour indices, as the engine of src/life.mjs wires
    them once at initialisation (Torus.Wiring builds the toroidal one).
    Every cell's next value is the rule applied to its own value plus the
    values of its listed neighbours in the OLD grid. */
module FullGrid {
  import opened Rule

  /** A wiring of n cells: eight neighbour indices per cell, each a cell. */
  predicate Wired(w: seq<seq<int>>, n: int)
  {
    |w| == n &&
    forall i :: 0 <= i < |w| ==> |w[i]| == 8 && forall k :: 0 <= k < 8 ==> 0 <= w[i][k] < n
  }

  /** Being a neighbour is mutual. */
  predicate Symmetric(w: seq<seq<int>>)
  {
    forall i, j :: 0 <= i < |w| && 0 <= j < |w| ==> (j in w[i] <==> i in w[j])
  }

  /** The sum of the values at the listed indices, duplicates counted again. */
  function SumOver(g: seq<Bit>, idx: seq<int>): (s: int)
    requires forall k :: 0 <= k < |idx| ==> 0 <= idx[k] < |g|
    ensures 0 <= s <= |idx|
  {
    if idx == [] then 0 else g[idx[0]] + SumOver(g, idx[1..])
  }

  /** Two grids that agree on the listed cells give the same sum over them. */
  lemma {:induction false} SumOverAgree(g: seq<Bit>, h: seq<Bit>, idx: seq<int>)
    requires forall k :: 0 <= k < |idx| ==> 0 <= idx[k] < |g| && 0 <= idx[k] < |h|
    requires forall k :: 0 <= k < |idx| ==> g[idx[k]] == h[idx[k]]
    ensures SumOver(g, idx) == SumOver(h, idx)
  {
    if idx != [] {
      SumOverAgree(g, h, idx[1..]);
    }
  }

  /** Over dead cells only, the sum is 0. */
  lemma {:induction false} SumOverDead(g: seq<Bit>, idx: seq<int>)
    requires forall k :: 0 <= k < |idx| ==> 0 <= idx[k] < |g| && g[idx[k]] == 0
    ensures SumOver(g, idx) == 0
  {
    if idx != [] {
      SumOverDead(g, idx[1..]);
    }
  }

  /** A sum over eight listed cells, written out. */
  lemma SumOverEight(g: seq<Bit>, idx: seq<int>)
    requires |idx| == 8 && forall k :: 0 <= k < 8 ==> 0 <= idx[k] < |g|
    ensures SumOver(g, idx) == g[idx[0]] as int + g[idx[1]] + g[idx[2]] + g[idx[3]] +
      g[idx[4]] + g[idx[5]] + g[idx[6]] + g[idx[7]]
  {
    assert SumOver(g, idx[0..]) == g[idx[0]] + SumOver(g, idx[1..]) by { assert idx[0..][1..] == idx[1..]; }
    assert SumOver(g, idx[1..]) == g[idx[1]] + SumOver(g, idx[2..]) by { assert idx[1..][1..] == idx[2..]; }
    assert SumOver(g, idx[2..]) == g[idx[2]] + SumOver(g, idx[3..]) by { assert idx[2..][1..] == idx[3..]; }
    assert SumOver(g, idx[3..]) == g[idx[3]] + SumOver(g, idx[4..]) by { assert idx[3..][1..] == idx[4..]; }
    assert SumOver(g, idx[4..]) == g[idx[4]] + SumOver(g, idx[5..]) by { assert idx[4..][1..] == idx[5..]; }
    assert SumOver(g, idx[5..]) == g[idx[5]] + SumOver(g, idx[6..]) by { assert idx[5..][1..] == idx[6..]; }
    assert SumOver(g, idx[6..]) == g[idx[6]] + SumOver(g, idx[7..]) by { assert idx[6..][1..] == idx[7..]; }
    assert SumOver(g, idx[7..]) == g[idx[7]] + SumOver(g, idx[8..]) by { assert idx[7..][1..] == idx[8..]; }
    assert idx[0..] == idx && idx[8..] == [];
  }

  /** Summing over two lists one after the other adds the two sums. */
  lemma {:induction false} SumOverAppend(g: seq<Bit>, a: seq<int>, b: seq<int>)
    requires forall k :: 0 <= k < |a| ==> 0 <= a[k] < |g|
    requires forall k :: 0 <= k < |b| ==> 0 <= b[k] < |g|
    ensures SumOver(g, a + b) == SumOver(g, a) + SumOver(g, b)
  {
    if a != [] {
      assert (a + b)[1..] == a[1..] + b;
      SumOverAppend(g, a[1..], b);
    } else {
      assert a + b == b;
    }
  }

  /** The number of live cells among the eight neighbours of cell i. */
  function LiveAround(w: seq<seq<int>>, g: seq<Bit>, i: int): (n: int)
    requires Wired(w, |g|) && 0 <= i < |g|
    ensures 0 <= n <= 8
  {
    SumOver(g, w[i])
  }

  /** The nine-cell sum the source feeds to the rule: the cell itself plus its neighbours. */
  function NeighbourhoodSum(w: seq<seq<int>>, g: seq<Bit>, i: int): (s: int)
    requires Wired(w, |g|) && 0 <= i < |g|
    ensures 0 <= s <= 9
  {
    g[i] + LiveAround(w, g, i)
  }

  /** Cell i keeps its value under the rule. */
  predicate Stable(w: seq<seq<int>>, g: seq<Bit>, i: int)
    requires Wired(w, |g|) && 0 <= i < |g|
  {
    Next(g[i], NeighbourhoodSum(w, g, i)) == g[i]
  }

  /** One generation over the whole grid, like the map of lib/life.mjs:38: the
      rule applied to every cell's neighbourhood in the OLD grid. */
  function Step(w: seq<seq<int>>, g: seq<Bit>): (r: seq<Bit>)
    requires Wired(w, |g|)
    ensures |r| == |g|
  {
    StepFrom(w, g, 0)
  }

  /** The next values of cells i, i + 1, ..., |g| - 1. */
  function StepFrom(w: seq<seq<int>>, g: seq<Bit>, i: nat): (r: seq<Bit>)
    requires Wired(w, |g|) && i <= |g|
    ensures |r| == |g| - i
    decreases |g| - i
  {
    if i == |g| then [] else [Next(g[i], NeighbourhoodSum(w, g, i))] + StepFrom(w, g, i + 1)
  }

  lemma {:induction false} StepFromAt(w: seq<seq<int>>, g: seq<Bit>, i: nat, j: int)
    requires Wired(w, |g|) && i <= j < |g|
    ensures StepFrom(w, g, i)[j - i] == Next(g[j], NeighbourhoodSum(w, g, j))
    decreases j - i
  {
    if i < j {
      StepFromAt(w, g, i + 1, j);
    }
  }

  /** Cell i of the next generation is the rule on its old nine-cell sum. */
  lemma StepAt(w: seq<seq<int>>, g: seq<Bit>, i: int)
    requires Wired(w, |g|) && 0 <= i < |g|
    ensures Step(w, g)[i] == Next(g[i], NeighbourhoodSum(w, g, i))
  {
    StepFromAt(w, g, 0, i);
  }

  /** Cell i of the next generation follows Conway's rule on its live neighbours. */
  lemma StepIsClassic(w: seq<seq<int>>, g: seq<Bit>, i: int)
    requires Wired(w, |g|) && 0 <= i < |g|
    ensures Step(w, g)[i] == Classic(g[i], LiveAround(w, g, i))
  {
    StepAt(w, g, i);
  }

  /** A grid is the step of another when every cell is the rule on its old sum. */
  lemma StepByCells(w: seq<seq<int>>, g: seq<Bit>, h: seq<Bit>)
    requires Wired(w, |g|) && |h| == |g|
    requires forall i :: 0 <= i < |g| ==> h[i] == Next(g[i], NeighbourhoodSum(w, g, i))
    ensures Step(w, g) == h
  {
    forall i | 0 <= i < |g|
      ensures Step(w, g)[i] == h[i]
    {
      StepAt(w, g, i);
    }
  }

  /** n generations of the full-grid stepper. */
  function Iterate(w: seq<seq<int>>, g: seq<Bit>, n: nat): (r: seq<Bit>)
    requires Wired(w, |g|)
    ensures |r| == |g|
    decreases n
  {
    if n == 0 then g else Iterate(w, Step(w, g), n - 1)
  }

  /** The last of n + 1 generations is one step of the n-th. */
  lemma {:induction false} IterateLast(w: seq<seq<int>>, g: seq<Bit>, n: nat)
    requires Wired(w, |g|)
    ensures Iterate(w, g, n + 1) == Step(w, Iterate(w, g, n))
    decreases n
  {
    if n > 0 {
      var m: nat := n - 1;
      IterateLast(w, Step(w, g), m);
    }
  }

  /** A grid the stepper maps to itself stays put forever. */
  lemma {:induction false} FixedPointForever(w: seq<seq<int>>, g: seq<Bit>, n: nat)
    requires Wired(w, |g|) && Step(w, g) == g
    ensures Iterate(w, g, n) == g
    decreases n
  {
    if n > 0 {
      FixedPointForever(w, g, n - 1);
    }
  }

  /** Two grids each mapped to the other form a period-2 cycle. */
  lemma {:induction false} PeriodTwo(w: seq<seq<int>>, a: seq<Bit>, b: seq<Bit>, n: nat)
    requires Wired(w, |a|) && |b| == |a|
    requires Step(w, a) == b && Step(w, b) == a
    ensures Iterate(w, a, n) == if n % 2 == 0 then a else b
    decreases n
  {
    if n > 0 {
      PeriodTwo(w, b, a, n - 1);
    }
  }

  /** An all-dead grid stays all dead. */
  lemma AllDeadStill(w: seq<seq<int>>, g: seq<Bit>)
    requires Wired(w, |g|)
    requires forall i :: 0 <= i < |g| ==> g[i] == 0
    ensures Step(w, g) == g
  {
    forall i | 0 <= i < |g|
      ensures Next(g[i], NeighbourhoodSum(w, g, i)) == g[i]
    {
      SumOverDead(g, w[i]);
    }
    StepByCells(w, g, g);
  }
}
