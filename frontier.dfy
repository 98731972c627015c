/** What one step of the incremental engine of src/life.mjs computes, as
    functions of the grid before the step and the inspection set, and the
    proof that it agrees with the full-grid stepper.  The engine's claim is
    that a cell which did not change and none of whose neighbours changed
    will not change in the next round, so only the changed cells and their
    neighbours need to be inspected again. */
module Frontier {
  import opened Rule
  import opened FullGrid

  /** Every member of s is the index of a cell of the wiring w. */
  predicate InGrid(w: seq<seq<int>>, s: set<int>)
  {
    forall i :: i in s ==> 0 <= i < |w|
  }

  /** The initial inspection set: every cell. */
  function AllCells(n: nat): (s: set<int>)
    ensures forall i :: i in s <==> 0 <= i < n
  {
    if n == 0 then {} else AllCells(n - 1) + {n - 1}
  }

  /** The frontier invariant: every cell outside the inspection set keeps its
      value under the rule. */
  ghost predicate Sound(w: seq<seq<int>>, g: seq<Bit>, insp: set<int>)
    requires Wired(w, |g|)
  {
    forall i :: 0 <= i < |g| && i !in insp ==> Stable(w, g, i)
  }

  /** The inspected cells whose value the rule changes: the step's `changes`. */
  function Changes(w: seq<seq<int>>, g: seq<Bit>, insp: set<int>): (r: set<int>)
    requires Wired(w, |g|)
    ensures r <= insp
    ensures forall i :: i in r ==> 0 <= i < |g| && Next(g[i], NeighbourhoodSum(w, g, i)) != g[i]
    ensures forall i :: i in insp && 0 <= i < |g| && i !in r ==> Stable(w, g, i)
  {
    set i | i in insp && 0 <= i < |g| && !Stable(w, g, i)
  }

  /** The next inspection set: the changed cells and every neighbour of each. */
  function Expand(w: seq<seq<int>>, changed: set<int>): (r: set<int>)
    requires Wired(w, |w|) && InGrid(w, changed)
    ensures InGrid(w, r)
  {
    changed + set i, j | i in changed && j in w[i] :: j
  }

  /** The grid after the commit: each changed cell takes the value staged
      from the old grid, every other cell keeps its old value. */
  function Commit(w: seq<seq<int>>, g: seq<Bit>, changed: set<int>): (r: seq<Bit>)
    requires Wired(w, |g|)
    ensures |r| == |g|
  {
    seq(|g|, i requires 0 <= i < |g| =>
      if i in changed then Next(g[i], NeighbourhoodSum(w, g, i)) else g[i])
  }

  /** Membership in the new frontier: a changed cell, or a neighbour of one. */
  lemma ExpandMembers(w: seq<seq<int>>, changed: set<int>, j: int)
    requires Wired(w, |w|) && InGrid(w, changed)
    ensures j in Expand(w, changed) <==>
      j in changed || exists i :: i in changed && j in w[i]
  {
  }

  /** The changes of a step are exactly the cells the full-grid stepper changes. */
  lemma ChangesAreDifferences(w: seq<seq<int>>, g: seq<Bit>, insp: set<int>, i: int)
    requires Wired(w, |g|) && Sound(w, g, insp) && 0 <= i < |g|
    ensures i in Changes(w, g, insp) <==> Step(w, g)[i] != g[i]
  {
    StepAt(w, g, i);
  }

  /** One incremental step on a sound frontier yields the full-grid step. */
  lemma IncrementalIsFull(w: seq<seq<int>>, g: seq<Bit>, insp: set<int>)
    requires Wired(w, |g|) && Sound(w, g, insp)
    ensures Commit(w, g, Changes(w, g, insp)) == Step(w, g)
  {
    var c := Commit(w, g, Changes(w, g, insp));
    var s := Step(w, g);
    forall i | 0 <= i < |g|
      ensures c[i] == s[i]
    {
      StepAt(w, g, i);
    }
  }

  /** The frontier is sound again after the step: a cell outside the new
      frontier did not change and none of its neighbours changed, so its
      neighbourhood sum, and with it its stability, is what it was. */
  lemma FrontierSound(w: seq<seq<int>>, g: seq<Bit>, insp: set<int>)
    requires Wired(w, |g|) && Symmetric(w) && Sound(w, g, insp)
    ensures Sound(w, Step(w, g), Expand(w, Changes(w, g, insp)))
  {
    var h := Step(w, g);
    var changed := Changes(w, g, insp);
    var next := Expand(w, changed);
    forall j | 0 <= j < |h| && j !in next
      ensures Stable(w, h, j)
    {
      var ns := w[j];
      forall k | 0 <= k < 8
        ensures h[ns[k]] == g[ns[k]]
      {
        var n := ns[k];
        if n in changed {
          ExpandMembers(w, changed, j);
          assert false;
        }
        ChangesAreDifferences(w, g, insp, n);
      }
      SumOverAgree(h, g, ns);
      ExpandMembers(w, changed, j);
      ChangesAreDifferences(w, g, insp, j);
    }
  }

  /** n incremental steps from grid g and inspection set insp. */
  function Run(w: seq<seq<int>>, g: seq<Bit>, insp: set<int>, n: nat): (r: seq<Bit>)
    requires Wired(w, |g|) && InGrid(w, insp)
    ensures |r| == |g|
    decreases n
  {
    if n == 0 then g
    else Run(w, Commit(w, g, Changes(w, g, insp)), Expand(w, Changes(w, g, insp)), n - 1)
  }

  /** From a sound frontier -- initially every cell -- the incremental engine
      produces, generation after generation, what the full-grid stepper does. */
  lemma {:induction false} RunIsIterate(w: seq<seq<int>>, g: seq<Bit>, insp: set<int>, n: nat)
    requires Wired(w, |g|) && Symmetric(w) && InGrid(w, insp) && Sound(w, g, insp)
    ensures Run(w, g, insp, n) == Iterate(w, g, n)
    decreases n
  {
    if n > 0 {
      var changed := Changes(w, g, insp);
      FrontierSound(w, g, insp);
      var m: nat := n - 1;
      RunIsIterate(w, Step(w, g), Expand(w, changed), m);
      IncrementalIsFull(w, g, insp);
      RunFirst(w, g, insp, m, Step(w, g));
      IterateSucc(w, g, n, m, Step(w, g));
    }
  }

  /** The first generation of Run yields h when the commit does. */
  lemma RunFirst(w: seq<seq<int>>, g: seq<Bit>, insp: set<int>, m: nat, h: seq<Bit>)
    requires Wired(w, |g|) && InGrid(w, insp)
    requires Commit(w, g, Changes(w, g, insp)) == h
    ensures |h| == |g|
    ensures Run(w, g, insp, m + 1) == Run(w, h, Expand(w, Changes(w, g, insp)), m)
  {
  }

  lemma IterateSucc(w: seq<seq<int>>, g: seq<Bit>, n: nat, m: nat, h: seq<Bit>)
    requires Wired(w, |g|) && n == m + 1 && h == Step(w, g)
    ensures Iterate(w, g, n) == Iterate(w, h, m)
  {
  }

  /** The whole grid is a sound initial frontier. */
  lemma AllCellsSound(w: seq<seq<int>>, g: seq<Bit>)
    requires Wired(w, |g|)
    ensures InGrid(w, AllCells(|g|)) && Sound(w, g, AllCells(|g|))
  {
  }

  /** A sound empty frontier is a still life. */
  lemma EmptyFrontierStill(w: seq<seq<int>>, g: seq<Bit>)
    requires Wired(w, |g|) && Sound(w, g, {})
    ensures Step(w, g) == g
  {
    IncrementalIsFull(w, g, {});
    assert Changes(w, g, {}) == {};
  }
}
