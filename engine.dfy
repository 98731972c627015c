/** The incremental engine of src/life.mjs (the default export, lines
    37-122), as an object the caller steps by hand instead of an async
    generator.  The cells live in an arena addressed by index: a value per
    cell and, fixed at initialisation, the indices of its eight neighbours.
    A step evaluates only the cells of the inspection set, stages the new
    values, commits them once the whole set has been evaluated, and makes
    the changed cells and their neighbours the next inspection set.  After
    the commit the whole grid is fingerprinted; a fingerprint kept from one
    of the last `historyToKeep` steps ends the run. */
module Engine {
  import opened Rule
  import Torus
  import opened FullGrid
  import opened Frontier
  import Fingerprint

  /** A JavaScript Set of cell indices, as the list of its members in the
      order they were added; it never holds an index twice. */
  predicate NoDup(s: seq<int>)
  {
    forall i, j :: 0 <= i < j < |s| ==> s[i] != s[j]
  }

  function Members(s: seq<int>): set<int>
  {
    set x | x in s
  }

  /** Adding x to a Set (src/life.mjs:81-83): x is appended unless it is
      already a member. */
  function Add(s: seq<int>, x: int): (r: seq<int>)
    ensures Members(r) == Members(s) + {x}
    ensures forall y :: y in r <==> y in s || y == x
    ensures NoDup(s) ==> NoDup(r)
    ensures x in s ==> r == s
  {
    if x in s then s else s + [x]
  }

  /** What a call of Step hands back: the generation and its changed cells
      (what the generator yields), or the reason the run is over. */
  datatype Outcome = Continuing(generation: nat, changes: seq<int>) | Converged | Cancelled

  /** Where the run stands: built but generation 0 not yet handed out,
      stepping, or over. */
  datatype Phase = Seeded | Stepping | Ended(how: Outcome)

  /** The indices 0, 1, ..., n - 1, the order in which the cells are made. */
  function Indices(n: nat): (s: seq<int>)
    ensures |s| == n && NoDup(s)
    ensures forall i :: 0 <= i < n ==> s[i] == i
  {
    seq(n, i => i)
  }

  lemma IndicesMembers(n: nat)
    ensures forall i :: i in Indices(n) <==> 0 <= i < n
  {
    forall i | 0 <= i < n
      ensures i in Indices(n)
    {
      assert Indices(n)[i] == i;
    }
  }

  class Life {
    const cols: int
    const rows: int
    const historyToKeep: nat
    /** neighbours[i]: the eight neighbour indices of cell i, in the order of
        the source's offsets. */
    const neighbours: seq<seq<int>>
    /** cells[i]: the value of cell i. */
    const cells: array<Bit>
    /** The cells to evaluate in the next step. */
    var inspections: seq<int>
    var generation: nat
    /** The fingerprints of the last committed grids, newest first. */
    var history: seq<seq<nat>>
    var phase: Phase

    /** The grids whose fingerprints are in `history`. */
    ghost var past: seq<seq<Bit>>

    /** The cell graph: eight neighbours per cell, each a cell, and being a
        neighbour is mutual.  (The constructor wires the toroidal graph, and
        `neighbours` never changes.) */
    ghost predicate Graph()
    {
      Wired(neighbours, cells.Length) && Symmetric(neighbours)
    }

    /** Every cell outside the inspection set is stable, and the history
        holds the fingerprints of at most `historyToKeep` grids of this
        size; before generation 0 is handed out every cell is inspected and
        nothing is recorded. */
    ghost predicate Valid(): (b: bool)
      reads this, cells
      ensures b ==> |neighbours| == cells.Length && NoDup(inspections)
      ensures b ==> InGrid(neighbours, Members(inspections))
      ensures b ==> |history| == |past| <= historyToKeep
    {
      Graph() &&
      Invariant(neighbours, cells[..], inspections, historyToKeep, history, past) &&
      (phase == Seeded ==> generation == 0 && inspections == Indices(cells.Length) && history == [])
    }

    /** Builds the cells, each with the value `cb` gives its index and its
        eight wrapped neighbours, and inspects every cell first.  The
        history length defaults to 6, as in src/life.mjs:37. */
    constructor (cols: int, rows: int, cb: nat -> Bit, historyToKeep: nat := 6)
      requires cols > 0 && rows > 0
      ensures Valid() && fresh(cells)
      ensures neighbours == Torus.Wiring(cols, rows) && cells.Length == Torus.Cells(cols, rows)
      ensures this.cols == cols && this.rows == rows && this.historyToKeep == historyToKeep
      ensures cells.Length == cols * rows
      ensures forall i :: 0 <= i < cells.Length ==> cells[i] == cb(i)
      ensures forall i :: 0 <= i < cells.Length ==> neighbours[i] == Torus.Neighbours(cols, rows, i)
      ensures phase == Seeded && generation == 0 && history == []
    {
      Torus.CellsIsProduct(cols, rows);
      var n := cols * rows;
      var a := new Bit[n];
      var ws: seq<seq<int>> := [];
      var all: seq<int> := [];
      var i := 0;
      while i < n
        invariant 0 <= i <= n
        invariant |ws| == i && |all| == i
        invariant forall j :: 0 <= j < i ==> a[j] == cb(j) && ws[j] == Torus.Neighbours(cols, rows, j) && all[j] == j
      {
        a[i] := cb(i);
        ws := ws + [Torus.Neighbours(cols, rows, i)];
        all := all + [i];
        i := i + 1;
      }
      assert ws == Torus.Wiring(cols, rows);
      assert all == Indices(n);
      Torus.WiringIsSymmetric(cols, rows);
      this.cols, this.rows, this.historyToKeep := cols, rows, historyToKeep;
      cells, neighbours := a, ws;
      inspections := all;
      generation := 0;
      history, past := [], [];
      phase := Seeded;
      new;
      assert Members(inspections) == AllCells(n) by {
        IndicesMembers(n);
      }
      AllCellsSound(neighbours, cells[..]);
    }

    /** The neighbourhood sum of src/life.mjs:75: starting from the cell's
        own value, the values of its eight neighbours are added in order. */
    method NeighbourhoodSumOf(cell: int) returns (sum: int)
      requires Wired(neighbours, cells.Length) && 0 <= cell < cells.Length
      ensures sum == NeighbourhoodSum(neighbours, cells[..], cell)
      ensures 0 <= sum <= 9
    {
      var ns := neighbours[cell];
      sum := cells[cell];
      for k := 0 to 8
        invariant sum == cells[cell] + SumOver(cells[..], ns[..k])
      {
        assert ns[..k + 1] == ns[..k] + [ns[k]];
        SumOverAppend(cells[..], ns[..k], [ns[k]]);
        assert [ns[k]][1..] == [];
        sum := sum + cells[ns[k]];
      }
      assert ns[..8] == ns;
    }

    /** The first phase of a step (src/life.mjs:74-85): every inspected cell
        is evaluated against the grid as it stands; a cell the rule changes
        gets its new value staged, is added to the changes, and adds itself
        and its neighbours to the next inspection set. */
    method Evaluate() returns (changes: seq<int>, staged: map<int, Bit>, newInspections: seq<int>)
      requires Wired(neighbours, cells.Length) && InGrid(neighbours, Members(inspections))
      ensures NoDup(changes) && InGrid(neighbours, Members(changes))
      ensures Members(changes) == Changes(neighbours, cells[..], Members(inspections))
      ensures Staged(neighbours, cells[..], changes, staged)
      ensures NoDup(newInspections) && InGrid(neighbours, Members(newInspections))
      ensures Members(newInspections) == Expand(neighbours, Members(changes))
    {
      ghost var g := cells[..];
      changes, staged, newInspections := [], map[], [];
      for k := 0 to |inspections|
        invariant NoDup(changes) && InGrid(neighbours, Members(changes))
        invariant Members(changes) == Unstable(neighbours, g, inspections[..k])
        invariant Staged(neighbours, g, changes, staged)
        invariant NoDup(newInspections) && InGrid(neighbours, Members(newInspections))
        invariant Members(newInspections) == Expand(neighbours, Members(changes))
      {
        UnstableSnoc(neighbours, g, inspections, k);
        assert inspections[k] in Members(inspections);
        changes, staged, newInspections := Visit(inspections[k], changes, staged, newInspections);
      }
      UnstableIsChanges(neighbours, g, inspections);
    }

    /** One pass of the evaluation loop (src/life.mjs:74-85): the cell's
        neighbourhood sum gives its next value; a cell that would change
        stages that value and puts itself and its neighbours into the next
        inspection set. */
    method Visit(cell: int, changes: seq<int>, staged: map<int, Bit>, newInspections: seq<int>)
      returns (changes': seq<int>, staged': map<int, Bit>, newInspections': seq<int>)
      requires Wired(neighbours, cells.Length) && 0 <= cell < cells.Length
      requires NoDup(changes) && InGrid(neighbours, Members(changes))
      requires Staged(neighbours, cells[..], changes, staged)
      requires NoDup(newInspections) && InGrid(neighbours, Members(newInspections))
      requires Members(newInspections) == Expand(neighbours, Members(changes))
      ensures NoDup(changes') && InGrid(neighbours, Members(changes'))
      ensures Members(changes') == Members(changes) + (if Stable(neighbours, cells[..], cell) then {} else {cell})
      ensures Staged(neighbours, cells[..], changes', staged')
      ensures NoDup(newInspections') && InGrid(neighbours, Members(newInspections'))
      ensures Members(newInspections') == Expand(neighbours, Members(changes'))
    {
      changes', staged', newInspections' := changes, staged, newInspections;
      var sum := NeighbourhoodSumOf(cell);
      var retval: Bit := 0;
      if sum == 3 { retval := 1; }
      if sum == 4 { retval := cells[cell]; }
      assert retval == Next(cells[cell], NeighbourhoodSum(neighbours, cells[..], cell));
      if retval != cells[cell] {
        ExpandAdd(neighbours, Members(changes), cell);
        staged' := staged[cell := retval];
        changes' := Add(changes, cell);
        assert Staged(neighbours, cells[..], changes', staged') by {
          assert forall i :: i in changes' ==> i in changes || i == cell;
        }
        newInspections' := Add(newInspections, cell);
        assert InGrid(neighbours, Members(newInspections'));
        newInspections' := AddNeighbours(newInspections', cell);
      }
    }

    /** Adds each of the cell's eight neighbours, in order, to the set s
        (src/life.mjs:83). */
    method AddNeighbours(s: seq<int>, cell: int) returns (r: seq<int>)
      requires Wired(neighbours, cells.Length) && 0 <= cell < cells.Length
      ensures Members(r) == Members(s) + Members(neighbours[cell])
      ensures NoDup(s) ==> NoDup(r)
      ensures InGrid(neighbours, Members(s)) ==> InGrid(neighbours, Members(r))
    {
      r := s;
      for k := 0 to 8
        invariant Members(r) == Members(s) + Members(neighbours[cell][..k])
        invariant NoDup(s) ==> NoDup(r)
        invariant InGrid(neighbours, Members(s)) ==> InGrid(neighbours, Members(r))
      {
        assert neighbours[cell][..k + 1] == neighbours[cell][..k] + [neighbours[cell][k]];
        r := Add(r, neighbours[cell][k]);
      }
      assert neighbours[cell][..8] == neighbours[cell];
    }

    /** The second phase (src/life.mjs:89-92): every changed cell takes its
        staged value; no other cell is written. */
    method CommitStaged(changes: seq<int>, staged: map<int, Bit>, ghost g: seq<Bit>)
      requires Wired(neighbours, cells.Length) && g == cells[..]
      requires Staged(neighbours, g, changes, staged)
      modifies cells
      ensures cells[..] == Commit(neighbours, g, Members(changes))
    {
      for k := 0 to |changes|
        invariant forall i :: 0 <= i < |g| ==> cells[i] == if i in changes[..k] then staged[i] else g[i]
      {
        var cell := changes[k];
        assert cell in changes;
        assert changes[..k + 1] == changes[..k] + [cell];
        cells[cell] := staged[cell];
      }
      assert changes[..|changes|] == changes;
    }

    /** Evaluation and commit together: the grid advances by one full-grid
        generation, the changes are exactly the cells whose value differs,
        and the next inspection set, the changed cells and their
        neighbours, is again sound. */
    method Advance() returns (changes: seq<int>)
      requires Valid() && phase == Stepping
      modifies this`generation, this`inspections, cells
      ensures Valid()
      ensures generation == old(generation) + 1
      ensures cells[..] == FullGrid.Step(neighbours, old(cells[..]))
      ensures NoDup(changes) && Members(changes) == Changes(neighbours, old(cells[..]), Members(old(inspections)))
      ensures forall i :: i in changes <==> 0 <= i < cells.Length && cells[i] != old(cells[i])
      ensures Members(inspections) == Expand(neighbours, Members(changes))
    {
      ghost var g, insp := cells[..], inspections;
      var staged, newInspections;
      changes, staged, newInspections := Evaluate();
      InvariantNext(neighbours, g, insp, newInspections, historyToKeep, history, past);
      IncrementalIsFull(neighbours, g, Members(insp));
      CommitStaged(changes, staged, g);
      generation := generation + 1;
      inspections := newInspections;
      assert cells[..] == FullGrid.Step(neighbours, g);
      forall i | 0 <= i < |g|
        ensures i in changes <==> cells[i] != g[i]
      {
        ChangesAreDifferences(neighbours, g, Members(insp), i);
      }
    }

    /** One call of the generator's `next()`.  The first call hands out
        generation 0 with every cell as changed.  Each later call advances
        the whole grid by one generation while evaluating only the
        inspection set, and hands out the changed cells, unless the new
        grid is one the history still holds: then the run ends without
        handing it out.  A run that is over stays over. */
    method Step() returns (r: Outcome)
      requires Valid()
      modifies this, cells
      ensures Valid()
      ensures old(phase).Ended? ==>
        r == old(phase).how && phase == old(phase) && cells[..] == old(cells[..]) &&
        generation == old(generation) && inspections == old(inspections) && history == old(history)
      ensures old(phase) == Seeded ==>
        r == Continuing(0, Indices(cells.Length)) && phase == Stepping && cells[..] == old(cells[..]) &&
        generation == 0 && inspections == old(inspections) && history == []
      ensures old(phase) == Stepping ==>
        generation == old(generation) + 1 &&
        cells[..] == FullGrid.Step(neighbours, old(cells[..])) &&
        (r == Converged <==> cells[..] in old(past)) &&
        (r == Converged ==> phase == Ended(Converged) && history == old(history) && past == old(past)) &&
        (r != Converged ==>
          phase == Stepping && r.Continuing? && r.generation == generation &&
          NoDup(r.changes) &&
          Members(r.changes) == Changes(neighbours, old(cells[..]), Members(old(inspections))) &&
          (forall i :: i in r.changes <==> 0 <= i < cells.Length && cells[i] != old(cells[i])) &&
          Members(inspections) == Expand(neighbours, Members(r.changes)) &&
          history == Fingerprint.Remember(old(history), Fingerprint.Encode(cells[..]), historyToKeep) &&
          past == Fingerprint.Remember(old(past), cells[..], historyToKeep))
    {
      if phase.Ended? {
        return phase.how;
      }
      if phase == Seeded {
        phase := Stepping;
        return Continuing(0, inspections);
      }
      var changes := Advance();

      // Fingerprint the committed grid and look it up in the history.
      var newHistory := Fingerprint.Snapshot(cells);
      Fingerprint.SeenIsRepeat(history, past, cells[..]);
      if Fingerprint.Seen(history, newHistory) {
        phase := Ended(Converged);
        return Converged;
      }
      RecordedRemember(cells.Length, historyToKeep, history, past, cells[..]);
      past := Fingerprint.Remember(past, cells[..], historyToKeep);
      history := [newHistory] + history;
      if |history| > historyToKeep {
        history := history[..|history| - 1];
      }
      r := Continuing(generation, changes);
    }

    /** Ending the run from outside (the caller returns the generator,
        bin/game-of-life.mjs:36): a run not yet over ends as cancelled. */
    method Cancel()
      requires Valid()
      modifies this
      ensures Valid()
      ensures phase == if old(phase).Ended? then old(phase) else Ended(Cancelled)
      ensures generation == old(generation) && inspections == old(inspections) && history == old(history)
    {
      if !phase.Ended? {
        phase := Ended(Cancelled);
      }
    }
  }

  /** Every changed cell is a cell and has staged the value the rule gives
      it on the grid before the step. */
  ghost predicate Staged(w: seq<seq<int>>, g: seq<Bit>, changes: seq<int>, staged: map<int, Bit>)
    requires Wired(w, |g|)
  {
    forall i :: i in changes ==> 0 <= i < |g| && i in staged && staged[i] == Next(g[i], NeighbourhoodSum(w, g, i))
  }

  /** The cells of list s the rule would change. */
  ghost function Unstable(w: seq<seq<int>>, g: seq<Bit>, s: seq<int>): set<int>
    requires Wired(w, |g|)
  {
    set i | i in s && 0 <= i < |g| && !Stable(w, g, i)
  }

  lemma UnstableSnoc(w: seq<seq<int>>, g: seq<Bit>, s: seq<int>, k: int)
    requires Wired(w, |g|) && 0 <= k < |s|
    ensures s[k] in s
    ensures Unstable(w, g, s[..k + 1]) ==
      Unstable(w, g, s[..k]) + (if 0 <= s[k] < |g| && !Stable(w, g, s[k]) then {s[k]} else {})
  {
    assert s[..k + 1] == s[..k] + [s[k]];
  }

  lemma UnstableIsChanges(w: seq<seq<int>>, g: seq<Bit>, s: seq<int>)
    requires Wired(w, |g|)
    ensures Unstable(w, g, s[..|s|]) == Changes(w, g, Members(s))
  {
    assert s[..|s|] == s;
  }

  /** Adding one changed cell adds it and its neighbours to the frontier. */
  lemma ExpandAdd(w: seq<seq<int>>, changed: set<int>, c: int)
    requires Wired(w, |w|) && InGrid(w, changed) && 0 <= c < |w|
    ensures InGrid(w, changed + {c})
    ensures Expand(w, changed + {c}) == Expand(w, changed) + {c} + Members(w[c])
  {
  }

  /** The inspection list names distinct cells, and every cell outside it is
      stable. */
  ghost predicate Inspecting(w: seq<seq<int>>, g: seq<Bit>, insp: seq<int>)
  {
    Wired(w, |g|) && NoDup(insp) && InGrid(w, Members(insp)) && Sound(w, g, Members(insp))
  }

  /** The changed cells and their neighbours are a sound inspection list
      for the next grid. */
  lemma InspectingNext(w: seq<seq<int>>, g: seq<Bit>, insp: seq<int>, next: seq<int>)
    requires Inspecting(w, g, insp) && Symmetric(w)
    requires NoDup(next) && InGrid(w, Members(next))
    requires Members(next) == Expand(w, Changes(w, g, Members(insp)))
    ensures Inspecting(w, FullGrid.Step(w, g), next)
  {
    FrontierSound(w, g, Members(insp));
  }

  /** The history: at most `keep` fingerprints, each of a grid of n cells. */
  ghost predicate Recorded(n: nat, keep: nat, history: seq<seq<nat>>, past: seq<seq<Bit>>)
  {
    |history| == |past| <= keep &&
    forall k :: 0 <= k < |past| ==> |past[k]| == n && history[k] == Fingerprint.Encode(past[k])
  }

  /** What a step keeps true: the inspection list is sound and the history
      is in order. */
  ghost predicate Invariant(w: seq<seq<int>>, g: seq<Bit>, insp: seq<int>,
                            keep: nat, history: seq<seq<nat>>, past: seq<seq<Bit>>)
  {
    Inspecting(w, g, insp) && Recorded(|g|, keep, history, past)
  }

  /** One incremental step keeps the invariant. */
  lemma InvariantNext(w: seq<seq<int>>, g: seq<Bit>, insp: seq<int>, next: seq<int>,
                      keep: nat, history: seq<seq<nat>>, past: seq<seq<Bit>>)
    requires Invariant(w, g, insp, keep, history, past) && Symmetric(w)
    requires NoDup(next) && InGrid(w, Members(next))
    requires Members(next) == Expand(w, Changes(w, g, Members(insp)))
    ensures Invariant(w, FullGrid.Step(w, g), next, keep, history, past)
  {
    InspectingNext(w, g, insp, next);
  }

  /** Recording a grid of the same size keeps the history in order: the
      fingerprints and the grids they were taken of are updated alike. */
  lemma RecordedRemember(n: nat, keep: nat, history: seq<seq<nat>>, past: seq<seq<Bit>>, g: seq<Bit>)
    requires Recorded(n, keep, history, past) && |g| == n
    ensures Recorded(n, keep, Fingerprint.Remember(history, Fingerprint.Encode(g), keep), Fingerprint.Remember(past, g, keep))
  {
  }

  /** A non-empty list holds its first element. */
  lemma FirstIsMember(s: seq<int>)
    ensures s != [] ==> s[0] in s
  {
  }

  /** A still grid that the history does not hold is handed out again
      with nothing changed, and is recorded. */
  method StillStep(life: Life) returns (r: Outcome)
    requires life.Valid() && life.phase == Stepping
    requires FullGrid.Step(life.neighbours, life.cells[..]) == life.cells[..]
    requires life.cells[..] !in life.past
    modifies life, life.cells
    ensures life.Valid() && life.phase == Stepping && life.cells[..] == old(life.cells[..])
    ensures r == Continuing(old(life.generation) + 1, [])
    ensures life.historyToKeep > 0 ==> life.cells[..] in life.past
  {
    r := life.Step();
    assert r.Continuing? && r.generation == old(life.generation) + 1;
    assert forall i :: 0 <= i < life.cells.Length ==> life.cells[i] == life.cells[..][i] == old(life.cells[..])[i];
    assert forall i :: i !in r.changes;
    FirstIsMember(r.changes);
  }

  /** A still grid that the history holds ends the run. */
  method StillRepeat(life: Life) returns (r: Outcome)
    requires life.Valid() && life.phase == Stepping
    requires FullGrid.Step(life.neighbours, life.cells[..]) == life.cells[..]
    requires life.cells[..] in life.past
    modifies life, life.cells
    ensures life.Valid() && life.phase == Ended(Converged)
    ensures r == Converged
  {
    r := life.Step();
  }

  /** An all-dead seed yields generations 0 and 1, then the run converges:
      the grid after step 2 is the one step 1 recorded. */
  method AllDeadRun(cols: int, rows: int, historyToKeep: nat) returns (first: Outcome, second: Outcome, third: Outcome)
    requires cols > 0 && rows > 0 && historyToKeep > 0
    ensures first == Continuing(0, Indices(cols * rows))
    ensures second == Continuing(1, [])
    ensures third == Converged
  {
    var life := new Life(cols, rows, (i: nat) => 0, historyToKeep);
    ghost var g := life.cells[..];
    assert forall i :: 0 <= i < |g| ==> g[i] == 0;
    AllDeadStill(life.neighbours, g);
    first := life.Step();
    second := StillStep(life);
    third := StillRepeat(life);
  }
}
