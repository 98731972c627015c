# Game of Life engine — a verified Dafny model

This project models the Conway's Game of Life engine of the `game-of-life`
repository, which has two variants.

- **The incremental engine** (`src/life.mjs`):
  - It keeps an arena of cells on a torus. Each cell has a value and eight neighbour indices, wired once when the cells are built.
  - A step evaluates only an *inspection set*. Each cell the rule would change stages its new value, and the staged values are committed after the whole set has been evaluated.
  - The next inspection set is the changed cells plus their neighbours.
  - After every commit the whole grid is fingerprinted in 64-cell chunks. The run ends when a fingerprint recurs among the last `historyToKeep` ones.
- **The stateless variant** (`lib/life.mjs`):
  - `init` draws a grid.
  - `calculate` maps every cell through the rule, reporting each new value to a callback.
  - Its `pointToIndex` exchanges the roles of the two axes.

Both variants share the transition rule. A cell's own value plus its eight neighbours' values is 3 → alive, 4 → unchanged, anything else → dead. This is Conway's B3/S23.

## Modules

| file | module | what it holds |
|---|---|---|
| rule.dfy | `Rule` | cell values (`Bit`) and the rule `Next`, related to Conway's rule |
| torus.dfy | `Torus` | JavaScript's truncating `%`, the src `pointToIndex` / `indexToPoint`, the eight-neighbour wiring |
| grid.dfy | `FullGrid` | the full-grid stepper `Step` over any wiring, `Iterate`, fixed points and period-2 cycles |
| frontier.dfy | `Frontier` | one incremental step as functions (`Changes`, `Expand`, `Commit`), frontier soundness, and incremental = full-grid for any number of steps |
| fingerprint.dfy | `Fingerprint` | the 64-cell chunk fingerprint, the chunking loop `Snapshot`, the history lookup and update |
| engine.dfy | `Engine` | class `Life`: the generator as an object stepped by `Step()`, with an array of cells, an inspection list and a history |
| liblife.dfy | `LibLife` | the lib indexer as written and corrected, `init`, `calculate` with its callback calls |
| patterns.dfy | `Patterns` | the toad, tall toad and blinker oscillators; the lib indexer as written gets the 8×6 and 6×8 toads wrong |

### Design choices

- **The generator is a class.** The async generator of `src/life.mjs:37-122` becomes class `Engine.Life`. Each call of `Step()` is one `next()`. It returns:
  - `Continuing(generation, changes)` for what is yielded;
  - `Converged` for the `break`;
  - `Cancelled` after `Cancel()`, which models `gen.return()`.
- **Sets are lists.** JavaScript `Set`s become duplicate-free lists in insertion order (`Engine.Add`). Cells are named by index, so `changes` is the list of changed cell indices.
- **The frontier step is specified by functions.** `Frontier` defines one incremental step as functions of the grid and the inspection set. The methods of `Life` are proved against these functions, and the functions are proved equal to the full-grid stepper `FullGrid.Step`.
- **Wirings are generic.** `FullGrid` and `Frontier` work over any wiring in which every cell has eight neighbours and neighbourhood is mutual (`Wired`, `Symmetric`). `Torus.Wiring` builds the toroidal wiring the engine uses.
- **The lib callback is a returned list.** `LibLife.Calculate` returns the new grid together with the list of `(x, y, value)` calls made to the callback.
- **Randomness is a parameter.** `Math.random` seeding is replaced by a seed function: `cb` in the constructor, `draw` in `LibLife.Init`.
- **The callback fires for every cell.** The code calls `cb` for every cell, changed or not (`lib/life.mjs:54`), and the model follows the code (`LibLife.CallbackPerCell`).
- **The patterns are proved against lib's `calculate`.** The pattern tests in `src/life.test.mjs` call `init` and `calculate`, which `src/life.mjs` does not export; only `lib/life.mjs` defines them. As written, those calls could not succeed: `calculate` is called without a callback (`src/life.test.mjs:254`), and lib's `calculate` calls `cb` unconditionally (`lib/life.mjs:54`), a TypeError on the first cell; lib's `init` takes no seed argument (`lib/life.mjs:35`), so the seed passed at `src/life.test.mjs:252` would be ignored. What the model proves is what `calculate` computes on each pattern's expected phases, with its indexer as written and corrected, and that the full-grid step on the src engine's wiring swaps the phases.

## Model

| member | source | states |
|---|---|---|
| Rule.Next | src/life.mjs:75-78 | the nine-cell-sum rule (3 → alive, 4 → keep, else dead) is Conway's rule on the live-neighbour count (sum minus own value) |
| Rule.NextOnNeighbourCount | lib/life.mjs:51-53 | on the neighbour count alone: 3 neighbours give alive, 2 keep the value, anything else gives dead |
| Torus.JsRem | src/life.mjs:25-26 | JavaScript's `%`: the remainder lies strictly between -n and n, a nonzero remainder has the dividend's sign, and for a nonnegative dividend it is the Euclidean remainder |
| Torus.JsRemIsTruncated | src/life.mjs:25-26 | JavaScript `%` keeps the dividend's sign: it equals Euclidean `%` for a nonnegative dividend, lies in (-n, 0] for a negative one, and differs from the Euclidean remainder by exactly n when negative |
| Torus.Wrap | src/life.mjs:25-28 | one axis of the sign fix-up lands in [0, n) |
| Torus.WrapIsMod | src/life.mjs:25-28 | the fix-up of the truncated remainder is the Euclidean remainder |
| Torus.CellsIsProduct | src/life.mjs:40 | the arena has cols * rows cells |
| Torus.PointToIndex | src/life.mjs:24-30 | any integer coordinate, negative or beyond the grid, maps into [0, cols * rows) |
| Torus.PointToIndexIsMod | src/life.mjs:24-30 | the index is (dx mod cols) + (dy mod rows) * cols with Euclidean mod |
| Torus.IndexToPoint | src/life.mjs:32 | `indexToPoint` (also lib/life.mjs:33): a nonnegative index gives a column in [0, cols) and a nonnegative row with index = x + y * cols; a negative index gives a column at most 0 and a negative row |
| Torus.IndexToPointSplits | src/life.mjs:32 | a nonnegative index splits into a column in [0, cols) and a row with index = x + y * cols; the row of a grid index is in [0, rows) |
| Torus.IndexToPointInverse | src/life.mjs:24-32 | indexToPoint(pointToIndex(x, y)) == (x, y) for every in-grid point |
| Torus.PointToIndexInverse | src/life.mjs:24-32 | pointToIndex(indexToPoint(i)) == i for every grid index |
| Torus.WrapPeriodic | src/life.mjs:25-28 | shifting dx by a multiple of cols, or dy by a multiple of rows, gives the same cell |
| Torus.WrapEdges | src/life.mjs:25-28 | -1 is the last column (row) and every exact multiple of cols (rows) is column (row) 0 |
| Torus.IndexerTable | src/life.test.mjs:24-145 | the checked cases on 38×11, 5×8, 10×3 and 5×5, such as (35, 3) → 149, (-1, -1) → 39 on 5×8, index 19 → (9, 1) on 10×3, and (-6, 0) → 4 and (0, -7) → 15 on 5×5 |
| Torus.Neighbours | src/life.mjs:49-57 | each cell's neighbour list has exactly eight entries, all cells of the grid |
| Torus.NeighbourAt | src/life.mjs:49-57 | neighbour k sits at the cell's coordinates plus offset k, wrapped on both axes |
| Torus.NeighbourBackAt | src/life.mjs:49-57 | neighbour 7 - k of neighbour k of a cell is that cell |
| Torus.NeighboursSymmetric | src/life.mjs:49-60 | j is a neighbour of i exactly when i is a neighbour of j |
| Torus.Wiring | src/life.mjs:40-60 | the wiring built at initialisation has one entry per cell, entry i being cell i's neighbour list |
| Torus.WiringIsSymmetric | src/life.mjs:40-60 | the toroidal wiring gives every cell eight in-grid neighbours, and neighbourhood is mutual |
| FullGrid.SumOver | src/life.mjs:75 | a sum of listed 0/1 values is between 0 and the list's length |
| FullGrid.SumOverAgree | src/life.mjs:75 | the sum depends only on the values at the listed cells |
| FullGrid.SumOverDead | src/life.mjs:75 | over dead cells only, the sum is 0 |
| FullGrid.SumOverAppend | src/life.mjs:75 | summing two lists one after the other adds the two sums |
| FullGrid.LiveAround | src/life.mjs:75 | a cell has between 0 and 8 live neighbours |
| FullGrid.NeighbourhoodSum | src/life.mjs:75 | the nine-cell sum is between 0 and 9 |
| FullGrid.Step | lib/life.mjs:37-38 | a generation has as many cells as the grid it came from |
| FullGrid.StepAt | lib/life.mjs:38-55 | cell i of the next generation is the rule on cell i's old value and old nine-cell sum |
| FullGrid.StepIsClassic | src/life.mjs:3-7 | cell i of the next generation follows Conway's rule on its live-neighbour count |
| FullGrid.StepByCells | lib/life.mjs:38-55 | any grid whose every cell is the rule on the old neighbourhood is the step |
| FullGrid.Iterate | src/life.mjs:69-92 | n generations of the full-grid step, one per pass of the generator's loop; every generation has as many cells as the seed |
| FullGrid.IterateLast | src/life.mjs:69-92 | generation n + 1 is one step of generation n |
| FullGrid.FixedPointForever | src/life.mjs:69-92 | a grid the step maps to itself stays put for every number of generations |
| FullGrid.PeriodTwo | src/life.test.mjs:252-256 | two grids the step maps to each other alternate forever: generation n is the first when n is even, the second when odd |
| FullGrid.AllDeadStill | src/life.mjs:74-85 | an all-dead grid is a fixed point |
| Frontier.AllCells | src/life.mjs:42-63 | the first inspection set holds exactly the cells 0 .. n - 1 |
| Frontier.Changes | src/life.mjs:74-81 | the cells the pass adds to `changes`: only inspected grid cells, each one the rule flips, and no inspected cell the rule flips is left out |
| Frontier.Expand | src/life.mjs:82-83 | the next inspection set holds only grid cells |
| Frontier.ExpandMembers | src/life.mjs:82-83 | a cell is in the next inspection set exactly when it changed or is a neighbour of a changed cell |
| Frontier.Commit | src/life.mjs:89-92 | the commit keeps the grid's size |
| Frontier.ChangesAreDifferences | src/life.mjs:79-81 | on a sound frontier, a cell is among the step's changes exactly when the full-grid step changes it |
| Frontier.IncrementalIsFull | src/life.mjs:74-92 | evaluating only a sound inspection set and committing the staged values yields the full-grid step |
| Frontier.FrontierSound | src/life.mjs:82-87 | the claim at src/life.mjs:8: after the step, every cell outside the changed cells and their neighbours is stable, so the new frontier is sound (needs mutual neighbourhood) |
| Frontier.Run | src/life.mjs:69-92 | n passes of the generator's loop (evaluate the inspection set, commit, inspect the changes and their neighbours next) keep the grid's size |
| Frontier.RunFirst | src/life.mjs:87-92 | n + 1 incremental steps are the first commit followed by n steps from the new frontier |
| Frontier.RunIsIterate | src/life.mjs:69-92 | from a sound frontier (initially every cell), n incremental steps give exactly n full-grid generations |
| Frontier.AllCellsSound | src/life.mjs:42-63 | inspecting every cell is a sound frontier |
| Frontier.EmptyFrontierStill | src/life.mjs:74-87 | an empty sound frontier means the grid is a still life |
| Fingerprint.ChunkValue | src/life.mjs:103-107 | the BigInt read from a chunk's `0b` digits: its last cell is the lowest bit, and it is 0 exactly when every cell of the chunk is dead |
| Fingerprint.ChunkValueBound | src/life.mjs:103-107 | a chunk of k cells reads as a number below 2^k |
| Fingerprint.ChunkValueInjective | src/life.mjs:103-107 | two chunks of equal length with the same number are the same cells |
| Fingerprint.LeadingZerosLost | src/life.mjs:103-107 | chunks of different lengths can collide, as with [0, 1] and [1] |
| Fingerprint.Encode | src/life.mjs:99-110 | the fingerprint `newHistory`: empty exactly for an empty grid, its first number being the value of the first 64 cells (all of them when fewer) |
| Fingerprint.EncodeLength | src/life.mjs:101-110 | the fingerprint has one number per started chunk of 64 cells |
| Fingerprint.EncodeInjective | src/life.mjs:101-110 | the fingerprint is lossless: two grids of one size with equal fingerprints are equal |
| Fingerprint.EncodeFrom | src/life.mjs:101-110 | the cells from i on encode as the chunk at i followed by the encoding of the rest |
| Fingerprint.Snapshot | src/life.mjs:99-110 | the chunking loop over the cell array computes exactly the fingerprint of its contents |
| Fingerprint.Matches | src/life.mjs:112 | the `every` test of one kept fingerprint h against the new one fp holds exactly when h is a prefix of fp (a place past the end of fp never matches) |
| Fingerprint.MatchesIsEquality | src/life.mjs:112 | for lists of equal length, the `every` comparison is list equality |
| Fingerprint.Seen | src/life.mjs:112 | the `some` lookup: a fingerprint that the history holds is always seen, and an empty history sees nothing |
| Fingerprint.MatchesSameSize | src/life.mjs:112 | the fingerprint of a grid matches the fingerprint of a grid of the same size exactly when the two grids are equal |
| Fingerprint.SeenIsRepeat | src/life.mjs:112-114 | for a history of fingerprints of equal-size grids, the `some` lookup fires exactly when the new grid is one of the kept grids |
| Fingerprint.Remember | src/life.mjs:116-117 | the `unshift` then `pop` past the limit keeps at most historyToKeep entries: the new entry first, then the previous ones in order, minus the oldest once full (used alike for the fingerprints and for the grids they were taken of) |
| Engine.Add | src/life.mjs:81-83 | `set.add` adds exactly x, keeps the list duplicate-free, and leaves it unchanged when x is present |
| Engine.Indices | src/life.mjs:40-44 | the cells are created in index order 0 .. n - 1, without repeats |
| Engine.IndicesMembers | src/life.mjs:40-44 | the initial list holds exactly the cells 0 .. n - 1 |
| Engine.Life.Valid | src/life.mjs:37-117 | the engine's invariant: the wiring has one entry per cell, the inspection list is duplicate-free and names cells of the grid, and the history keeps as many grids as fingerprints and at most historyToKeep of them |
| Engine.Life.constructor | src/life.mjs:37-63 | cols * rows cells are built: cell i has value cb(i) and the eight toroidal neighbours; every cell is inspected, the generation is 0 and the history is empty |
| Engine.Life.NeighbourhoodSumOf | src/life.mjs:75 | the reduce computes the cell's value plus its eight neighbours' values, between 0 and 9 |
| Engine.Life.Visit | src/life.mjs:75-84 | evaluating one cell adds it to the changes exactly when the rule changes it, stages its new value from the old grid, and keeps the next inspection set equal to the changes plus their neighbours |
| Engine.Life.AddNeighbours | src/life.mjs:83 | adding a cell's neighbours adds exactly those to the set, duplicate-free and in range |
| Engine.Life.Evaluate | src/life.mjs:74-85 | the evaluation pass leaves the grid untouched; it returns the inspected cells the rule changes, their staged values computed from the pre-step grid, and as next inspection set the changes plus their neighbours |
| Engine.Life.CommitStaged | src/life.mjs:89-92 | after the commit the changed cells hold their staged values and every other cell is unchanged |
| Engine.Life.Advance | src/life.mjs:69-92 | one step advances the generation by 1 and turns the grid into its full-grid step; `changes` is exactly the cells whose value differs, and the new frontier (changes plus neighbours) keeps the invariant |
| Engine.Life.Step | src/life.mjs:65-119 | first call: generation 0 with every cell as changes, nothing recorded. Later calls advance one full-grid generation. If the new grid is one the history holds, the run ends as Converged and nothing is yielded. Otherwise the call yields the generation and exactly the changed cells, and updates the history of fingerprints, and the grids they were taken of, by `Remember`. An ended run stays ended |
| Engine.Life.Cancel | bin/game-of-life.mjs:36 | `gen.return()` ends a running engine as Cancelled; an ended one stays as it was |
| Engine.UnstableIsChanges | src/life.mjs:74-85 | the cells the pass collects from the inspection list are the changes of the step |
| Engine.ExpandAdd | src/life.mjs:82-83 | one more changed cell adds it and its neighbours to the next frontier |
| Engine.InspectingNext | src/life.mjs:82-87 | the changed cells and their neighbours form a sound inspection list for the next grid |
| Engine.InvariantNext | src/life.mjs:69-117 | one incremental step keeps the engine's invariant: a sound inspection list and a well-formed history |
| Engine.RecordedRemember | src/life.mjs:116-117 | recording a same-size grid updates the fingerprints and the grids they were taken of alike, and keeps the history well-formed |
| Engine.StillStep | src/life.mjs:99-119 | a still grid not in the history yields the next generation with no changes and is then recorded |
| Engine.StillRepeat | src/life.mjs:112-114 | a still grid that the history holds ends the run as Converged |
| Engine.AllDeadRun | src/life.mjs:65-119 | an all-dead seed yields generation 0 with every cell, then generation 1 with no changes, then converges |
| LibLife.PointToIndex | lib/life.mjs:25-31 | the swapped indexer still lands in [0, cols * rows) |
| LibLife.PointToIndexIsSwapped | lib/life.mjs:25-31 | it is the src indexer with the axes exchanged: (dx mod rows) + (dy mod cols) * rows |
| LibLife.SquareAgrees | lib/life.mjs:25-31 | on a square grid it agrees with the src indexer |
| LibLife.FiveByFiveAlongX | lib/life.test.mjs:47-71 | the checked 5×5 cases wrapping along x, such as (7, 0) → 2, (-1, 0) → 4 and (-10, 0) → 0 |
| LibLife.FiveByFiveAlongY | lib/life.test.mjs:72-95 | the checked 5×5 cases wrapping along y, such as (0, 6) → 5, (0, -1) → 20 and (0, -7) → 15 |
| LibLife.AxesSwapped | lib/life.mjs:26-30 | on 8×6 the lib indexer sends (7, 0) to cell 1, the src one to cell 7 |
| LibLife.IndexToPointFiveByFive | lib/life.test.mjs:11-41 | on 5×5, index i is at (i mod 5, i div 5), both in range |
| LibLife.Init | lib/life.mjs:35 | init makes cols * rows values |
| LibLife.InitCells | lib/life.mjs:35 | cell i of the initial grid is the i-th draw |
| LibLife.Locate | lib/life.mjs:41-49 | both indexers, as written and corrected, land in the grid |
| LibLife.Calculate | lib/life.mjs:37-56 | calculate returns a grid of the same size and one callback call per cell |
| LibLife.Sum9 | lib/life.mjs:40-50 | the nine values added up for a cell: the cell's own value plus between 0 and 8 |
| LibLife.CalculateAt | lib/life.mjs:38-55 | cell i of the new grid is the rule on cell i's old value and its nine-cell sum in the old grid |
| LibLife.CallbackPerCell | lib/life.mjs:38-54 | call i, in ascending order, names cell i's in-grid coordinates and its new value, for every cell, changed or not |
| LibLife.CorrectedSum | lib/life.mjs:40-50 | with the corrected indexer, the nine summed values are the cell plus its eight wired neighbours |
| LibLife.CorrectedIsStep | lib/life.mjs:37-56 | with the corrected indexer, calculate is the full-grid step of the incremental engine's wiring, on every grid size |
| LibLife.SquareSum | lib/life.mjs:40-50 | on a square grid both indexers add up the same nine values |
| LibLife.SquareIsStep | lib/life.mjs:37-56 | on a square grid calculate as written is the full-grid step |
| Patterns.WiredAround | src/life.mjs:49-57 | the neighbours of column x, row y are the eight wrapped (x ± 1 / 0, y ± 1 / 0) indices |
| Patterns.WiringIsToroidal | src/life.mjs:44-60 | the engine's wiring lists those indices for every cell |
| Patterns.ToadPhases | src/life.test.mjs:172-194 | the two phases of the 8×6 toad step to each other |
| Patterns.ToadOscillates | src/life.test.mjs:246-260 | every generation of the 8×6 toad is its first phase when even, its second when odd |
| Patterns.TallToadPhases | src/life.test.mjs:195-221 | the two phases of the 6×8 toad step to each other |
| Patterns.TallToadOscillates | src/life.test.mjs:246-260 | every generation of the 6×8 toad is its first phase when even, its second when odd |
| Patterns.BlinkerPhases | src/life.test.mjs:222-242 | the vertical and horizontal blinker on 5×5 step to each other |
| Patterns.BlinkerOscillates | src/life.test.mjs:246-260 | every generation of the blinker is the vertical bar when even, the horizontal bar when odd |
| Patterns.CorrectedSwapsPhases | lib/life.mjs:37-56 | two phases the full-grid step swaps are swapped by calculate with the corrected indexer |
| Patterns.CorrectedGivesExpectedPhases | src/life.test.mjs:246-260 | with the corrected indexer, calculate turns each oscillator's phase into the other, for all three patterns, which is what the test loop expects of every call |
| Patterns.BlinkerPhasesAsWritten | src/life.test.mjs:222-242 | on the square blinker, calculate as written turns each phase into the other |
| Patterns.ToadSumAsWritten | lib/life.mjs:25-50 | on the 8×6 toad's first phase, cell 19 (column 3, row 2) sums to 1 with the indexer as written |
| Patterns.ToadFailsAsWritten | lib/life.mjs:25-31 | with the lib indexer as written, the first calculation of the 8×6 toad leaves cell 19 dead where the second phase has it alive |
| Patterns.TallToadSumAsWritten | lib/life.mjs:25-50 | on the 6×8 toad's first phase, cell 20 (column 2, row 3) sums to 2 with the indexer as written |
| Patterns.TallToadFailsAsWritten | lib/life.mjs:25-31 | with the lib indexer as written, the first calculation of the 6×8 toad leaves cell 20 dead where the second phase has it alive |

## Left out

- Terminal and browser front ends (`bin/game-of-life.mjs`, `src/index.js`) are not part of this model: prompting, rendering, key handling and the Lehmer generator are I/O or floating point.
- Async pacing (`requestAnimationFrame` / `setImmediate` and the `await` between yields) is left out. Stepping is driven by calls of `Step()`.
- `Math.random` seeding is left out. The seed is a parameter: `cb` of the constructor and `draw` of `LibLife.Init`. A seed function that returns something other than 0 or 1 is not modelled: values are `Bit`.
- The BigInt parsing of `"0b" + bits` is modelled as the binary value of the chunk (`Fingerprint.ChunkValue`), not as string construction and parsing.
- The sparse-array holes of `history` are modelled as the list of real entries, newest first. `Array.prototype.some` skips holes, so the lookup sees exactly those entries.
- Engine.Life.constructor: requires `cols > 0 && rows > 0`. In the source, `Array.from({ length: cols * rows })` (src/life.mjs:40) turns a negative length into 0 without throwing, so a zero size or a single negative size builds an empty arena. Two negative sizes give a positive length, but the wrapped neighbour indices can then be negative (cols = -2, rows = -3 wires cell 0 to index -3), and the first step's neighbourhood sum (src/life.mjs:75) throws a TypeError on the missing cell. None of these cases is modelled.
- Engine.Life.constructor: `historyToKeep` is a `nat` with the source's default of 6. A negative or fractional value, for which `new Array(historyToKeep)` (src/life.mjs:38) throws a RangeError, is not modelled.
- Engine.Life.Step: the yielded `changes` are cell indices, not cell objects carrying `x`, `y` and `value`. Those fields follow from `Torus.IndexToPoint` and the cell array.
- Engine.Life.Valid: the equivalence of many incremental steps with `FullGrid.Iterate` is not part of the class invariant. It is proved on the functional model by `Frontier.RunIsIterate`, while each `Step()` is proved equal to one full-grid step.
- Patterns.CorrectedGivesExpectedPhases: the tests loop calculate ten times. The model states that each single call swaps the two phases. Together with `FullGrid.PeriodTwo` and the `*Oscillates` lemmas, this covers any number of calls.
- LibLife.Calculate: requires `cols > 0 && rows > 0`, and so do `LibLife.PointToIndex` and `Torus.PointToIndex`. In the source, `calculate` on a grid with a zero size maps the empty list to `[]` (lib/life.mjs:38) without calling the callback, and both `pointToIndex`s return NaN for a zero size, since `% 0` is NaN. Zero and negative sizes are not modelled.
- LibLife.Calculate: the callback is modelled by the returned list of calls, so calling `calculate` without a callback, as `src/life.test.mjs:254` and the usage note at `lib/life.mjs:16` do, which throws a TypeError at `lib/life.mjs:54`, is not modelled.
- LibLife.Init: the `draw` parameter has no counterpart in lib's `init`, which takes only the two sizes and draws every cell from `Math.random`; any further argument is ignored.
- Reentrancy of the generator, a `next()` call while another is pending, is not modelled. The class is single-threaded.

## Findings

| source | as written | input that shows it | evidently intended | confidence | as-written member | corrected member |
|---|---|---|---|---|---|---|
| lib/life.mjs:25-31 | `pointToIndex` wraps dx by `rows`, dy by `cols`, and multiplies the row by `rows`: the axes are exchanged | 8 columns × 6 rows: (7, 0) maps to cell 1 instead of 7. The first `calculate` of the 8×6 toad leaves cell 19 dead where the expected second phase has it alive | wrap dx by `cols` and dy by `rows` with row length `cols`, as `src/life.mjs:24-30` does; calculate then produces the expected phases on the 8×6 and 6×8 toads too | high (proved on the model; not executed) | Patterns.ToadFailsAsWritten, Patterns.TallToadFailsAsWritten | Patterns.CorrectedGivesExpectedPhases |
