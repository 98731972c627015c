/** The transition rule shared by both steppers (src/life.mjs, lib/life.mjs). */
module Rule {

  /** A cell value: 0 is dead, 1 is alive. */
  type Bit = b: int | b == 0 || b == 1

  /** Conway's rule as the doc comment states it, on the number of live
      neighbours: a live cell with fewer than 2 or more than 3 dies, with 2
      or 3 lives on; a dead cell with exactly 3 becomes live. */
  function Classic(value: Bit, live: int): Bit
  {
    if value == 1 then (if live == 2 || live == 3 then 1 else 0)
    else (if live == 3 then 1 else 0)
  }

  /** The rule as the source computes it, on the sum of the nine-cell
      neighbourhood INCLUDING the cell itself: 3 gives alive, 4 keeps the
      current value, anything else gives dead. */
  function Next(value: Bit, sum: int): (r: Bit)
    ensures r == Classic(value, sum - value)
  {
    if sum == 3 then 1 else if sum == 4 then value else 0
  }

  /** The same rule phrased on the live-neighbour count alone: 3 gives
      alive, 2 keeps the current value, anything else gives dead. */
  lemma NextOnNeighbourCount(value: Bit, live: int)
    ensures Next(value, value + live) == (if live == 3 then 1 else if live == 2 then value else 0)
  {
  }
}
