/**
 * A single forest cell (`ForestCell`): its mutable burn state, the static
 * terrain attributes loaded before the first step, and the two halves of
 * the simultaneous update.
 */
module ForestCell {
  import opened Wrappers
  import opened Factors

  datatype Cell = Cell(
    state: real,               // 0 = unburned, 1 = fully burned
    nextState: Option<real>,   // written by step, read by advance
    rateOfSpread: real,        // metres per second, static
    height: real,              // metres, static
    heightFactors: Matrix3,    // slope multiplier per neighbour direction
    windComponent: real,       // recomputed by the rule every step
    rainDeficit: real,         // moisture carry-over, rewritten by the rule
    rain: real,                // rainfall of the current day
    isBurned: real)            // ground truth, read only by the scoring

  /** A freshly constructed cell, before any data is loaded. */
  function NewCell(): (c: Cell)
    ensures c.state == 0.0 && c.nextState == None
    ensures c.rateOfSpread == 1.0 && c.height == 0.0
    ensures forall o :: IsOffset(o) ==> HeightFactor(c, o) == 1.0
    ensures c.windComponent == 1.0
    ensures c.rain == 0.0 && c.rainDeficit == 0.0 && c.isBurned == 0.0
  {
    Cell(0.0, None, 1.0, 0.0, Uniform(1.0), 1.0, 0.0, 0.0, 0.0)
  }

  /** `get_height_factor(a, b)`. */
  function HeightFactor(c: Cell, o: Offset): real
    requires IsOffset(o)
  {
    Get(c.heightFactors, o)
  }

  /**
   * The compute half of the update: record the next state the rule chose.
   * `c` is the cell as the rule left it (a rule may also refresh the wind
   * component and the rain deficit).
   */
  function Step(c: Cell, next: real): (c': Cell)
    ensures c'.nextState == Some(next)
    ensures c'.state == c.state
    ensures c'.(nextState := c.nextState) == c
  {
    c.(nextState := Some(next))
  }

  /** The commit half of the update: publish the next state. */
  function Advance(c: Cell): (c': Cell)
    requires c.nextState.Some?
    ensures c'.state == c.nextState.value
    ensures c'.(state := c.state) == c
  {
    c.(state := c.nextState.value)
  }

  /** A cell both rules with a cut-off leave alone: fully burnt, or with no rate of spread. */
  predicate Terminal(c: Cell) {
    c.state == 1.0 || c.rateOfSpread == 0.0
  }

  /** Advancing right after stepping publishes exactly the value that was stepped in. */
  lemma StepThenAdvance(c: Cell, next: real)
    ensures Advance(Step(c, next)).state == next
    ensures Advance(Step(c, next)).(state := c.state, nextState := c.nextState) == c
  {
  }
}
