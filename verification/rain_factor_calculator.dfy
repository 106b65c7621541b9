/**
 * `RainFactorCalculator`: rain suppresses burning cells and leaves a
 * temporary moisture deficit on cells that are not yet burning; without
 * rain the deficit halves every step.
 */
module RainFactorCalculator {

  import opened Numerics

  /** `rain_suppression`: the multiplier applied to a burning cell's state. */
  function RainSuppression(rain: real): (r: real)
    ensures 0.2 <= r <= 1.0
    ensures rain <= 2.0 ==> r == 1.0
    ensures 2.0 < rain ==> r < 1.0
  {
    1.0 - Max(Min(0.8, 0.0242424242424 * rain - 0.0484848484848), 0.0)
  }

  /** `rain_sc_reduction`: the deficit left by rain on a cell that is not burning. */
  function RainScReduction(rain: real): (r: real)
    ensures 0.0 <= r <= 0.8
    ensures 0.0 <= rain <= 0.8 / 0.12 ==> r == 0.12 * rain
  {
    Max(Min(0.8, 0.12 * rain), 0.0)
  }

  /** The state handed back and the cell's new rain deficit. */
  datatype RainOutcome = RainOutcome(state: real, deficit: real)

  /** One dry step: the deficit halves and snaps to 0 once below 0.01. */
  function Dry(deficit: real): (d: real)
    ensures d == 0.0 || d == deficit * 0.5
    ensures d == 0.0 <==> deficit * 0.5 < 0.01 || deficit == 0.0
  {
    var half := deficit * 0.5;
    if half < 0.01 then 0.0 else half
  }

  /** `compute_rain_factor(cell, state)`. */
  function ComputeRainFactor(rain: real, deficit: real, state: real): (r: RainOutcome)
    ensures rain > 0.0 && state > 0.0 ==> r == RainOutcome(state * RainSuppression(rain), deficit)
    ensures rain > 0.0 && state <= 0.0 ==> r == RainOutcome(state, RainScReduction(rain))
    ensures rain <= 0.0 ==> r == RainOutcome(state, Dry(deficit))
  {
    if rain > 0.0 then
      if state > 0.0 then RainOutcome(state * RainSuppression(rain), deficit)
      else RainOutcome(state, RainScReduction(rain))
    else
      RainOutcome(state, Dry(deficit))
  }

  /** A deficit in [0, 0.8] stays in [0, 0.8] whatever the rain and the state. */
  lemma DeficitStaysInRange(rain: real, deficit: real, state: real)
    requires 0.0 <= deficit <= 0.8
    ensures 0.0 <= ComputeRainFactor(rain, deficit, state).deficit <= 0.8
  {
  }

  /** Rain never raises a non-negative state, and lowers it by at most 80%. */
  lemma RainNeverRaisesState(rain: real, deficit: real, state: real)
    requires state >= 0.0
    ensures 0.2 * state <= ComputeRainFactor(rain, deficit, state).state <= state
  {
    if rain > 0.0 && state > 0.0 {
      var s := RainSuppression(rain);
      assert state * s <= state * 1.0;
      assert state * 0.2 <= state * s;
    }
  }

  /** The deficit after k dry steps. */
  function DryFor(deficit: real, k: nat): real {
    if k == 0 then deficit else Dry(DryFor(deficit, k - 1))
  }

  /** Halving from at most 0.8 reaches 0.00625 < 0.01 at the seventh step, so any deficit is gone after seven dry steps. */
  lemma {:induction false} DriesOutInSevenSteps(deficit: real)
    requires 0.0 <= deficit <= 0.8
    ensures DryFor(deficit, 7) == 0.0
  {
    DryForBound(deficit, 6);
  }

  /** After k dry steps the deficit is at most 0.8 / 2^k (or already 0). */
  lemma {:induction false} DryForBound(deficit: real, k: nat)
    requires 0.0 <= deficit <= 0.8
    ensures 0.0 <= DryFor(deficit, k) <= 0.8 / Pow2(k)
  {
    if k > 0 {
      DryForBound(deficit, k - 1);
    }
  }

  function Pow2(k: nat): (p: real)
    ensures p >= 1.0
  {
    if k == 0 then 1.0 else 2.0 * Pow2(k - 1)
  }
}
