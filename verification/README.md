# Forest-fire simulator: a Dafny model of its cellular-automaton core

This project models the core of a forest-fire simulator, a cellular automaton
built on the mesa agent framework. The forest is a grid of cells. Each cell has
a burning state in [0, 1], a rate of spread, a height, a 3x3 matrix of slope
("height") factors, a wind component, the day's rain and a rain deficit.

Each step of the model does the following:
- every fifth step, it loads the rain of the current day;
- every cell computes its next state from its neighbours under a propagation
  rule (`step`), and then every cell publishes that state (`advance`);
- it scores the grid against the burned map of the real wildfire, giving F1,
  precision and recall.

Each operation is modelled as the Python code is written. Where that code is
defective, the model gives both the behaviour as written and the evidently
intended one, and the model's main step (`ForestFire.Step`) is built from the
corrected operations (see "## Findings").

Modules, one per source file or concept:
- **Numbers and results.**
  - `Wrappers`: `Result` and `Option`, and the Python exceptions the code can raise (`ZeroDivisionError`, `TypeError`, `ValueError`).
  - `Numerics`: min, max and absolute value over `real`.
  - `Transcendental`: `exp`, `atan`, `cos` and pi as uninterpreted parameters. Only their signs are assumed.
- **Cells and factors.**
  - `Factors`: the neighbour offsets and the 3x3 factor matrices indexed `[1-b][a+1]`.
  - `ForestCell`: a cell, its defaults, and its two-phase `step`/`advance` update.
  - `SlopeFunctions`, `RainFactorCalculator`, `WindFactorCalculator`: the factor functions.
- **The grid.** `Grid` holds:
  - the forest grid, stored top row first and addressed from the bottom-left;
  - neighbour sums that skip off-grid neighbours;
  - the height-factor refresh, `draw_circle`, rain loading and `get_max_ros`.
- **Propagation rules.** `BaseRule`, `ExtendedRule`, `OurRule`, and the older `ExtendedModel`.
  - Each is a pure function from a frozen grid and a cell position to the cell's next state.
  - It fails with the exception Python would raise.
- **Scheduling and scoring.**
  - `Simulation`: the two phases over all cells, in mesa's agent order.
    - The sequential step phase that mesa performs (`ScheduleStep`).
    - The simultaneous step over a frozen snapshot (`SimultaneousStep`). The split of `ForestCell`'s update into a `step` that only records `next_state` and an `advance` that publishes it, and the scheduler's name `SimultaneousActivation`, exist to give this step.
  - `ConcurrentScheduler`: `chunks`, and the sequential meaning of the concurrent scheduler's `step`.
  - `StepOrder`: a two-cell grid on which the two step meanings differ.
  - `Metric`: the confusion-matrix counting and the scores.
  - `ForestFire`: the model's `step`.

How the Python is represented:
- Floating-point numbers are modelled as reals. Rounding is not modelled.
- Grid coordinates follow the source: `(x, y)` with `y = 0` the bottom row, stored at row `height - 1 - y`.
- The wind component and the rain deficit that `OurRule.apply` writes into the cell are returned alongside the next state. The scheduler stores them, just as the Python mutation does.
- A random gust draw becomes a `gust` input per cell.
- The loaded data files become function or sequence parameters.

## Model

| member | source | states |
|---|---|---|
| Factors.Index | forest_fire/ForestCell.py:36-37 | each of the nine offsets in {-1,0,1}² maps to an entry `[1-b][a+1]` inside the 3x3 matrix |
| Factors.OffsetAt | forest_fire/ForestCell.py:36-37 | every matrix position corresponds to an offset in {-1,0,1}² |
| Factors.IndexIsBijection | forest_fire/ForestCell.py:36-43 | the lookup `[1-b][a+1]` is a bijection from the nine offsets onto the 3x3 matrix: it is injective, and `OffsetAt` is its two-sided inverse |
| Factors.MooreOffsetsWellFormed | forest_fire/BaseRule.py:26-27 | the four adjacent and four diagonal vectors are eight distinct non-centre offsets, and they are all of them |
| Factors.Set | forest_fire/ForestCell.py:43 | writing one matrix entry makes that offset read back the new value and leaves the other eight entries unchanged |
| Factors.Uniform | forest_fire/ForestCell.py:16 | the matrix filled with `v` reads `v` at every offset |
| ForestCell.NewCell | forest_fire/ForestCell.py:10-23 | a fresh cell has state 0, no next state, rate of spread 1, height 0, all nine height factors 1, wind component 1, and no rain, deficit or burn mark |
| ForestCell.Step | forest_fire/ForestCell.py:25-27 | `step` records the next state and changes nothing else; in particular the state stays as it was |
| ForestCell.Advance | forest_fire/ForestCell.py:29-34 | `advance` makes the recorded next state current and changes no other field |
| ForestCell.StepThenAdvance | forest_fire/ForestCell.py:25-34 | stepping with a value and then advancing yields exactly that state, with every other field as before |
| Grid.RowInRange | forest_fire/ForestFire.py:67-73 | the storage row `height-1-y` is in range exactly when `y` is |
| Grid.SetCell | forest_fire/ForestFire.py:71-73 | `set_cell` followed by `get_cell` at the same coordinate gives the cell back; every other coordinate is unchanged |
| Grid.Neighbour | forest_fire/BaseRule.py:42-44 | a neighbour is present exactly when its coordinate is inside the grid, and it is the cell stored at its bottom-left-based position |
| Grid.SumOverIgnoresOffGrid | forest_fire/BaseRule.py:39-45 | a neighbour sum equals the same sum over only the in-grid offsets: off-grid neighbours contribute nothing |
| Grid.UpdateHeightFactor | forest_fire/ForestCell.py:39-43 | with a four-argument slope function, each in-grid neighbour's entry becomes `phi(height - neighbour height, a, b, alpha)`; the centre entry, the off-grid entries and every other field keep their values; the call fails exactly when the function does not take four arguments and some neighbour exists |
| Grid.HasNeighbourUnlessSingleCell | forest_fire/ForestCell.py:41 | a cell has a Moore neighbour exactly when the grid has more than one cell |
| Grid.InitHeightFactors | forest_fire/OurRule.py:16-17 | refreshing every cell's factors succeeds unless the slope function has the wrong arity on a grid of more than one cell; each cell then holds its own refresh |
| Grid.DrawCircle | forest_fire/ForestFire.py:60-65 | exactly the cells with `(x-x0)²+(y-y0)² ≤ r²` get state 1; all other cells and all other fields are untouched |
| Grid.LoadRain | forest_fire/DataLoader.py:65-75 | each cell's rain becomes the entry of the rain matrix at its storage row and column; nothing else changes |
| Grid.GetMaxRos | forest_fire/ForestFire.py:75-80 | the result is at least 0 and at least every cell's rate of spread, and it is either 0 or attained by some cell |
| Grid.MaxRosPositive | forest_fire/ForestFire.py:75-80 | if a cell has a positive rate of spread, the maximum is positive, so the rules' divisions by it are defined |
| Grid.SameRatesSameMaxRos | forest_fire/ForestFire.py:75-80 | the maximum rate of spread of a grid is the maximum of any grid of the same shape and rates |
| Numerics.DiagonalScale | forest_fire/OurRule.py:69 | the diagonal scale pi/(4·max_ros²) is non-negative when pi and max_ros are positive |
| SlopeFunctions.H | forest_fire/SlopeFunctions.py:7-15 | `h` is 0 outside (-50, 50); on [0, 50) it is `1 - v/50`, in (0, 1]; on (-50, 0) it is at most 2, and at least 1 on [-41.42, 0) |
| SlopeFunctions.HFlat | forest_fire/SlopeFunctions.py:15 | a flat slope has factor 1 |
| SlopeFunctions.HDipsBelowZeroNearMinus50 | forest_fire/SlopeFunctions.py:9-13 | just above -50 the quadratic branch is negative, while -50 itself gives 0 |
| SlopeFunctions.H2 | forest_fire/SlopeFunctions.py:17-27 | `h2` negates its input; it is 0 when the magnitude is at least 100, in (0, 1] on (-100, 0], and in (1, 2] on (0, 50]; above 50 it is below 0.08, and above 52 it is negative |
| SlopeFunctions.H2JumpsAtFifty | forest_fire/SlopeFunctions.py:24-27 | `h2` gives 2 at 50, 0.04 at 51, 0 at 52, and a negative value at 60 |
| SlopeFunctions.H2IsDiscontinuous | forest_fire/SlopeFunctions.py:24-27 | between 50 and 51 `h2` drops faster than slope 1/25 allows |
| SlopeFunctions.H2Corrected | forest_fire/SlopeFunctions.py:17-27 | the corrected `h2` stays in [0, 2] and agrees with `h2` wherever `h2` is not defective |
| SlopeFunctions.H2CorrectedIsContinuous | forest_fire/SlopeFunctions.py:17-27 | the corrected `h2` is Lipschitz with constant 1/25, so it has no jump |
| SlopeFunctions.PathLength | forest_fire/SlopeFunctions.py:44-49 | the path length is 656 for horizontal neighbours, 812 for vertical ones and 1044 otherwise, each case exactly when its condition holds |
| SlopeFunctions.SlopeH2 | forest_fire/SlopeFunctions.py:39-53 | `slope_h2` is a positive factor whenever `exp` is positive |
| SlopeFunctions.SlopeH2Function | forest_fire/SlopeFunctions.py:39-53 | `slope_h2` is a four-argument slope function that computes `SlopeH2` |
| RainFactorCalculator.RainSuppression | forest_fire/RainFactorCalculator.py:23-25 | suppression lies in [0.2, 1]; it is exactly 1 when rain ≤ 2 and below 1 when rain > 2 |
| RainFactorCalculator.RainScReduction | forest_fire/RainFactorCalculator.py:27-29 | the deficit reduction lies in [0, 0.8], and it is 0.12·rain wherever that is in range |
| RainFactorCalculator.Dry | forest_fire/RainFactorCalculator.py:16-21 | drying halves the deficit, and snaps it to 0 exactly when the half is below 0.01 |
| RainFactorCalculator.ComputeRainFactor | forest_fire/RainFactorCalculator.py:2-21 | rain on a burning cell scales the state by the suppression and keeps the deficit; rain on a non-burning cell keeps the state and sets the deficit to the reduction; no rain keeps the state and dries the deficit |
| RainFactorCalculator.DeficitStaysInRange | forest_fire/RainFactorCalculator.py:2-29 | a deficit in [0, 0.8] stays in [0, 0.8] |
| RainFactorCalculator.RainNeverRaisesState | forest_fire/RainFactorCalculator.py:10-12 | for a non-negative state, the result lies between 0.2·state and state |
| RainFactorCalculator.DriesOutInSevenSteps | forest_fire/RainFactorCalculator.py:16-21 | seven dry days take any deficit in [0, 0.8] to exactly 0 |
| RainFactorCalculator.DryForBound | forest_fire/RainFactorCalculator.py:16-21 | after k dry days a deficit in [0, 0.8] is at most 0.8/2^k |
| WindFactorCalculator.AngleLabel | forest_fire/WindFactorCalculator.py:10-11 | each neighbour's direction label lies in [0, 315] |
| WindFactorCalculator.FireDirection | forest_fire/WindFactorCalculator.py:36-57 | the fire direction is -1 when the in-grid neighbour states sum to 0 |
| WindFactorCalculator.Mean | forest_fire/WindFactorCalculator.py:55-57 | the direction is the weighted mean: -1 for a zero weight, otherwise it times the weight gives back the angle sum, and it lies in [0, 315] when every label does |
| WindFactorCalculator.FireDirectionRange | forest_fire/WindFactorCalculator.py:36-57 | with non-negative neighbour states, the direction is -1 exactly when the state sum is 0, and it lies in [0, 315] otherwise |
| WindFactorCalculator.NeighbourBounds | forest_fire/WindFactorCalculator.py:36-54 | with non-negative states, the state sum is non-negative and the weighted angle sum lies between 0 and 315 times it |
| WindFactorCalculator.Mod360 | forest_fire/WindFactorCalculator.py:30 | `% 360` of a non-negative angle lies in [0, 360) and differs from it by whole turns |
| WindFactorCalculator.AngleDifference | forest_fire/WindFactorCalculator.py:30-32 | the folded difference lies in [0, 180] and equals ±(wind - fire) up to whole turns |
| WindFactorCalculator.WeatherRow | forest_fire/WindFactorCalculator.py:22 | the weather row is the day of the step: row 16 + k covers steps 5k to 5k+4 |
| WindFactorCalculator.ComputeWindFactor | forest_fire/WindFactorCalculator.py:15-34 | the wind factor is 0 when no neighbour burns; with positive `exp` it is non-negative, and positive when some neighbour burns |
| BaseRule.Apply | forest_fire/BaseRule.py:29-37 | a burnt-out or non-spreading cell keeps its state; otherwise the result is at most 1, equals min(1, state + adjacent + diagonal sums) below 1, and is 1 above 1 |
| BaseRule.SumsNonNegative | forest_fire/BaseRule.py:39-54 | non-negative factors and neighbour states make both neighbour sums non-negative |
| BaseRule.ApplyNeverLowers | forest_fire/BaseRule.py:29-37 | for non-negative factors and neighbour states and state ≤ 1, the result lies between the state and 1 |
| BaseRule.DefaultTermIsState | forest_fire/BaseRule.py:22-23 | with the all-1 default factors a neighbour contributes its state if in the grid and 0 otherwise |
| BaseRule.OneBurningAdjacentIgnites | forest_fire/BaseRule.py:29-45 | with default factors, an unburnt cell whose only burning neighbour is adjacent becomes 1 |
| BaseRule.OneBurningDiagonalGivesScale | forest_fire/BaseRule.py:47-54 | with default factors, an unburnt cell whose only burning neighbour is diagonal becomes 0.83: the diagonal sum is scaled and the adjacent sum is not |
| BaseRule.ApplyReadsOnlyLocalStates | forest_fire/BaseRule.py:29-54 | the result depends only on the cell's state and rate and on its neighbours' states |
| ExtendedRule.GateOffsets | forest_fire/ExtendedRule.py:29-34 | the gate offsets are the element-wise sums of the adjacent and diagonal vectors |
| ExtendedRule.GateIsKnightMoves | forest_fire/ExtendedRule.py:29-34 | those sums are the knight moves (-1,2), (2,1), (1,-2), (-2,-1), none of them a Moore neighbour |
| ExtendedRule.AnyBurning | forest_fire/ExtendedRule.py:33-39 | the gate opens exactly when some in-grid cell at a gate offset has state exactly 1 |
| ExtendedRule.G | forest_fire/ExtendedRule.py:70-72 | the discretisation gives only 0 or 1, and gives 1 exactly when its input is at least 1 |
| ExtendedRule.H | forest_fire/ExtendedRule.py:74-82 | the rule's `h` agrees pointwise with the slope module's `h` |
| ExtendedRule.ApplyWithGate | forest_fire/ExtendedRule.py:32-48 | an idle cell keeps its state; otherwise the rule fails exactly when max_ros is 0, and returns 1 exactly when the raw sum reaches 1 and 0 otherwise |
| ExtendedRule.ApplyAsWritten | forest_fire/ExtendedRule.py:32-48 | with the knight-move gate, a cell with no burning knight-move cell keeps its state |
| ExtendedRule.Apply | forest_fire/ExtendedRule.py:32-48 | with the Moore gate, a cell with no burning neighbour keeps its state; otherwise, given a non-zero max_ros, the result is 0 or 1 |
| ExtendedRule.KnightGateClosedAtCentre | forest_fire/ExtendedRule.py:34-41 | on a 3x3 grid every knight move from the centre leaves the grid, so the centre never changes as written |
| ExtendedRule.KnightGateMissesBurningNeighbour | forest_fire/ExtendedRule.py:32-48 | an unburnt centre cell whose north neighbour burns stays 0 as written, but becomes 1 with the Moore gate |
| ExtendedRule.NeighbourGateOpen | forest_fire/ExtendedRule.py:33-39 | the Moore gate of that centre cell is open |
| ExtendedRule.NorthBurningRaw | forest_fire/ExtendedRule.py:43-46 | the raw sum of that centre cell is exactly 1 |
| ExtendedRule.Share | forest_fire/ExtendedRule.py:56 | a neighbour's share is wind factor × height factor × rate of spread × state, and with this rule's all-1 wind factors it is height factor × rate of spread × state |
| ExtendedRule.OneNeighbourAdjTerm | forest_fire/ExtendedRule.py:50-58 | with a single lit neighbour, adjacent, the adjacent term is that neighbour's share over max_ros |
| ExtendedRule.OneNeighbourDiagTerm | forest_fire/ExtendedRule.py:60-68 | with a single lit neighbour, diagonal, the diagonal term is its share, with the rate of spread not squared, times pi/(4·max_ros²) |
| ExtendedRule.NoDivisionByZero | forest_fire/ExtendedRule.py:40-43 | with max_ros the grid maximum, the rule never divides by zero |
| ExtendedRule.HAsWritten | forest_fire/ExtendedRule.py:24 | the constructor passes a one-argument `h` |
| ExtendedRule.HCorrected | forest_fire/ExtendedRule.py:74-82 | the corrected constructor passes `h` as a four-argument slope function |
| ExtendedRule.ConstructorFailsAsWritten | forest_fire/ExtendedRule.py:23-24 | on any grid of more than one cell, the constructor as written raises `TypeError` |
| ExtendedRule.ConstructorCorrected | forest_fire/ExtendedRule.py:23-24 | the corrected constructor succeeds and sets every in-grid factor to `h` of the height difference |
| OurRule.AdjTerm | forest_fire/OurRule.py:48-58 | the adjacent term is non-negative when its neighbour sum is and max_ros is positive |
| OurRule.DiagTerm | forest_fire/OurRule.py:60-70 | the diagonal term is non-negative when its neighbour sum is, pi ≥ 0 and max_ros > 0 |
| OurRule.OneNeighbourAdjTerm | forest_fire/OurRule.py:48-58 | with a single lit neighbour, adjacent, the adjacent term is wind component × height factor × the neighbour's rate of spread × (1 − its deficit) × its state, over max_ros |
| OurRule.OneNeighbourDiagTerm | forest_fire/OurRule.py:60-70 | with a single lit neighbour, diagonal, the diagonal term is the same share with the rate of spread squared, times pi/(4·max_ros²) |
| Numerics.DiagonalScaleIsQuarterPiOverSquare | forest_fire/OurRule.py:69 | the scale `pi / 4 / max_ros / max_ros` times 4·max_ros² gives back pi, so it is pi/(4·max_ros²) |
| OurRule.BaseTerm | forest_fire/OurRule.py:31-34 | the cell's own term is non-negative for a non-negative state and rate and a deficit ≤ 1 |
| OurRule.Spread | forest_fire/OurRule.py:34-37 | the diagonal term is added exactly when the running sum is below 1 |
| OurRule.Cap | forest_fire/OurRule.py:43-46 | the cap never exceeds 1 and never leaves a value in (0, 0.001); it snaps such values to 0, keeps values in [0.001, 1] and non-positive values, sends values ≥ 1 to 1, and keeps non-negative values non-negative |
| OurRule.Apply | forest_fire/OurRule.py:23-46 | a burnt-out or non-spreading cell keeps its state, wind component and deficit; otherwise the rule fails exactly when max_ros is 0; its result is ≤ 1 and never in (0, 0.001); its wind component is the computed wind factor; and a deficit in [0, 0.8] stays there |
| OurRule.Burn | forest_fire/OurRule.py:28-46 | the non-terminal branch: capped result, computed wind component, deficit kept in range |
| OurRule.Finish | forest_fire/OurRule.py:40-46 | applying rain and then the cap gives a result ≤ 1, never in (0, 0.001), non-negative for a non-negative input, and a deficit kept in [0, 0.8] |
| OurRule.ApplyAsWritten | forest_fire/OurRule.py:25-29 | as written the rule raises `TypeError` on every non-terminal cell, and returns the state on terminal ones |
| OurRule.AsWrittenAgreesOnTerminalCells | forest_fire/OurRule.py:25-29 | the rule as written succeeds exactly on terminal cells, and there it agrees with the corrected rule |
| OurRule.NoDivisionByZero | forest_fire/OurRule.py:25-34 | with max_ros the grid maximum and non-negative rates, the rule never divides by zero |
| OurRule.SharesNonNegative | forest_fire/OurRule.py:48-70 | each neighbour's share of either sum is non-negative for a sane neighbourhood |
| OurRule.TermsNonNegative | forest_fire/OurRule.py:48-70 | both neighbour sums are non-negative for a sane neighbourhood |
| OurRule.SpreadNonNegative | forest_fire/OurRule.py:34-37 | the spread before rain is non-negative for a sane cell and neighbourhood |
| OurRule.ApplyInUnitInterval | forest_fire/OurRule.py:23-46 | with non-negative factors, states and rates, deficits ≤ 1, positive max_ros and sane transcendentals, the rule succeeds with a result in [0, 1] |
| OurRule.SaturatedCellBurnsOut | forest_fire/OurRule.py:34-46 | a non-terminal cell whose running sum reaches 1 without heavy rain becomes exactly 1 |
| ExtendedModel.EntryOfUniform | forest_fire/ExtendedModel.py:13-18 | the all-ones matrices read 1 under the transposed lookup `[a+1][1-b]` |
| ExtendedModel.ApplyWith | forest_fire/ExtendedModel.py:20-37 | the result is at most 1, and a burnt-out cell stays 1 |
| ExtendedModel.Next | forest_fire/ExtendedModel.py:29-37 | combining state, adjacent sum and π/4-scaled diagonal sum gives at most 1, and 1 from state 1 |
| ExtendedModel.ApplyAsWritten | forest_fire/ExtendedModel.py:20-43 | as written, with the wind matrix read twice: at most 1, and 1 stays 1 |
| ExtendedModel.Apply | forest_fire/ExtendedModel.py:20-40 | with the height matrix read: at most 1, 1 stays 1, and it coincides with the code as written whenever the two matrices are equal |
| ExtendedModel.ApplyNeverLowers | forest_fire/ExtendedModel.py:20-37 | for non-negative matrices, neighbour states and pi, and state ≤ 1, the result lies between the state and 1 |
| ExtendedModel.NextNeverLowers | forest_fire/ExtendedModel.py:29-37 | non-negative sums never lower a state ≤ 1 and never lift it past 1 |
| ExtendedModel.TermNonNegative | forest_fire/ExtendedModel.py:24-34 | each neighbour's contribution is non-negative for non-negative matrices and states |
| ExtendedModel.DefaultTermIsState | forest_fire/ExtendedModel.py:13-18 | with the default matrices a neighbour contributes its state if in the grid and 0 otherwise |
| ExtendedModel.OneBurningAdjacentIgnites | forest_fire/ExtendedModel.py:20-37 | with default matrices, an unburnt cell whose only burning neighbour is adjacent becomes 1 |
| ExtendedModel.OneBurningDiagonalGivesQuarterPi | forest_fire/ExtendedModel.py:29-37 | with default matrices, an unburnt cell whose only burning neighbour is diagonal becomes min(1, π/4) |
| ExtendedModel.ApplyReadsOnlyLocalStates | forest_fire/ExtendedModel.py:20-37 | the result depends only on the cell's state and its neighbours' states |
| ExtendedModel.AsWrittenIgnoresHeight | forest_fire/ExtendedModel.py:42-43 | as written the height matrix never affects the result |
| ExtendedModel.AsWrittenIgnoresBarrier | forest_fire/ExtendedModel.py:42-43 | an all-zero height matrix should stop the spread (result 0), but as written the centre cell still ignites (result 1) |
| Metric.Classify | forest_fire/ForestFire.py:99-107 | each cell falls in exactly one of tp, fn, fp, tn, by its burn mark and whether its state is 1 |
| Metric.ScoredCoordinates | forest_fire/ForestFire.py:97-98 | the scoring loop visits 250·250 coordinates, all inside the 250x250 window |
| Metric.TallyIsPartition | forest_fire/ForestFire.py:97-107 | the four counts add up to the number of coordinates visited |
| Metric.ScoringWindowIsPartition | forest_fire/ForestFire.py:97-107 | over the scoring window the four counts add up to 62500 |
| Metric.ScoresOf | forest_fire/ForestFire.py:109-111 | the scores fail exactly when tp is 0; otherwise precision·(tp+fp) = tp, recall·(tp+fn) = tp, f1·(2tp+fp+fn) = 2tp, and precision and recall lie in (0, 1] |
| Metric.ComputeMetric | forest_fire/ForestFire.py:92-111 | `compute_metric` fails exactly when tp is 0 (no burned cell is predicted burnt), and otherwise gives the scores of the window's counts |
| Simulation.Compute | forest_fire/ForestCell.py:25-27 | under the base rule the cell's update is `BaseRule.apply` of the grid |
| Simulation.Write | forest_fire/ForestCell.py:25-27 | storing an update records the next state, keeps the state, and changes only the fields the rule writes |
| Simulation.StepPhase | forest_fire/ConcurrentSimultaneousActivation.py:26-30 | stepping keys in order on the shared grid changes only those cells' step fields, and leaves each with a recorded next state |
| Simulation.StepFrozen | forest_fire/ForestCell.py:25-27 | stepping every key against a frozen snapshot writes, at each key, the next state, wind component and deficit the rule computes on the snapshot; it fails only when some key's rule call fails |
| Simulation.AsWrittenPhase | forest_fire/OurRule.py:25-29 | a step phase under `OurRule` as written succeeds exactly when every stepped cell is terminal, fails with `TypeError` otherwise, and on success records each cell's own state as its next state |
| Simulation.BaseStepIsSimultaneous | forest_fire/BaseRule.py:29-54 | since the base rule reads only states and rates, stepping on the shared grid equals stepping on the frozen snapshot |
| Simulation.AdvancePhase | forest_fire/ConcurrentSimultaneousActivation.py:32-36 | advancing the keys makes each recorded next state current and changes nothing else |
| Simulation.AgentOrder | forest_fire/ForestFire.py:52-58 | mesa's agent order lists every cell of the grid exactly once |
| Simulation.AgentOrderPosition | forest_fire/ForestFire.py:54-58 | cell (x, y) is agent number x·height + y: column by column, bottom to top |
| Simulation.AgentOrderCovers | forest_fire/ForestFire.py:52-58 | every grid cell is among the agents, and every agent is a grid cell |
| Simulation.ScheduleStep | forest_fire/ForestFire.py:82-88 | mesa's step as written succeeds exactly when its step phase does; then every cell's state is its recorded next state and only the step fields changed |
| Simulation.SimultaneousStep | forest_fire/ForestCell.py:25-34 | the simultaneous step succeeds exactly when the rule succeeds at every cell; then every cell is the advance of its old self with the rule's result written in: its state and recorded next state are the next state the rule computes on the grid before the step, its wind component and deficit are the rule's when the rule writes them and its own otherwise, and no other field changes |
| Simulation.SimultaneousKeepsRates | forest_fire/ForestCell.py:25-34 | the simultaneous step leaves every cell's rate of spread as it was |
| Simulation.FrozenFailure | forest_fire/ForestCell.py:25-34 | a failing frozen step phase means some in-grid cell's rule call fails |
| Simulation.FrozenPublished | forest_fire/ForestCell.py:25-34 | after a frozen step phase and the advance phase, each cell holds what the rule computed for it on the snapshot |
| Simulation.ScheduleStepPublishes | forest_fire/ConcurrentSimultaneousActivation.py:14-36 | after a successful step as written, the step phase succeeded, every cell holds a recorded next state, and each cell is the advance of its cell after the step phase |
| Simulation.AsWrittenScheduleStep | forest_fire/ForestFire.py:82-88 | under `OurRule` as written, mesa's step fails exactly when some grid cell is not terminal, always with `TypeError`, and when it succeeds no state changes |
| Simulation.BaseScheduleStep | forest_fire/BaseRule.py:29-54 | under the base rule the step as written is the simultaneous step; it always succeeds, and each cell's state becomes `apply` of the old grid |
| ConcurrentScheduler.CeilDivIsCeiling | forest_fire/ConcurrentSimultaneousActivation.py:40 | `CeilDiv(len, n)` is the least count of n-sized blocks that covers len |
| ConcurrentScheduler.Chunks | forest_fire/ConcurrentSimultaneousActivation.py:38-41 | concatenating the chunks gives back the list; every chunk is non-empty of length ≤ n; all but the last have length n; there are ceil(len/n) of them |
| ConcurrentScheduler.ChunkIsSlice | forest_fire/ConcurrentSimultaneousActivation.py:40-41 | chunk i is the slice `lst[i*n : i*n + n]`, clipped to the list |
| ConcurrentScheduler.ChunksOf | forest_fire/ConcurrentSimultaneousActivation.py:38-41 | `range` with step 0 raises `ValueError`; a negative step yields no chunks; a positive one yields chunks that concatenate back to the list |
| ConcurrentScheduler.KeyEvents | forest_fire/ConcurrentSimultaneousActivation.py:26-36 | a worker visits its keys in order, one event per key |
| ConcurrentScheduler.ChunkEvents | forest_fire/ConcurrentSimultaneousActivation.py:17-21 | running the chunks one after another visits the keys of the whole list in order |
| ConcurrentScheduler.StepTraceOrder | forest_fire/ConcurrentSimultaneousActivation.py:17-21 | every agent is stepped exactly once and advanced exactly once, every step comes before every advance, and only agents occur |
| ConcurrentScheduler.PhasesInOrder | forest_fire/ConcurrentSimultaneousActivation.py:17-21 | a step phase followed by an advance phase over distinct keys has that same shape |
| ConcurrentScheduler.StepPhaseTurn | forest_fire/ConcurrentSimultaneousActivation.py:26-30 | turn k of the step phase: once an earlier turn failed the phase stays failed; otherwise key k's rule is computed on the grid the earlier turns left, and its failure ends the phase with that error while its success writes its result into key k's cell |
| ConcurrentScheduler.StepPhaseRecords | forest_fire/ConcurrentSimultaneousActivation.py:26-30 | in a successful phase over distinct keys, key k's cell ends up as its original cell with the result written in that the rule computes on the grid left by keys 0..k-1 |
| ConcurrentScheduler.StepPhaseFails | forest_fire/ConcurrentSimultaneousActivation.py:26-30 | the phase fails exactly when some turn's rule call fails on the grid left by the turns before it, and the phase reports the error of such a call |
| ConcurrentScheduler.FirstFailure | forest_fire/ConcurrentSimultaneousActivation.py:26-30 | a failing prefix of the phase has a failing turn whose result the phase keeps: nothing after the first failure runs |
| ConcurrentScheduler.ScheduleStepReadsEarlierTurns | forest_fire/ForestFire.py:52-58 | in mesa's step, cell (x, y) is turn x·height + y, and its new state is what the rule computes on the grid left by the turns of the cells before it in agent order |
| ConcurrentScheduler.StepChunks | forest_fire/ConcurrentSimultaneousActivation.py:17-18 | stepping chunk after chunk is the step phase over the concatenated keys |
| ConcurrentScheduler.StepPhaseAppend | forest_fire/ConcurrentSimultaneousActivation.py:26-30 | stepping a + b is stepping a and then b, and a failure in a stops the phase |
| ConcurrentScheduler.AdvanceChunks | forest_fire/ConcurrentSimultaneousActivation.py:20-21 | advancing chunk after chunk is the advance phase over the concatenated keys |
| ConcurrentScheduler.AdvancePhaseAppend | forest_fire/ConcurrentSimultaneousActivation.py:32-36 | advancing a + b is advancing a and then b |
| ConcurrentScheduler.StepWith | forest_fire/ConcurrentSimultaneousActivation.py:14-24 | for any chunking of the agent order, the step is mesa's step on the grid and adds exactly 1 to both `steps` and `time` |
| ConcurrentScheduler.StepAsWritten | forest_fire/ConcurrentSimultaneousActivation.py:14-24 | with chunks of size 4 the step is mesa's step, and each counter grows by exactly 1 |
| ConcurrentScheduler.Step | forest_fire/ConcurrentSimultaneousActivation.py:14-24 | with one chunk per worker the result is the same step, and the counters grow by 1 |
| ConcurrentScheduler.AsWrittenChunksOutnumberWorkers | forest_fire/ConcurrentSimultaneousActivation.py:17 | for more than 16 agents, chunks of size 4 outnumber the 4 workers |
| ConcurrentScheduler.AsWrittenTaskCount | forest_fire/ConcurrentSimultaneousActivation.py:17 | on the 250x250 grid the code submits 15625 tasks per phase |
| ConcurrentScheduler.WorkerChunks | forest_fire/ConcurrentSimultaneousActivation.py:17-21 | splitting into one chunk per worker concatenates back to the list, with at most 4 non-empty chunks each of at most ceil(len/4) keys |
| ConcurrentScheduler.ChunkCountBound | forest_fire/ConcurrentSimultaneousActivation.py:40 | chunks of size ceil(len/w) number at most w |
| StepOrder.PairOrder | forest_fire/ForestFire.py:52-58 | on a 2x1 grid the agent order is (0,0) then (1,0) |
| StepOrder.FirstCellStep | forest_fire/OurRule.py:23-46 | in calm weather the wet burning cell of the pair gets next state 0.1, wind 0 and a halved deficit of 0.4 |
| StepOrder.SecondCellStep | forest_fire/OurRule.py:23-46 | the dry unburnt cell's next state is the capped half of its neighbour's spread reduction, so it depends on that neighbour's current deficit |
| StepOrder.RainDeficitLeaks | forest_fire/OurRule.py:53-57 | on the pair grid, mesa's sequential step phase gives the second cell 0.3, while the frozen step phase gives it 0.1 |
| StepOrder.SequentialPair | forest_fire/RainFactorCalculator.py:16-21 | the sequential phase: the first cell's drying deficit is already visible to the second |
| StepOrder.FrozenPair | forest_fire/OurRule.py:53-57 | the frozen phase: the second cell reads the deficit from before the step |
| ForestFire.RainDay | forest_fire/ForestFire.py:85-86 | rain is loaded exactly on steps divisible by 5, for the day that is that step's weather row |
| ForestFire.RainInForceIsWeatherDay | forest_fire/ForestFire.py:85-86 | the rain in force at any step is the rain of the day whose wind that step reads |
| ForestFire.RainDaysAdvanceByOne | forest_fire/ForestFire.py:85-86 | consecutive loads are five steps and one day apart, and there is no load in between |
| ForestFire.Reload | forest_fire/ForestFire.py:85-86 | on a loading step each cell takes the day's rain at its storage position; otherwise the grid is unchanged; nothing but the rain ever changes |
| ForestFire.Finish | forest_fire/ForestFire.py:88-90 | scoring fails exactly when `compute_metric` fails, and otherwise returns the counted model and its scores |
| ForestFire.Step | forest_fire/ForestFire.py:82-90 | the intended step loads the rain, takes the simultaneous step of the loaded grid, counts the step and scores the new grid; it fails when the simultaneous step fails |
| ForestFire.StepReadsLoadedSnapshot | forest_fire/ForestFire.py:82-90 | after a step each cell holds what the rule computed for it on the loaded grid, and a failing rule call fails the step |
| ForestFire.KeepsRatesOfSpread | forest_fire/ForestFire.py:82-90 | a successful step keeps the grid's shape and every cell's rate of spread |
| ForestFire.StepKeepsMaxRos | forest_fire/ForestFire.py:45 | `max_ros`, computed once when the model is built, is still the grid's maximum rate of spread after every step |
| ForestFire.StepSequential | forest_fire/ForestFire.py:82-90 | with the corrected rule, the step does the same around mesa's sequential step phase |
| ForestFire.StepAsWritten | forest_fire/ForestFire.py:82-90 | the step as written, with `OurRule`'s four-argument wind call, fails with `TypeError` whenever the grid holds a non-terminal cell; otherwise it is mesa's step of the loaded grid, adds 1 to both counters, keeps every state, and scores the new grid |
| ForestFire.AsWrittenOnLoadedGrid | forest_fire/ForestFire.py:85-88 | mesa's step as written, on the grid with the day's rain loaded, fails exactly when the grid before loading holds a non-terminal cell, always with `TypeError`, and on success keeps every state of the grid before loading |
| ForestFire.ReloadKeepsTerminality | forest_fire/ForestFire.py:85-86 | loading the rain keeps every cell's state, and every cell is terminal after the load exactly when it was before |

## Left out

- `ForestFire.__init__` and `DataLoader.py` are not modelled: they read CSV files. The loaded matrices are parameters. Where a rule needs them, rain and weather tables that cover the grid and the current day are preconditions (`Grid.CoversGrid`, `WindFactorCalculator.WeatherCovers`).
- `server.py`, `model.py`, `agent.py`, `cell.py` and `PropagationRule.py` are not modelled. They are rendering, a parameter sweep and mesa glue that duplicate `ForestCell` or are abstract. `agent.py`'s `KTModel` is not part of this model.
- mesa's `SingleGrid`, `coord_iter`, `out_of_bounds`, `iter_neighbors` and `SimultaneousActivation` are replaced by the `Grid` module and the two phases in `Simulation`. The agent order is mesa's column-by-column order.
- `ProcessPoolExecutor` dispatch and `wait` are not modelled: the chunks are run one after another. The concurrent run is not modelled. In it the workers mutate copies of the agents, and those copies do not come back to the parent process.
- `print` logging in `advance`, `step_agent` and `advance_agent` is left out.
- `exp`, `atan`, `cos`, `math.radians` and π are uninterpreted parameters (`Transcendental.Functions`). Only their signs are assumed.
- `slope_h` is not modelled: it is built from `atan` alone and no rule uses it.
- The random gust draw is not modelled: the gust/no-gust choice is an input per cell.
- The floating-point effects are not modelled. The model has no rounding, no infinities and no NaN. Equality tests such as `state == 1.0` are exact.
- Numerics.DiagonalScale: `pi / (4 * max_ros ** 2)` is computed as `pi / 4 / max_ros / max_ros`. That is the same real number, but not the same float.
- Metric.ComputeMetric: grids smaller than 250x250 are excluded by a precondition. On such grids the Python's scoring loop reads outside the grid.
- OurRule.Apply: passes the model's `c1` and `c2` to the wind factor, as the call site intends. The two-argument `compute_wind_factor` instead uses its own constants 0.25 and 0.75 (`WindFactorCalculator.DefaultC1`, `DefaultC2`).
- OurRule.ApplyInUnitInterval: monotonicity of the state is not claimed, because the rule does not promise it. The base term and the rain suppression can both lower a burning cell's state.
- Simulation.AdvancePhase: requires every advanced cell to hold a recorded next state. The Python would set the state to `None` otherwise, and the model has no such state.
- Simulation.Compute: its contract states only the base rule's update directly. The other rules' updates are stated through `ExtendedRule.Apply` and `OurRule.Apply`.
- Simulation.StepFrozen: on failure it states only that some key's rule call fails, not which one is reported.
- Simulation.ScheduleStep: states the new state and that only the step fields changed. The wind component and deficit each cell takes are stated by `ConcurrentScheduler.StepPhaseRecords` and `Simulation.ScheduleStepPublishes`.
- ForestCell.py's `is_burned` is a number in the source. Here it is a `real`, and any non-zero value counts as burned.

## Findings

| source | as written | input that shows it | evidently intended | confidence | as-written member | corrected member |
|---|---|---|---|---|---|---|
| forest_fire/ExtendedRule.py:34 | `v_adj + v_diag` adds the numpy arrays element-wise, so the "burning neighbour" gate looks at knight-move offsets | a 3x3 grid whose north neighbour of the centre burns: the centre stays 0 | the gate ranges over the eight Moore neighbours, so the centre becomes 1 | high, not executed | ExtendedRule.KnightGateMissesBurningNeighbour | ExtendedRule.Apply |
| forest_fire/OurRule.py:29 | `compute_wind_factor` is called with four arguments but takes two, so every non-terminal cell raises `TypeError`, and so does every model step on a grid with such a cell | any cell with state below 1 and non-zero rate of spread | the wind factor is computed with the model's `c1` and `c2` | high, not executed | ForestFire.StepAsWritten | OurRule.Apply |
| forest_fire/ExtendedRule.py:24 | the one-argument `h` is passed where a four-argument slope function is called, so the constructor raises `TypeError` | any grid with at least two cells | `h` takes (value, a, b, alpha) and refreshes every height factor | high, not executed | ExtendedRule.ConstructorFailsAsWritten | ExtendedRule.ConstructorCorrected |
| forest_fire/ExtendedModel.py:43 | `get_height_term` reads the wind matrix, so the height matrix is never used | an all-zero height matrix and a burning north neighbour: the centre still ignites | the height matrix weights each neighbour, so the centre stays 0 | high, not executed | ExtendedModel.AsWrittenIgnoresBarrier | ExtendedModel.Apply |
| forest_fire/SlopeFunctions.py:27 | the last branch of `h2` is `(-2/50)(v-2)+2`, which jumps from 2 at 50 to 0.04 at 51 and is negative above 52 | v = -51 gives 0.04 right after 2 at v = -50; v = -60 gives a negative factor | a continuous decline from 2 at 50 to 0 at 100 | medium, not executed | SlopeFunctions.H2IsDiscontinuous | SlopeFunctions.H2CorrectedIsContinuous |
| forest_fire/ConcurrentSimultaneousActivation.py:17 | `chunks(agent_keys, number_of_workers)` uses the worker count as the chunk size, so 62500 agents give 15625 tasks per phase | the 250x250 grid | one chunk per worker, at most 4 chunks | low, not executed | ConcurrentScheduler.AsWrittenTaskCount | ConcurrentScheduler.WorkerChunks |
| forest_fire/OurRule.py:53-57 | mesa steps the cells one after another, and `apply` writes the cell's rain deficit that later neighbours read, so the step is not simultaneous | the pair grid: a wet half-burnt cell (deficit 0.8, no rain) at (0,0) and a dry unburnt cell at (1,0); the second cell gets 0.3 | every cell reads the grid as it was before the step, giving 0.1 | medium, not executed | StepOrder.RainDeficitLeaks | Simulation.SimultaneousStep |
