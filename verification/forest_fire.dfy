/**
 * `ForestFire`: the simulation model. Each step loads the day's rain every
 * fifth step, runs one step of simultaneous activation of the cells under
 * the model's rule, advances the counters and scores the grid against the
 * burned map.
 */
module ForestFire {
  import opened Wrappers
  import opened Grid
  import opened Simulation
  import ForestCell
  import OurRule
  import Metric
  import WindFactorCalculator

  /**
   * The model between steps: its grid, the rule's fixed inputs (whose step
   * count is replaced by the scheduler's) and the scheduler's counters.
   */
  datatype Model = Model(forest: Forest, env: OurRule.Env, steps: nat, time: nat)

  /** The rule the model was built with, reading the current step count, with its wind call repaired. */
  function RuleOf(m: Model, gusts: (int, int) -> bool): Rule {
    Ours(m.env.(steps := m.steps), gusts)
  }

  /** The rule the model was built with, calling the wind factor with the extra arguments as written. */
  function RuleAsWritten(m: Model): Rule {
    OursAsWritten(m.env.(steps := m.steps))
  }

  /** The day whose rain `step` loads before stepping: one every fifth step. */
  function RainDay(steps: nat): (day: Option<nat>)
    ensures day.Some? <==> steps % 5 == 0
    ensures day.Some? ==> day.value == WindFactorCalculator.WeatherRow(steps)
  {
    if steps % 5 == 0 then Some(steps / 5 + 16) else None
  }

  /**
   * The rain in force at any step was loaded at the last multiple of 5, and
   * it is the rain of the day whose weather row the wind reads at that step.
   */
  lemma RainInForceIsWeatherDay(steps: nat)
    ensures RainDay(steps - steps % 5) == Some(WindFactorCalculator.WeatherRow(steps))
  {
    var k := steps / 5;
    assert steps - steps % 5 == 5 * k;
    assert (5 * k) % 5 == 0 && (5 * k) / 5 == k;
  }

  /** Consecutive loads are five steps apart and one day apart. */
  lemma RainDaysAdvanceByOne(k: nat)
    ensures RainDay(5 * k).Some? && RainDay(5 * k + 5).Some?
    ensures RainDay(5 * k + 5).value == RainDay(5 * k).value + 1
    ensures forall s :: 5 * k < s < 5 * k + 5 ==> RainDay(s).None?
  {
    assert (5 * k) / 5 == k && (5 * k + 5) / 5 == k + 1;
    forall s | 5 * k < s < 5 * k + 5
      ensures RainDay(s).None?
    {
      assert s == 5 * k + (s - 5 * k);
    }
  }

  /** The rain file of the day, when one is loaded, covers the grid. */
  predicate RainReady(f: Forest, steps: nat, rain: nat -> seq<seq<real>>) {
    RainDay(steps).Some? ==> CoversGrid(f, rain(RainDay(steps).value))
  }

  /**
   * The first half of `step`: on a loading step every cell takes the day's
   * rain at its storage position; otherwise the grid is untouched. Nothing
   * but the rain changes.
   */
  function Reload(f: Forest, steps: nat, rain: nat -> seq<seq<real>>): (g: Forest)
    requires WellFormed(f) && RainReady(f, steps, rain)
    ensures WellFormed(g) && g.width == f.width && g.height == f.height
    ensures steps % 5 != 0 ==> g == f
    ensures steps % 5 == 0 ==> forall x, y :: InBounds(f, x, y) ==>
              GetCell(g, x, y).rain == rain(WindFactorCalculator.WeatherRow(steps))[Row(f, y)][x]
    ensures forall x, y :: InBounds(f, x, y) ==> GetCell(g, x, y).(rain := GetCell(f, x, y).rain) == GetCell(f, x, y)
  {
    match RainDay(steps)
    case None => f
    case Some(day) => LoadRain(f, rain(day))
  }

  /** The rule can read its weather row and the scoring window fits the grid. */
  predicate Ready(m: Model, rain: nat -> seq<seq<real>>) {
    && Metric.Covers(m.forest)
    && RainReady(m.forest, m.steps, rain)
    && WindFactorCalculator.WeatherCovers(m.env.weather, m.steps)
  }

  /** The model after a step that produced the grid g. */
  function Counted(m: Model, g: Forest): (m': Model)
    ensures m'.steps == m.steps + 1 && m'.time == m.time + 1 && m'.env == m.env && m'.forest == g
  {
    Model(g, m.env, m.steps + 1, m.time + 1)
  }

  /** Score the grid a step produced, and count the step. */
  function Finish(m: Model, g: Forest): (r: Result<(Model, Metric.Scores)>)
    requires Metric.Covers(g)
    ensures r.Success? <==> Metric.ComputeMetric(g).Success?
    ensures r.Success? ==> r.value == (Counted(m, g), Metric.ComputeMetric(g).value)
  {
    match Metric.ComputeMetric(g)
    case Failure(err) => Failure(err)
    case Success(scores) => Success((Counted(m, g), scores))
  }

  /**
   * `step` as evidently intended: load the rain, let every cell compute its
   * next state from the grid as it was before the step, publish, count the
   * step and score the new grid. `gusts` says which cells drew a gust.
   */
  function Step(m: Model, rain: nat -> seq<seq<real>>, gusts: (int, int) -> bool): (r: Result<(Model, Metric.Scores)>)
    requires Ready(m, rain)
    ensures r.Success? ==> r.value.0.steps == m.steps + 1 && r.value.0.time == m.time + 1 && r.value.0.env == m.env
    ensures r.Success? ==> SimultaneousStep(RuleOf(m, gusts), Reload(m.forest, m.steps, rain)) == Success(r.value.0.forest)
    ensures r.Success? ==> Metric.Covers(r.value.0.forest) && Metric.ComputeMetric(r.value.0.forest) == Success(r.value.1)
    ensures SimultaneousStep(RuleOf(m, gusts), Reload(m.forest, m.steps, rain)).Failure? ==> r.Failure?
  {
    var loaded := Reload(m.forest, m.steps, rain);
    match SimultaneousStep(RuleOf(m, gusts), loaded)
    case Failure(err) => Failure(err)
    case Success(g) => Finish(m, g)
  }

  /**
   * After a step every cell holds what the rule computed for it on the grid
   * as it stood once the day's rain was loaded, and the step fails when any
   * cell's rule call fails.
   */
  lemma StepReadsLoadedSnapshot(m: Model, rain: nat -> seq<seq<real>>, gusts: (int, int) -> bool, x: int, y: int)
    requires Ready(m, rain) && InBounds(m.forest, x, y)
    ensures Compute(RuleOf(m, gusts), Reload(m.forest, m.steps, rain), x, y).Failure? ==> Step(m, rain, gusts).Failure?
    ensures Step(m, rain, gusts).Success? ==>
              Compute(RuleOf(m, gusts), Reload(m.forest, m.steps, rain), x, y).Success? &&
              GetCell(Step(m, rain, gusts).value.0.forest, x, y).state ==
              Compute(RuleOf(m, gusts), Reload(m.forest, m.steps, rain), x, y).value.next
  {
    var loaded := Reload(m.forest, m.steps, rain);
    assert InBounds(loaded, x, y);
  }

  /**
   * `max_ros` is computed once, when the model is built, and never again. It
   * stays the grid's maximum rate of spread because a step changes no cell's
   * rate of spread, so the rules' divisions by it stay safe at every step.
   */
  lemma StepKeepsMaxRos(m: Model, rain: nat -> seq<seq<real>>, gusts: (int, int) -> bool)
    requires Ready(m, rain) && IsMaxRos(m.forest, m.env.maxRos)
    ensures Step(m, rain, gusts).Success? ==> IsMaxRos(Step(m, rain, gusts).value.0.forest, Step(m, rain, gusts).value.0.env.maxRos)
  {
    if Step(m, rain, gusts).Success? {
      KeepsRatesOfSpread(m, rain, gusts);
      SameRatesSameMaxRos(m.forest, Step(m, rain, gusts).value.0.forest, m.env.maxRos);
    }
  }

  /** A successful step keeps the grid's shape and every cell's rate of spread. */
  lemma KeepsRatesOfSpread(m: Model, rain: nat -> seq<seq<real>>, gusts: (int, int) -> bool)
    requires Ready(m, rain) && Step(m, rain, gusts).Success?
    ensures var g := Step(m, rain, gusts).value.0.forest;
              && WellFormed(g) && g.width == m.forest.width && g.height == m.forest.height
              && forall x, y :: InBounds(g, x, y) ==> GetCell(g, x, y).rateOfSpread == GetCell(m.forest, x, y).rateOfSpread
  {
    var loaded := Reload(m.forest, m.steps, rain);
    SimultaneousKeepsRates(RuleOf(m, gusts), loaded);
  }

  /**
   * `step` with the cells stepped one after the other on the shared grid, as
   * mesa's simultaneous activation does, and the rule's wind call repaired:
   * a cell's rule call sees what the earlier calls of the same step wrote.
   */
  function StepSequential(m: Model, rain: nat -> seq<seq<real>>, gusts: (int, int) -> bool): (r: Result<(Model, Metric.Scores)>)
    requires Ready(m, rain)
    ensures r.Success? ==> r.value.0.steps == m.steps + 1 && r.value.0.time == m.time + 1 && r.value.0.env == m.env
    ensures r.Success? ==> ScheduleStep(RuleOf(m, gusts), Reload(m.forest, m.steps, rain)) == Success(r.value.0.forest)
    ensures r.Success? ==> Metric.Covers(r.value.0.forest) && Metric.ComputeMetric(r.value.0.forest) == Success(r.value.1)
    ensures ScheduleStep(RuleOf(m, gusts), Reload(m.forest, m.steps, rain)).Failure? ==> r.Failure?
  {
    var loaded := Reload(m.forest, m.steps, rain);
    match ScheduleStep(RuleOf(m, gusts), loaded)
    case Failure(err) => Failure(err)
    case Success(g) => Finish(m, g)
  }

  /**
   * `step` as written: the cells step one after the other, and the first
   * cell that is neither burned out nor unable to burn calls the wind factor
   * with two arguments too many. The step then fails with a TypeError; on a
   * grid with no such cell it changes no state.
   */
  function StepAsWritten(m: Model, rain: nat -> seq<seq<real>>): (r: Result<(Model, Metric.Scores)>)
    requires Ready(m, rain)
    ensures (exists x, y :: InBounds(m.forest, x, y) && !ForestCell.Terminal(GetCell(m.forest, x, y))) ==> r == Failure(TypeError)
    ensures (forall x, y :: InBounds(m.forest, x, y) ==> ForestCell.Terminal(GetCell(m.forest, x, y))) ==>
              ScheduleStep(RuleAsWritten(m), Reload(m.forest, m.steps, rain)).Success?
    ensures r.Success? ==> r.value.0.steps == m.steps + 1 && r.value.0.time == m.time + 1 && r.value.0.env == m.env
    ensures r.Success? ==> ScheduleStep(RuleAsWritten(m), Reload(m.forest, m.steps, rain)) == Success(r.value.0.forest)
    ensures r.Success? ==>
              && WellFormed(r.value.0.forest)
              && r.value.0.forest.width == m.forest.width && r.value.0.forest.height == m.forest.height
              && forall x, y :: InBounds(m.forest, x, y) ==> GetCell(r.value.0.forest, x, y).state == GetCell(m.forest, x, y).state
    ensures r.Success? ==> Metric.Covers(r.value.0.forest) && Metric.ComputeMetric(r.value.0.forest) == Success(r.value.1)
  {
    var loaded := Reload(m.forest, m.steps, rain);
    AsWrittenOnLoadedGrid(m, rain);
    match ScheduleStep(RuleAsWritten(m), loaded)
    case Failure(err) => Failure(err)
    case Success(g) => Finish(m, g)
  }

  /** The scheduler's step as written, on the grid with the day's rain loaded, judged by the grid before loading. */
  lemma AsWrittenOnLoadedGrid(m: Model, rain: nat -> seq<seq<real>>)
    requires Ready(m, rain)
    ensures var r := ScheduleStep(RuleAsWritten(m), Reload(m.forest, m.steps, rain));
              && (r.Failure? <==> exists x, y :: InBounds(m.forest, x, y) && !ForestCell.Terminal(GetCell(m.forest, x, y)))
              && (r.Failure? ==> r.error == TypeError)
              && (r.Success? ==> forall x, y :: InBounds(m.forest, x, y) ==> GetCell(r.value, x, y).state == GetCell(m.forest, x, y).state)
  {
    var loaded := Reload(m.forest, m.steps, rain);
    ReloadKeepsTerminality(m.forest, m.steps, rain);
    AsWrittenScheduleStepOn(m.env.(steps := m.steps), m.forest, loaded);
  }

  /** Loading the rain changes no cell's state, nor whether it is terminal. */
  lemma ReloadKeepsTerminality(f: Forest, steps: nat, rain: nat -> seq<seq<real>>)
    requires WellFormed(f) && RainReady(f, steps, rain)
    ensures forall x, y :: InBounds(f, x, y) ==>
              GetCell(Reload(f, steps, rain), x, y).state == GetCell(f, x, y).state &&
              ForestCell.Terminal(GetCell(Reload(f, steps, rain), x, y)) == ForestCell.Terminal(GetCell(f, x, y))
  {
    forall x, y | InBounds(f, x, y)
      ensures GetCell(Reload(f, steps, rain), x, y).state == GetCell(f, x, y).state
      ensures ForestCell.Terminal(GetCell(Reload(f, steps, rain), x, y)) == ForestCell.Terminal(GetCell(f, x, y))
    {
      var c := GetCell(Reload(f, steps, rain), x, y);
      assert c.(rain := GetCell(f, x, y).rain) == GetCell(f, x, y);
    }
  }
}
