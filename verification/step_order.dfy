/**
 * The order of the turns within the step phase matters for `OurRule`: the
 * rule writes the cell's rain deficit while stepping, and a cell stepped
 * later reads its neighbours' deficits, so it sees the new deficit of a
 * neighbour stepped earlier and the old one of a neighbour stepped later.
 * A two-cell grid shows the sequential step phase and the simultaneous one
 * giving different next states.
 */
module StepOrder {
  import opened Wrappers
  import opened Factors
  import opened ForestCell
  import opened Grid
  import opened Transcendental
  import WindFactorCalculator
  import OurRule
  import opened Simulation

  /** Two cells in one row: (0, 0) half burnt and wet with a deficit of 0.8, (1, 0) unburnt and dry. */
  function PairGrid(): (f: Forest)
    ensures WellFormed(f) && f.width == 2 && f.height == 1
  {
    Forest(2, 1, [[NewCell().(state := 0.5, rainDeficit := 0.8), NewCell()]])
  }

  /** What the second cell of the pair needs of itself: unburnt, dry, no rain, rate of spread 1 and a flat left neighbour. */
  predicate Fresh(c: Cell) {
    c.state == 0.0 && c.rateOfSpread == 1.0 && c.rainDeficit == 0.0 && c.rain == 0.0 && HeightFactor(c, (-1, 0)) == 1.0
  }

  /** No wind effect: both wind coefficients 0, max_ros 1, and exp(0) = 1. */
  predicate Calm(e: OurRule.Env) {
    OurRule.Covers(e) && e.maxRos == 1.0 && e.c1 == 0.0 && e.c2 == 0.0 && e.t.exp(0.0) == 1.0
  }

  /** A calm environment on the first day of a weather table with no wind. */
  function CalmEnv(t: Functions): (e: OurRule.Env)
    requires t.exp(0.0) == 1.0
    ensures Calm(e) && e.t == t
  {
    OurRule.Env(t, seq(17, i => [0.0, 0.0, 0.0]), 0, 1.0, 0.0, 0.0)
  }

  /** In a one-row grid of two cells each cell's only neighbour is the other one, and it is adjacent. */
  lemma PairSums(h: Forest, term: (Offset, Cell) -> real)
    requires WellFormed(h) && h.width == 2 && h.height == 1
    ensures SumOver(h, 0, 0, Adjacent, term) == Contribution(h, 0, 0, (1, 0), term)
    ensures SumOver(h, 1, 0, Adjacent, term) == Contribution(h, 1, 0, (-1, 0), term)
    ensures SumOver(h, 0, 0, Diagonal, term) == 0.0
    ensures SumOver(h, 1, 0, Diagonal, term) == 0.0
  {
    SumOverSingle(h, 0, 0, Adjacent, term, 1);
    SumOverSingle(h, 1, 0, Adjacent, term, 3);
    SumOverZero(h, 0, 0, Diagonal, term);
    SumOverZero(h, 1, 0, Diagonal, term);
  }

  /** With the other cell unburnt, the cell at (0, 0) sees no fire front and its wind component is 0. */
  lemma FirstCellCalm(e: OurRule.Env, gust: bool, h: Forest)
    requires Calm(e) && WellFormed(h) && h.width == 2 && h.height == 1 && GetCell(h, 1, 0).state == 0.0
    ensures WindFactorCalculator.ComputeWindFactor(e.t, e.weather, e.steps, gust, h, 0, 0, e.c1, e.c2) == 0.0
  {
    PairSums(h, WindFactorCalculator.StateTerm);
  }

  /** With the other cell burning, the cell at (1, 0) sees the front at 90 degrees and, without wind, a wind component of 1. */
  lemma SecondCellWind(e: OurRule.Env, gust: bool, h: Forest)
    requires Calm(e) && WellFormed(h) && h.width == 2 && h.height == 1 && GetCell(h, 0, 0).state == 0.5
    ensures WindFactorCalculator.ComputeWindFactor(e.t, e.weather, e.steps, gust, h, 1, 0, e.c1, e.c2) == 1.0
  {
    PairSums(h, WindFactorCalculator.StateTerm);
    PairSums(h, WindFactorCalculator.AngleTerm);
    assert WindFactorCalculator.StateSum(h, 1, 0) == 0.5;
    assert WindFactorCalculator.AngleSum(h, 1, 0) == 45.0;
    assert WindFactorCalculator.FireDirection(h, 1, 0) == 90.0;
  }

  /** The rule on (0, 0) of the pair: the state damped by the deficit, 0.1, and the deficit dried to 0.4. */
  lemma FirstCellStep(e: OurRule.Env, gust: bool)
    requires Calm(e)
    ensures OurRule.Apply(e, gust, PairGrid(), 0, 0) == Success(OurRule.Stepped(0.1, 0.0, 0.4))
  {
    var h := PairGrid();
    FirstCellCalm(e, gust, h);
    PairSums(h, OurRule.AdjTermFn(GetCell(h, 0, 0), 0.0));
    PairSums(h, OurRule.DiagTermFn(GetCell(h, 0, 0), 0.0));
    assert OurRule.BaseTerm(GetCell(h, 0, 0), 1.0) == 0.1;
    assert OurRule.Spread(e, h, 0, 0, 0.0) == 0.1;
  }

  /**
   * The rule on an unburnt, dry (1, 0) whose neighbour (0, 0) burns at 0.5
   * with rate of spread 1: the neighbour's state damped by the neighbour's
   * current deficit d, that is 0.5 (1 - d), capped.
   */
  lemma SecondCellStep(e: OurRule.Env, gust: bool, h: Forest)
    requires Calm(e)
    requires WellFormed(h) && h.width == 2 && h.height == 1 && Fresh(GetCell(h, 1, 0))
    requires GetCell(h, 0, 0).state == 0.5 && GetCell(h, 0, 0).rateOfSpread == 1.0
    ensures OurRule.Apply(e, gust, h, 1, 0) ==
            Success(OurRule.Stepped(OurRule.Cap(0.5 * (1.0 - GetCell(h, 0, 0).rainDeficit)), 1.0, 0.0))
  {
    var d := GetCell(h, 0, 0).rainDeficit;
    SecondCellWind(e, gust, h);
    SecondCellSpread(e, h);
    assert OurRule.Burn(e, gust, h, 1, 0) == OurRule.Finish(GetCell(h, 1, 0), 1.0, 0.5 * (1.0 - d));
  }

  /** The value (1, 0) hands to the rain factor: its neighbour's damped state. */
  lemma SecondCellSpread(e: OurRule.Env, h: Forest)
    requires e.maxRos == 1.0 && WellFormed(h) && h.width == 2 && h.height == 1 && Fresh(GetCell(h, 1, 0))
    requires GetCell(h, 0, 0).state == 0.5 && GetCell(h, 0, 0).rateOfSpread == 1.0
    ensures OurRule.Spread(e, h, 1, 0, 1.0) == 0.5 * (1.0 - GetCell(h, 0, 0).rainDeficit)
  {
    SecondCellTerms(e.t, h);
    assert OurRule.Partial(e, h, 1, 0, 1.0) == 0.5 * (1.0 - GetCell(h, 0, 0).rainDeficit);
    SpreadWithoutDiagonal(e, h, 1, 0, 1.0);
  }

  /** Without a diagonal contribution the spread value is the partial value. */
  lemma SpreadWithoutDiagonal(e: OurRule.Env, h: Forest, x: int, y: int, wc: real)
    requires WellFormed(h) && InBounds(h, x, y) && e.maxRos != 0.0
    requires OurRule.DiagTerm(h, x, y, wc, e.t.pi, e.maxRos) == 0.0
    ensures OurRule.Spread(e, h, x, y, wc) == OurRule.Partial(e, h, x, y, wc)
  {
  }

  lemma SecondCellTerms(t: Functions, h: Forest)
    requires WellFormed(h) && h.width == 2 && h.height == 1 && Fresh(GetCell(h, 1, 0))
    requires GetCell(h, 0, 0).state == 0.5 && GetCell(h, 0, 0).rateOfSpread == 1.0
    ensures OurRule.AdjTerm(h, 1, 0, 1.0, 1.0) == 0.5 * (1.0 - GetCell(h, 0, 0).rainDeficit)
    ensures OurRule.DiagTerm(h, 1, 0, 1.0, t.pi, 1.0) == 0.0
    ensures OurRule.BaseTerm(GetCell(h, 1, 0), 1.0) == 0.0
  {
    PairSums(h, OurRule.AdjTermFn(GetCell(h, 1, 0), 1.0));
    PairSums(h, OurRule.DiagTermFn(GetCell(h, 1, 0), 1.0));
    SecondCellShare(h);
  }

  lemma SecondCellShare(h: Forest)
    requires WellFormed(h) && h.width == 2 && h.height == 1 && Fresh(GetCell(h, 1, 0))
    requires GetCell(h, 0, 0).state == 0.5 && GetCell(h, 0, 0).rateOfSpread == 1.0
    ensures Contribution(h, 1, 0, (-1, 0), OurRule.AdjTermFn(GetCell(h, 1, 0), 1.0)) == 0.5 * (1.0 - GetCell(h, 0, 0).rainDeficit)
  {
    assert Neighbour(h, 1, 0, (-1, 0)) == Some(GetCell(h, 0, 0));
    assert HeightFactor(GetCell(h, 1, 0), (-1, 0)) == 1.0;
  }

  /** The agent order of the pair: (0, 0), then (1, 0). */
  lemma PairOrder()
    ensures AgentOrder(2, 1) == [(0, 0), (1, 0)]
  {
    assert AgentOrder(0, 1) == [];
    assert AgentOrder(1, 1) == [(0, 0)];
  }

  /**
   * The step phase as the scheduler runs it lets (1, 0) read the deficit
   * (0, 0) wrote one turn earlier (0.4) and reach 0.3; the simultaneous
   * update reads the deficit of the snapshot (0.8) and reaches 0.1.
   */
  lemma RainDeficitLeaks(t: Functions, gusts: (int, int) -> bool)
    requires t.exp(0.0) == 1.0
    ensures StepPhase(Ours(CalmEnv(t), gusts), PairGrid(), AgentOrder(2, 1)).Success?
    ensures GetCell(StepPhase(Ours(CalmEnv(t), gusts), PairGrid(), AgentOrder(2, 1)).value, 1, 0).nextState == Some(0.3)
    ensures StepFrozen(Ours(CalmEnv(t), gusts), PairGrid(), PairGrid(), AgentOrder(2, 1)).Success?
    ensures GetCell(StepFrozen(Ours(CalmEnv(t), gusts), PairGrid(), PairGrid(), AgentOrder(2, 1)).value, 1, 0).nextState == Some(0.1)
  {
    PairOrder();
    SequentialPair(CalmEnv(t), gusts);
    FrozenPair(CalmEnv(t), gusts);
  }

  lemma SequentialPair(e: OurRule.Env, gusts: (int, int) -> bool)
    requires Calm(e)
    ensures StepPhase(Ours(e, gusts), PairGrid(), [(0, 0), (1, 0)]).Success?
    ensures GetCell(StepPhase(Ours(e, gusts), PairGrid(), [(0, 0), (1, 0)]).value, 1, 0).nextState == Some(0.3)
  {
    FirstCellStep(e, gusts(0, 0));
    FirstTurn(e, gusts);
    SecondTurn(e, gusts, AfterFirstTurn());
  }

  /** The grid after the first turn: (0, 0) has recorded 0.1 and dried its deficit to 0.4. */
  function AfterFirstTurn(): (g: Forest)
    ensures WellFormed(g) && g.width == 2 && g.height == 1 && Fresh(GetCell(g, 1, 0))
    ensures GetCell(g, 0, 0).state == 0.5 && GetCell(g, 0, 0).rateOfSpread == 1.0 && GetCell(g, 0, 0).rainDeficit == 0.4
  {
    var f := PairGrid();
    var g := SetCell(f, 0, 0, Write(GetCell(f, 0, 0), SetAll(0.1, 0.0, 0.4)));
    assert GetCell(g, 1, 0) == GetCell(f, 1, 0);
    g
  }

  lemma FirstTurn(e: OurRule.Env, gusts: (int, int) -> bool)
    requires Calm(e)
    requires Compute(Ours(e, gusts), PairGrid(), 0, 0) == Success(SetAll(0.1, 0.0, 0.4))
    ensures StepPhase(Ours(e, gusts), PairGrid(), [(0, 0), (1, 0)]) == StepPhase(Ours(e, gusts), AfterFirstTurn(), [(1, 0)])
  {
  }

  /** The second turn of the sequential step phase, after (0, 0) dried its deficit to 0.4. */
  lemma SecondTurn(e: OurRule.Env, gusts: (int, int) -> bool, g: Forest)
    requires Calm(e) && WellFormed(g) && g.width == 2 && g.height == 1 && Fresh(GetCell(g, 1, 0))
    requires GetCell(g, 0, 0).state == 0.5 && GetCell(g, 0, 0).rateOfSpread == 1.0 && GetCell(g, 0, 0).rainDeficit == 0.4
    ensures StepPhase(Ours(e, gusts), g, [(1, 0)]).Success?
    ensures GetCell(StepPhase(Ours(e, gusts), g, [(1, 0)]).value, 1, 0).nextState == Some(0.3)
  {
    SecondCellStep(e, gusts(1, 0), g);
    assert OurRule.Cap(0.5 * (1.0 - 0.4)) == 0.3;
    assert Compute(Ours(e, gusts), g, 1, 0) == Success(SetAll(0.3, 1.0, 0.0));
  }

  lemma FrozenPair(e: OurRule.Env, gusts: (int, int) -> bool)
    requires Calm(e)
    ensures StepFrozen(Ours(e, gusts), PairGrid(), PairGrid(), [(0, 0), (1, 0)]).Success?
    ensures GetCell(StepFrozen(Ours(e, gusts), PairGrid(), PairGrid(), [(0, 0), (1, 0)]).value, 1, 0).nextState == Some(0.1)
  {
    var f := PairGrid();
    var rule := Ours(e, gusts);
    FirstCellStep(e, gusts(0, 0));
    SecondCellStep(e, gusts(1, 0), f);
    assert OurRule.Cap(0.5 * (1.0 - 0.8)) == 0.1;
    assert Compute(rule, f, 1, 0) == Success(SetAll(0.1, 1.0, 0.0));
    var keys := [(0, 0), (1, 0)];
    assert keys[1] == (1, 0);
  }
}
