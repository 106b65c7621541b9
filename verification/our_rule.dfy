/**
 * `OurRule`: the project's own propagation rule. A flammable cell that is not
 * burnt out takes its own damped state plus wind-, slope- and
 * moisture-weighted contributions of its adjacent neighbours, then of its
 * diagonal neighbours while the running value is below 1; rain then acts on
 * the value, and the result is snapped to 0 below 0.001 and capped at 1.
 * Besides the next state, the rule writes the cell's wind component and
 * rain deficit.
 */
module OurRule {
  import opened Wrappers
  import opened Factors
  import opened ForestCell
  import opened Grid
  import opened Transcendental
  import opened Numerics
  import WindFactorCalculator
  import RainFactorCalculator

  /**
   * What the rule sees besides the grid: the transcendentals, the weather
   * table, the scheduler's step count, the grid's maximum rate of spread and
   * the wind coefficients c1 and c2.
   */
  datatype Env = Env(t: Functions, weather: seq<seq<real>>, steps: nat, maxRos: real, c1: real, c2: real)

  /** The weather table has a row for the current day. */
  predicate Covers(e: Env) {
    WindFactorCalculator.WeatherCovers(e.weather, e.steps)
  }

  /** The rule's result for one cell: its next state and the new values of the two fields it writes. */
  datatype Stepped = Stepped(next: real, windComponent: real, rainDeficit: real)

  /** An adjacent neighbour's share: wind component, height factor, rate of spread, moisture and state multiplied. */
  function AdjTermFn(c: Cell, wc: real): (Offset, Cell) -> real {
    (o: Offset, n: Cell) => if IsOffset(o) then AdjShare(c, o, n, wc) else 0.0
  }

  /** The share of the adjacent neighbour n at offset o of the cell c. */
  function AdjShare(c: Cell, o: Offset, n: Cell, wc: real): real
    requires IsOffset(o)
  {
    wc * HeightFactor(c, o) * n.rateOfSpread * (1.0 - n.rainDeficit) * n.state
  }

  /** A diagonal neighbour's share: as for an adjacent one, with the rate of spread squared. */
  function DiagTermFn(c: Cell, wc: real): (Offset, Cell) -> real {
    (o: Offset, n: Cell) => if IsOffset(o) then DiagShare(c, o, n, wc) else 0.0
  }

  /** The share of the diagonal neighbour n at offset o of the cell c. */
  function DiagShare(c: Cell, o: Offset, n: Cell, wc: real): real
    requires IsOffset(o)
  {
    wc * HeightFactor(c, o) * (n.rateOfSpread * n.rateOfSpread) * (1.0 - n.rainDeficit) * n.state
  }

  /** `calculate_adj_term`: the adjacent shares over max_ros. */
  function AdjTerm(f: Forest, x: int, y: int, wc: real, maxRos: real): (r: real)
    requires WellFormed(f) && InBounds(f, x, y) && maxRos != 0.0
    ensures maxRos > 0.0 && SumOver(f, x, y, Adjacent, AdjTermFn(GetCell(f, x, y), wc)) >= 0.0 ==> r >= 0.0
  {
    SumOver(f, x, y, Adjacent, AdjTermFn(GetCell(f, x, y), wc)) / maxRos
  }

  /** `calculate_diag_term`: the diagonal shares times pi / (4 max_ros^2). */
  function DiagTerm(f: Forest, x: int, y: int, wc: real, pi: real, maxRos: real): (r: real)
    requires WellFormed(f) && InBounds(f, x, y) && maxRos != 0.0
    ensures pi >= 0.0 && maxRos > 0.0 && SumOver(f, x, y, Diagonal, DiagTermFn(GetCell(f, x, y), wc)) >= 0.0 ==> r >= 0.0
  {
    SumOver(f, x, y, Diagonal, DiagTermFn(GetCell(f, x, y), wc)) * DiagonalScale(pi, maxRos)
  }

  /**
   * With a single lit neighbour, adjacent at Adjacent[k], the adjacent term
   * is that neighbour's share over max_ros: the wind component times the
   * height factor towards it times its rate of spread, moisture and state.
   */
  lemma OneNeighbourAdjTerm(f: Forest, x: int, y: int, wc: real, maxRos: real, k: int)
    requires WellFormed(f) && InBounds(f, x, y) && maxRos != 0.0 && 0 <= k < 4
    requires OnlyNeighbourLit(f, x, y, Adjacent[k])
    ensures AdjTerm(f, x, y, wc, maxRos) ==
              AdjShare(GetCell(f, x, y), Adjacent[k], GetCell(f, x + Adjacent[k].0, y + Adjacent[k].1), wc) / maxRos
  {
    OneNeighbourAdjSum(f, x, y, wc, k);
  }

  /** With a single lit adjacent neighbour, the adjacent sum is that neighbour's share. */
  lemma OneNeighbourAdjSum(f: Forest, x: int, y: int, wc: real, k: int)
    requires WellFormed(f) && InBounds(f, x, y) && 0 <= k < 4
    requires OnlyNeighbourLit(f, x, y, Adjacent[k])
    ensures SumOver(f, x, y, Adjacent, AdjTermFn(GetCell(f, x, y), wc)) ==
              Contribution(f, x, y, Adjacent[k], AdjTermFn(GetCell(f, x, y), wc))
  {
    var term := AdjTermFn(GetCell(f, x, y), wc);
    forall i | 0 <= i < 4 && i != k
      ensures Contribution(f, x, y, Adjacent[i], term) == 0.0
    {
      UnlitShareVanishes(f, x, y, GetCell(f, x, y), wc, Adjacent[k], Adjacent[i]);
    }
    SumOverSingle(f, x, y, Adjacent, term, k);
  }

  /**
   * With a single lit neighbour, diagonal at Diagonal[k], the diagonal term
   * is that neighbour's share, with its rate of spread squared, times
   * pi / (4 max_ros ** 2).
   */
  lemma OneNeighbourDiagTerm(f: Forest, x: int, y: int, wc: real, pi: real, maxRos: real, k: int)
    requires WellFormed(f) && InBounds(f, x, y) && maxRos != 0.0 && 0 <= k < 4
    requires OnlyNeighbourLit(f, x, y, Diagonal[k])
    ensures DiagTerm(f, x, y, wc, pi, maxRos) ==
              DiagShare(GetCell(f, x, y), Diagonal[k], GetCell(f, x + Diagonal[k].0, y + Diagonal[k].1), wc) * DiagonalScale(pi, maxRos)
  {
    OneNeighbourDiagSum(f, x, y, wc, k);
  }

  /** With a single lit diagonal neighbour, the diagonal sum is that neighbour's share. */
  lemma OneNeighbourDiagSum(f: Forest, x: int, y: int, wc: real, k: int)
    requires WellFormed(f) && InBounds(f, x, y) && 0 <= k < 4
    requires OnlyNeighbourLit(f, x, y, Diagonal[k])
    ensures SumOver(f, x, y, Diagonal, DiagTermFn(GetCell(f, x, y), wc)) ==
              Contribution(f, x, y, Diagonal[k], DiagTermFn(GetCell(f, x, y), wc))
  {
    var term := DiagTermFn(GetCell(f, x, y), wc);
    forall i | 0 <= i < 4 && i != k
      ensures Contribution(f, x, y, Diagonal[i], term) == 0.0
    {
      UnlitShareVanishes(f, x, y, GetCell(f, x, y), wc, Diagonal[k], Diagonal[i]);
    }
    SumOverSingle(f, x, y, Diagonal, term, k);
  }

  /** An unburnt neighbour other than the lit one adds nothing to either sum. */
  lemma UnlitShareVanishes(f: Forest, x: int, y: int, c: Cell, wc: real, lit: Offset, o: Offset)
    requires WellFormed(f) && OnlyNeighbourLit(f, x, y, lit)
    requires (o in Adjacent || o in Diagonal) && o != lit
    ensures Contribution(f, x, y, o, AdjTermFn(c, wc)) == 0.0
    ensures Contribution(f, x, y, o, DiagTermFn(c, wc)) == 0.0
  {
    assert o in Moore;
  }

  /** The cell's own contribution: its state damped by its rate of spread over max_ros and by its moisture. */
  function BaseTerm(c: Cell, maxRos: real): (r: real)
    requires maxRos != 0.0
    ensures maxRos > 0.0 && c.state >= 0.0 && c.rateOfSpread >= 0.0 && c.rainDeficit <= 1.0 ==> r >= 0.0
  {
    c.rateOfSpread * (1.0 - c.rainDeficit) / maxRos * c.state
  }

  /** The value before the diagonal term: the base term plus the adjacent term. */
  function Partial(e: Env, f: Forest, x: int, y: int, wc: real): real
    requires WellFormed(f) && InBounds(f, x, y) && e.maxRos != 0.0
  {
    BaseTerm(GetCell(f, x, y), e.maxRos) + AdjTerm(f, x, y, wc, e.maxRos)
  }

  /** The value handed to the rain factor: the diagonal term joins only while the partial value is below 1. */
  function Spread(e: Env, f: Forest, x: int, y: int, wc: real): (r: real)
    requires WellFormed(f) && InBounds(f, x, y) && e.maxRos != 0.0
    ensures Partial(e, f, x, y, wc) >= 1.0 ==> r == Partial(e, f, x, y, wc)
    ensures Partial(e, f, x, y, wc) < 1.0 ==> r == Partial(e, f, x, y, wc) + DiagTerm(f, x, y, wc, e.t.pi, e.maxRos)
  {
    var p := Partial(e, f, x, y, wc);
    if p < 1.0 then p + DiagTerm(f, x, y, wc, e.t.pi, e.maxRos) else p
  }

  /** The final cap: a value strictly between 0 and 0.001 becomes 0, and nothing exceeds 1. */
  function Cap(v: real): (r: real)
    ensures r <= 1.0
    ensures 0.0 < v < 0.001 ==> r == 0.0
    ensures !(0.0 < r < 0.001)
    ensures v >= 0.0 ==> r >= 0.0
    ensures (v <= 0.0 || 0.001 <= v <= 1.0) ==> r == v
    ensures v >= 1.0 ==> r == 1.0
  {
    if 0.0 < v < 0.001 then 0.0 else Min(1.0, v)
  }

  /**
   * `apply` with the wind call made as evidently intended, passing c1 and c2.
   * `gust` is the outcome of the random gust draw. Dividing by a max_ros of 0
   * raises ZeroDivisionError.
   */
  function Apply(e: Env, gust: bool, f: Forest, x: int, y: int): (r: Result<Stepped>)
    requires WellFormed(f) && InBounds(f, x, y) && Covers(e)
    ensures var c := GetCell(f, x, y);
            Terminal(c) ==> r == Success(Stepped(c.state, c.windComponent, c.rainDeficit))
    ensures !Terminal(GetCell(f, x, y)) ==> (r.Failure? <==> e.maxRos == 0.0)
    ensures r.Failure? ==> r.error == ZeroDivisionError
    ensures !Terminal(GetCell(f, x, y)) && r.Success? ==> r.value.next <= 1.0 && !(0.0 < r.value.next < 0.001)
    ensures !Terminal(GetCell(f, x, y)) && r.Success? ==>
              r.value.windComponent == WindFactorCalculator.ComputeWindFactor(e.t, e.weather, e.steps, gust, f, x, y, e.c1, e.c2)
    ensures !Terminal(GetCell(f, x, y)) && r.Success? && 0.0 <= GetCell(f, x, y).rainDeficit <= 0.8 ==>
              0.0 <= r.value.rainDeficit <= 0.8
  {
    var c := GetCell(f, x, y);
    if Terminal(c) then Success(Stepped(c.state, c.windComponent, c.rainDeficit))
    else if e.maxRos == 0.0 then Failure(ZeroDivisionError)
    else Success(Burn(e, gust, f, x, y))
  }

  /** The rule on a cell past the terminal check: wind, spread, rain, then the cap. */
  function Burn(e: Env, gust: bool, f: Forest, x: int, y: int): (s: Stepped)
    requires WellFormed(f) && InBounds(f, x, y) && Covers(e) && e.maxRos != 0.0
    ensures s.next <= 1.0 && !(0.0 < s.next < 0.001)
    ensures s.windComponent == WindFactorCalculator.ComputeWindFactor(e.t, e.weather, e.steps, gust, f, x, y, e.c1, e.c2)
    ensures 0.0 <= GetCell(f, x, y).rainDeficit <= 0.8 ==> 0.0 <= s.rainDeficit <= 0.8
  {
    var wc := WindFactorCalculator.ComputeWindFactor(e.t, e.weather, e.steps, gust, f, x, y, e.c1, e.c2);
    Finish(GetCell(f, x, y), wc, Spread(e, f, x, y, wc))
  }

  /** The last two stages on the spread value v: the rain factor of the cell, then the cap. */
  function Finish(c: Cell, wc: real, v: real): (s: Stepped)
    ensures s.next <= 1.0 && !(0.0 < s.next < 0.001)
    ensures s.windComponent == wc
    ensures 0.0 <= c.rainDeficit <= 0.8 ==> 0.0 <= s.rainDeficit <= 0.8
    ensures v >= 0.0 ==> s.next >= 0.0
  {
    var rained := RainFactorCalculator.ComputeRainFactor(c.rain, c.rainDeficit, v);
    if v >= 0.0 then
      RainFactorCalculator.RainNeverRaisesState(c.rain, c.rainDeficit, v);
      Stepped(Cap(rained.state), wc, rained.deficit)
    else
      Stepped(Cap(rained.state), wc, rained.deficit)
  }

  /**
   * `apply` as written: `compute_wind_factor` takes (model, cell) but is
   * called with four arguments, so every cell that gets past the terminal
   * check raises a TypeError.
   */
  function ApplyAsWritten(e: Env, f: Forest, x: int, y: int): (r: Result<Stepped>)
    requires WellFormed(f) && InBounds(f, x, y)
    ensures r.Failure? <==> !Terminal(GetCell(f, x, y))
    ensures r.Failure? ==> r.error == TypeError
    ensures r.Success? ==> r.value.next == GetCell(f, x, y).state
  {
    var c := GetCell(f, x, y);
    if Terminal(c) then Success(Stepped(c.state, c.windComponent, c.rainDeficit))
    else Failure(TypeError)
  }

  /** The two versions agree exactly on the cells the rule leaves alone. */
  lemma AsWrittenAgreesOnTerminalCells(e: Env, gust: bool, f: Forest, x: int, y: int)
    requires WellFormed(f) && InBounds(f, x, y) && Covers(e)
    ensures ApplyAsWritten(e, f, x, y).Success? <==> Terminal(GetCell(f, x, y))
    ensures Terminal(GetCell(f, x, y)) ==> ApplyAsWritten(e, f, x, y) == Apply(e, gust, f, x, y)
  {
  }

  /** With max_ros the grid maximum and non-negative rates of spread, the rule never divides by zero. */
  lemma NoDivisionByZero(e: Env, gust: bool, f: Forest, x: int, y: int)
    requires WellFormed(f) && InBounds(f, x, y) && Covers(e)
    requires IsMaxRos(f, e.maxRos) && GetCell(f, x, y).rateOfSpread >= 0.0
    ensures Apply(e, gust, f, x, y).Success?
  {
    if !Terminal(GetCell(f, x, y)) {
      MaxRosPositive(f, e.maxRos, x, y);
    }
  }

  /** The neighbours carry non-negative states and rates of spread and deficits of at most 1. */
  predicate NeighbourhoodSane(f: Forest, x: int, y: int)
    requires WellFormed(f)
  {
    forall o :: o in Moore && InGrid(f, x, y, o) ==>
      var n := GetCell(f, x + o.0, y + o.1);
      n.state >= 0.0 && n.rateOfSpread >= 0.0 && n.rainDeficit <= 1.0
  }

  /** The cell's own fields and height factors are non-negative and its deficit is at most 1. */
  predicate CellSane(c: Cell) {
    c.state >= 0.0 && c.rateOfSpread >= 0.0 && c.rainDeficit <= 1.0 && NonNegative(c.heightFactors)
  }

  lemma ProductNonNegative(a: real, b: real, c: real, d: real, e: real)
    requires a >= 0.0 && b >= 0.0 && c >= 0.0 && d >= 0.0 && e >= 0.0
    ensures a * b * c * d * e >= 0.0
  {
    assert a * b >= 0.0;
    assert a * b * c >= 0.0;
    assert a * b * c * d >= 0.0;
  }

  /** With a non-negative wind component every neighbour's share, adjacent or diagonal, is non-negative. */
  lemma SharesNonNegative(f: Forest, x: int, y: int, wc: real, o: Offset)
    requires WellFormed(f) && InBounds(f, x, y) && CellSane(GetCell(f, x, y)) && NeighbourhoodSane(f, x, y)
    requires wc >= 0.0 && o in Moore
    ensures Contribution(f, x, y, o, AdjTermFn(GetCell(f, x, y), wc)) >= 0.0
    ensures Contribution(f, x, y, o, DiagTermFn(GetCell(f, x, y), wc)) >= 0.0
  {
    var c := GetCell(f, x, y);
    if InGrid(f, x, y, o) {
      var n := GetCell(f, x + o.0, y + o.1);
      assert IsOffset(o);
      assert HeightFactor(c, o) >= 0.0;
      ProductNonNegative(wc, HeightFactor(c, o), n.rateOfSpread, 1.0 - n.rainDeficit, n.state);
      assert n.rateOfSpread * n.rateOfSpread >= 0.0;
      ProductNonNegative(wc, HeightFactor(c, o), n.rateOfSpread * n.rateOfSpread, 1.0 - n.rainDeficit, n.state);
    }
  }

  /** Under the same conditions the value handed to the rain factor is non-negative. */
  lemma SpreadNonNegative(e: Env, f: Forest, x: int, y: int, wc: real)
    requires WellFormed(f) && InBounds(f, x, y) && e.maxRos > 0.0
    requires CellSane(GetCell(f, x, y)) && NeighbourhoodSane(f, x, y)
    requires wc >= 0.0 && e.t.pi > 0.0
    ensures Spread(e, f, x, y, wc) >= 0.0
  {
    TermsNonNegative(f, x, y, wc);
    var p := Partial(e, f, x, y, wc);
    var d := DiagTerm(f, x, y, wc, e.t.pi, e.maxRos);
    assert p >= 0.0 && d >= 0.0;
  }

  /** Both neighbour sums are non-negative. */
  lemma TermsNonNegative(f: Forest, x: int, y: int, wc: real)
    requires WellFormed(f) && InBounds(f, x, y)
    requires CellSane(GetCell(f, x, y)) && NeighbourhoodSane(f, x, y) && wc >= 0.0
    ensures SumOver(f, x, y, Adjacent, AdjTermFn(GetCell(f, x, y), wc)) >= 0.0
    ensures SumOver(f, x, y, Diagonal, DiagTermFn(GetCell(f, x, y), wc)) >= 0.0
  {
    var c := GetCell(f, x, y);
    forall i | 0 <= i < 4
      ensures Contribution(f, x, y, Adjacent[i], AdjTermFn(c, wc)) >= 0.0
      ensures Contribution(f, x, y, Diagonal[i], DiagTermFn(c, wc)) >= 0.0
    {
      SharesNonNegative(f, x, y, wc, Adjacent[i]);
      SharesNonNegative(f, x, y, wc, Diagonal[i]);
    }
    SumOverNonNegative(f, x, y, Adjacent, AdjTermFn(c, wc));
    SumOverNonNegative(f, x, y, Diagonal, DiagTermFn(c, wc));
  }

  /**
   * With sane transcendentals, non-negative factors, states and rates, and
   * deficits of at most 1, the next state lies in [0, 1].
   */
  lemma ApplyInUnitInterval(e: Env, gust: bool, f: Forest, x: int, y: int)
    requires WellFormed(f) && InBounds(f, x, y) && Covers(e) && Sane(e.t) && e.maxRos > 0.0
    requires CellSane(GetCell(f, x, y)) && NeighbourhoodSane(f, x, y)
    requires GetCell(f, x, y).state <= 1.0
    ensures Apply(e, gust, f, x, y).Success?
    ensures 0.0 <= Apply(e, gust, f, x, y).value.next <= 1.0
  {
    var c := GetCell(f, x, y);
    if !Terminal(c) {
      var wc := WindFactorCalculator.ComputeWindFactor(e.t, e.weather, e.steps, gust, f, x, y, e.c1, e.c2);
      SpreadNonNegative(e, f, x, y, wc);
      RainFactorCalculator.RainNeverRaisesState(c.rain, c.rainDeficit, Spread(e, f, x, y, wc));
    }
  }

  /**
   * A cell whose own and adjacent terms already reach 1 burns out when the
   * rain is at most 2: the diagonal term is skipped and rain that light does
   * not suppress.
   */
  lemma SaturatedCellBurnsOut(e: Env, gust: bool, f: Forest, x: int, y: int)
    requires WellFormed(f) && InBounds(f, x, y) && Covers(e) && e.maxRos != 0.0
    requires !Terminal(GetCell(f, x, y)) && GetCell(f, x, y).rain <= 2.0
    requires Partial(e, f, x, y, WindFactorCalculator.ComputeWindFactor(e.t, e.weather, e.steps, gust, f, x, y, e.c1, e.c2)) >= 1.0
    ensures Apply(e, gust, f, x, y).Success? && Apply(e, gust, f, x, y).value.next == 1.0
  {
  }
}
