/**
 * `WindFactorCalculator`: the per-step wind multiplier of a cell, from the
 * weather row of the current day and the direction of the local fire front.
 */
module WindFactorCalculator {
  import opened Factors
  import opened ForestCell
  import opened Grid
  import opened Transcendental
  import opened Numerics

  /** The fixed angle label of each neighbour direction: adjacent 180, 270, 0, 90 and diagonal 135, 225, 315, 45. */
  function AngleLabel(o: Offset): (deg: real)
    ensures 0.0 <= deg <= 315.0
  {
    match o
    case (0, 1) => 180.0
    case (1, 0) => 270.0
    case (0, -1) => 0.0
    case (-1, 0) => 90.0
    case (-1, 1) => 135.0
    case (1, 1) => 225.0
    case (1, -1) => 315.0
    case (-1, -1) => 45.0
    case _ => 0.0
  }

  /** One neighbour's share of the weighted angle sum. */
  function AngleTerm(o: Offset, n: Cell): real {
    AngleLabel(o) * n.state
  }

  /** One neighbour's share of the weight. */
  function StateTerm(o: Offset, n: Cell): real {
    n.state
  }

  /** The label-weighted sum of in-grid neighbour states, adjacent loop first. */
  function AngleSum(f: Forest, x: int, y: int): real
    requires WellFormed(f)
  {
    SumOver(f, x, y, Adjacent, AngleTerm) + SumOver(f, x, y, Diagonal, AngleTerm)
  }

  /** The sum of in-grid neighbour states. */
  function StateSum(f: Forest, x: int, y: int): real
    requires WellFormed(f)
  {
    SumOver(f, x, y, Adjacent, StateTerm) + SumOver(f, x, y, Diagonal, StateTerm)
  }

  function ZeroTerm(o: Offset, n: Cell): real {
    0.0
  }

  /** `get_fire_direction`: the state-weighted mean of the labels, or -1 when no neighbour burns. */
  function FireDirection(f: Forest, x: int, y: int): (r: real)
    requires WellFormed(f)
    ensures StateSum(f, x, y) == 0.0 ==> r == -1.0
  {
    Mean(AngleSum(f, x, y), StateSum(f, x, y))
  }

  /** The division that ends `get_fire_direction`: -1 when the weight is 0, else the weighted mean. */
  function Mean(angleSum: real, stateSum: real): (r: real)
    ensures stateSum == 0.0 ==> r == -1.0
    ensures stateSum != 0.0 ==> r * stateSum == angleSum
    ensures stateSum > 0.0 && 0.0 <= angleSum <= 315.0 * stateSum ==> 0.0 <= r <= 315.0
  {
    if stateSum == 0.0 then -1.0
    else
      angleSum / stateSum
  }

  /**
   * With non-negative neighbour states the direction is -1 exactly when
   * no neighbour burns, and otherwise a mean of labels, so it lies in [0, 315].
   */
  lemma FireDirectionRange(f: Forest, x: int, y: int)
    requires WellFormed(f) && NeighboursNonNegative(f, x, y)
    ensures StateSum(f, x, y) >= 0.0
    ensures FireDirection(f, x, y) == -1.0 <==> StateSum(f, x, y) == 0.0
    ensures StateSum(f, x, y) > 0.0 ==> 0.0 <= FireDirection(f, x, y) <= 315.0
  {
    NeighbourBounds(f, x, y, Adjacent);
    NeighbourBounds(f, x, y, Diagonal);
  }

  /** Over one loop of neighbours: the weight is non-negative and bounds the angle sum between 0 and 315 times itself. */
  lemma NeighbourBounds(f: Forest, x: int, y: int, offs: seq<Offset>)
    requires WellFormed(f) && NeighboursNonNegative(f, x, y)
    requires forall o :: o in offs ==> o in Moore
    ensures SumOver(f, x, y, offs, StateTerm) >= 0.0
    ensures SumOver(f, x, y, offs, AngleTerm) <= 315.0 * SumOver(f, x, y, offs, StateTerm)
    ensures 0.0 <= SumOver(f, x, y, offs, AngleTerm)
  {
    forall i | 0 <= i < |offs|
      ensures InGrid(f, x, y, offs[i]) ==> GetCell(f, x + offs[i].0, y + offs[i].1).state >= 0.0
    {
      assert offs[i] in Moore;
    }
    StateSumBound(f, x, y, offs);
    AngleSumBound(f, x, y, offs);
  }

  /** The weight is non-negative when every listed neighbour's state is. */
  lemma StateSumBound(f: Forest, x: int, y: int, offs: seq<Offset>)
    requires WellFormed(f)
    requires forall i :: 0 <= i < |offs| ==> InGrid(f, x, y, offs[i]) ==> GetCell(f, x + offs[i].0, y + offs[i].1).state >= 0.0
    ensures SumOver(f, x, y, offs, StateTerm) >= 0.0
  {
    forall i | 0 <= i < |offs|
      ensures Contribution(f, x, y, offs[i], StateTerm) >= 0.0
    {
      OneNeighbourBounds(f, x, y, offs[i]);
    }
    SumOverNonNegative(f, x, y, offs, StateTerm);
  }

  /** The angle sum lies between 0 and 315 times the weight when every listed neighbour's state is non-negative. */
  lemma AngleSumBound(f: Forest, x: int, y: int, offs: seq<Offset>)
    requires WellFormed(f)
    requires forall i :: 0 <= i < |offs| ==> InGrid(f, x, y, offs[i]) ==> GetCell(f, x + offs[i].0, y + offs[i].1).state >= 0.0
    ensures SumOver(f, x, y, offs, AngleTerm) <= 315.0 * SumOver(f, x, y, offs, StateTerm)
    ensures 0.0 <= SumOver(f, x, y, offs, AngleTerm)
  {
    forall i | 0 <= i < |offs|
      ensures Contribution(f, x, y, offs[i], AngleTerm) <= 315.0 * Contribution(f, x, y, offs[i], StateTerm)
      ensures Contribution(f, x, y, offs[i], ZeroTerm) <= 1.0 * Contribution(f, x, y, offs[i], AngleTerm)
    {
      OneNeighbourBounds(f, x, y, offs[i]);
    }
    SumOverScaledBound(f, x, y, offs, AngleTerm, StateTerm, 315.0);
    SumOverScaledBound(f, x, y, offs, ZeroTerm, AngleTerm, 1.0);
    SumOverZero(f, x, y, offs, ZeroTerm);
  }

  lemma OneNeighbourBounds(f: Forest, x: int, y: int, o: Offset)
    requires WellFormed(f)
    requires InGrid(f, x, y, o) ==> GetCell(f, x + o.0, y + o.1).state >= 0.0
    ensures Contribution(f, x, y, o, StateTerm) >= 0.0
    ensures Contribution(f, x, y, o, AngleTerm) <= 315.0 * Contribution(f, x, y, o, StateTerm)
    ensures Contribution(f, x, y, o, ZeroTerm) <= 1.0 * Contribution(f, x, y, o, AngleTerm)
  {
    if InGrid(f, x, y, o) {
      var s := GetCell(f, x + o.0, y + o.1).state;
      var l := AngleLabel(o);
      assert l * s <= 315.0 * s by {
        assert (315.0 - l) * s >= 0.0;
      }
      assert 0.0 <= l * s;
    }
  }

  /** Python's `x % 360` for x >= 0: the remainder of floored division by a full turn. */
  function Mod360(x: real): (r: real)
    requires x >= 0.0
    ensures 0.0 <= r < 360.0
    ensures exists k: int :: x == r + Turns(k)
  {
    x - Turns((x / 360.0).Floor)
  }

  /** k whole turns, in degrees. */
  function Turns(k: int): real {
    360.0 * k as real
  }

  /**
   * The angle between the wind and the fire front: `abs(w - f) % 360`,
   * folded into [0, 180]. It is the circular distance between the two
   * directions: w - f or f - w, up to whole turns.
   */
  function AngleDifference(wind: real, fire: real): (r: real)
    ensures 0.0 <= r <= 180.0
    ensures exists k: int :: r == (wind - fire) + Turns(k) || r == (fire - wind) + Turns(k)
  {
    var d := Mod360(Abs(wind - fire));
    var k: int :| Abs(wind - fire) == d + Turns(k);
    if d > 180.0 then
      assert 360.0 - d == (wind - fire) + Turns(1 + k) || 360.0 - d == (fire - wind) + Turns(1 + k);
      360.0 - d
    else
      assert d == (wind - fire) + Turns(-k) || d == (fire - wind) + Turns(-k);
      d
  }

  /** The weather row of the current day: `16 + steps // 5`. */
  function WeatherRow(steps: nat): (row: nat)
    ensures row >= 16
    ensures (row - 16) * 5 <= steps < (row - 16) * 5 + 5
  {
    16 + steps / 5
  }

  /** The weather table has the current day's row with gust speed, sustained speed and angle. */
  predicate WeatherCovers(weather: seq<seq<real>>, steps: nat) {
    WeatherRow(steps) < |weather| && |weather[WeatherRow(steps)]| >= 3
  }

  /** The sampled wind speed in m/s: the gust speed on a gust, the sustained speed otherwise (both km/h). */
  function WindSpeed(weather: seq<seq<real>>, steps: nat, gust: bool): real
    requires WeatherCovers(weather, steps)
  {
    var row := weather[WeatherRow(steps)];
    (if gust then row[0] else row[1]) / 3.6
  }

  /**
   * `compute_wind_factor` with the coefficients c1 and c2 as parameters:
   * 0 when no neighbour burns, otherwise
   * exp(c1 * speed) * exp(speed * c2 * (cos(radians(angle difference)) - 1)).
   */
  function ComputeWindFactor(t: Functions, weather: seq<seq<real>>, steps: nat, gust: bool,
                             f: Forest, x: int, y: int, c1: real, c2: real): (r: real)
    requires WellFormed(f) && WeatherCovers(weather, steps)
    ensures FireDirection(f, x, y) == -1.0 ==> r == 0.0
    ensures Sane(t) ==> r >= 0.0
    ensures Sane(t) && FireDirection(f, x, y) != -1.0 ==> r > 0.0
  {
    var speed := WindSpeed(weather, steps, gust);
    var fire := FireDirection(f, x, y);
    if fire == -1.0 then 0.0
    else
      var d := AngleDifference(weather[WeatherRow(steps)][2], fire);
      var ft := t.exp(speed * c2 * (t.cos(Radians(t, d)) - 1.0));
      var r := t.exp(c1 * speed) * ft;
      assert Sane(t) ==> r > 0.0 by {
        if Sane(t) {
          assert t.exp(c1 * speed) > 0.0 && ft > 0.0;
        }
      }
      r
  }

  /** The coefficients the two-parameter `compute_wind_factor` hard-codes. */
  const DefaultC1: real := 0.25
  const DefaultC2: real := 0.75
}
