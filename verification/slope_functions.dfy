/**
 * `SlopeFunctions`: multipliers for the effect of terrain slope on spread,
 * as functions of a height difference in metres.
 */
module SlopeFunctions {
  import opened Transcendental
  import Grid

  /**
   * `h(value, a, b)`: 1 on flat ground, falling linearly to 0 at a drop of 50,
   * a parabola peaking at 2 for rises, and 0 outside (-50, 50).
   */
  function H(value: real): (r: real)
    ensures value <= -50.0 || value >= 50.0 ==> r == 0.0
    ensures 0.0 <= value < 50.0 ==> r == 1.0 - value / 50.0 && 0.0 < r <= 1.0
    ensures -50.0 < value < 0.0 ==> r <= 2.0
    ensures -41.42 <= value < 0.0 ==> 1.0 <= r
  {
    if value <= -50.0 || value >= 50.0 then 0.0
    else if value < 0.0 then
      var u := value / 20.71 + 1.0;
      assert -41.42 <= value ==> -1.0 <= u <= 1.0 && u * u <= 1.0 by {
        if -1.0 <= u <= 1.0 {
          if u >= 0.0 { assert u * u <= u * 1.0; } else { assert u * u <= (-u) * 1.0; }
        }
      }
      2.0 - u * u
    else -(value / 50.0) + 1.0
  }

  /** Flat ground is neutral. */
  lemma HFlat()
    ensures H(0.0) == 1.0
  {
  }

  /**
   * The parabola's constant 20.71 rounds 50 / (1 + sqrt 2), so the curve
   * crosses 0 just inside -50 and h is slightly negative there.
   */
  lemma HDipsBelowZeroNearMinus50()
    ensures H(-49.999) < 0.0
    ensures H(-50.0) == 0.0
  {
  }

  /**
   * `h2(value, a, b)` as written: the argument is negated, the result is 0
   * when |value| >= 100, rises from 0 to 1 on (-100, 0], from 1 to 2 on
   * (0, 50], and on (50, 100) uses (-2/50)(v - 2) + 2.
   */
  function H2(value: real): (r: real)
    ensures value <= -100.0 || value >= 100.0 ==> r == 0.0
    ensures -100.0 < -value <= 0.0 ==> 0.0 < r <= 1.0
    ensures 0.0 < -value <= 50.0 ==> 1.0 < r <= 2.0
    ensures 50.0 < -value < 100.0 ==> r < 0.08
    ensures 52.0 < -value < 100.0 ==> r < 0.0
  {
    var v := -value;
    if v <= -100.0 || v >= 100.0 then 0.0
    else if v <= 0.0 then (1.0 / 100.0) * v + 1.0
    else if v <= 50.0 then (1.0 / 50.0) * v + 1.0
    else (-2.0 / 50.0) * (v - 2.0) + 2.0
  }

  /** The last branch of h2 as written jumps from 2 down to 0.04 between -50 and -51, and is negative beyond -52. */
  lemma H2JumpsAtFifty()
    ensures H2(-50.0) == 2.0
    ensures H2(-51.0) == 0.04
    ensures H2(-52.0) == 0.0
    ensures H2(-60.0) < 0.0
  {
  }

  /**
   * h2 with the last branch anchored at 50 instead of 2: it falls from 2 at
   * 50 to 0 at 100, meeting both neighbouring branches.
   */
  function H2Corrected(value: real): (r: real)
    ensures 0.0 <= r <= 2.0
    ensures -100.0 < -value <= 50.0 ==> r == H2(value)
  {
    var v := -value;
    if v <= -100.0 || v >= 100.0 then 0.0
    else if v <= 0.0 then (1.0 / 100.0) * v + 1.0
    else if v <= 50.0 then (1.0 / 50.0) * v + 1.0
    else (-2.0 / 50.0) * (v - 50.0) + 2.0
  }

  /** The corrected h2 is continuous: it never moves faster than 1/25 per metre. */
  lemma H2CorrectedIsContinuous(u: real, w: real)
    ensures u <= w ==> H2Corrected(u) - H2Corrected(w) <= (w - u) / 25.0
    ensures u <= w ==> H2Corrected(w) - H2Corrected(u) <= (w - u) / 25.0
  {
  }

  /** The h2 as written is not: two heights 1 metre apart differ by 1.96. */
  lemma H2IsDiscontinuous()
    ensures H2(-50.0) - H2(-51.0) > (-50.0 - -51.0) / 25.0
  {
    H2JumpsAtFifty();
  }

  /** The path length of a neighbour direction: 656 horizontally, 812 vertically, 1044 diagonally. */
  function PathLength(a: int, b: int): (r: real)
    ensures r == 656.0 <==> a != 0 && b == 0
    ensures r == 812.0 <==> a == 0 && b != 0
    ensures r == 1044.0 <==> !(a != 0 && b == 0) && !(a == 0 && b != 0)
    ensures r > 0.0
  {
    if a != 0 && b == 0 then 656.0
    else if a == 0 && b != 0 then 812.0
    else 1044.0
  }

  /**
   * `slope_h2(value, a, b, alpha)`: exp(alpha * atan(-value / length)),
   * with the length chosen by direction.
   */
  function SlopeH2(t: Functions, value: real, a: int, b: int, alpha: real): (r: real)
    ensures Sane(t) ==> r > 0.0
  {
    t.exp(alpha * t.atan(-value / PathLength(a, b)))
  }

  /** `slope_h2` as handed to `update_height_factor`: it declares four parameters. */
  function SlopeH2Function(t: Functions): (s: Grid.SlopeFunction)
    ensures s.arity == 4
    ensures forall v, a, b, alpha :: s.phi(v, a, b, alpha) == SlopeH2(t, v, a, b, alpha)
  {
    Grid.SlopeFunction(4, (v, a, b, alpha) => SlopeH2(t, v, a, b, alpha))
  }
}
