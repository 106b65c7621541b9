/** Python's `min`, `max` and `abs` on floats, as functions on reals. */
module Numerics {

  function Min(a: real, b: real): real { if a <= b then a else b }

  function MinInt(a: int, b: int): int { if a <= b then a else b }

  function Max(a: real, b: real): real { if a >= b then a else b }

  function Abs(v: real): real { if v < 0.0 then -v else v }

  /**
   * The diagonal scale pi / (4 max_ros ** 2), computed as pi / 4 / max_ros / max_ros:
   * the same real number, in a form whose sign the solver sees directly.
   */
  function DiagonalScale(pi: real, maxRos: real): (r: real)
    requires maxRos != 0.0
    ensures pi >= 0.0 && maxRos > 0.0 ==> r >= 0.0
  {
    pi / 4.0 / maxRos / maxRos
  }

  /** The diagonal scale is pi over four times the square of max_ros: multiplied back by 4 max_ros ** 2 it gives pi. */
  lemma DiagonalScaleIsQuarterPiOverSquare(pi: real, maxRos: real)
    requires maxRos != 0.0
    ensures DiagonalScale(pi, maxRos) * (4.0 * (maxRos * maxRos)) == pi
  {
    var d := pi / 4.0 / maxRos;
    assert (d / maxRos) * maxRos == d;
    assert d * maxRos == pi / 4.0;
    assert (d / maxRos) * (4.0 * (maxRos * maxRos)) == 4.0 * (((d / maxRos) * maxRos) * maxRos);
  }
}
