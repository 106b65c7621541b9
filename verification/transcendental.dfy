/**
 * The floating-point transcendentals the simulator calls (`math.exp`,
 * `math.atan`, `math.cos` and the constant `math.pi`). They are not
 * interpreted: every member that needs them takes them as a parameter, and
 * only the sign facts collected in `Sane` are ever assumed about them.
 */
module Transcendental {

  datatype Functions = Functions(
    exp: real -> real,
    atan: real -> real,
    cos: real -> real,
    pi: real)

  /** The only facts assumed: pi is positive and exp never returns a non-positive value. */
  ghost predicate Sane(t: Functions) {
    t.pi > 0.0 && forall v :: t.exp(v) > 0.0
  }

  /** `math.radians`: degrees to radians. */
  function Radians(t: Functions, degrees: real): real {
    degrees * t.pi / 180.0
  }
}
