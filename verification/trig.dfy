/**
 * Exact real-number stand-ins for the floating-point circle functions.
 * pi, cos and sin are not computable in Dafny's reals, so they are carried as a value
 * whose validity (pi within its known bounds, cos^2 + sin^2 = 1) every geometric
 * operation requires of its caller.
 */
module Trig {

  /** The mathematics library the geometry code calls: pi, cos and sin. */
  datatype MathLib = MathLib(pi: real, cos: real -> real, sin: real -> real) {

    /** pi is the positive constant 3.14159...; the Pythagorean identity holds at every angle. */
    ghost predicate Valid() {
      && 3.14159 < pi < 3.14160
      && forall t :: cos(t) * cos(t) + sin(t) * sin(t) == 1.0
    }
  }

  /** A point of the readout plane. */
  datatype Point2 = Point2(x: real, y: real)

  /** The squared distance of a point from the beam axis. */
  function Norm2(p: Point2): real {
    p.x * p.x + p.y * p.y
  }

  /** The point at distance `r` from the origin in direction `theta`: (r cos theta, r sin theta). */
  function Polar(lib: MathLib, r: real, theta: real): (p: Point2)
    requires lib.Valid()
    ensures Norm2(p) == r * r
  {
    var c, s := lib.cos(theta), lib.sin(theta);
    assert c * c + s * s == 1.0;
    calc {
      (r * c) * (r * c) + (r * s) * (r * s);
      r * r * (c * c + s * s);
      r * r;
    }
    Point2(r * c, r * s)
  }
}
