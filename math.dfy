/**
 * The numeric library the projection leans on: JavaScript's `Math.PI`,
 * `Math.log`, `Math.tan`, `Math.atan`, `Math.exp`, and `cosh` from the
 * module `ol/math`. Their floating-point behaviour is not modelled; the
 * routines are handed to the projection as a value, and only the facts
 * stated in `Valid` are assumed about them.
 */
module Transcendental {

  /** `Math.PI`: the exact value of the IEEE double nearest to pi. */
  const PI: real := 3.141592653589793115997963468544185161590576171875

  /** The transcendental routines, as total functions on the reals. */
  datatype MathLib = MathLib(
    log: real -> real,
    tan: real -> real,
    atan: real -> real,
    exp: real -> real,
    cosh: real -> real)
  {
    /** What the projection relies on: cosh(0) = 1 and cosh never drops below 1. */
    ghost predicate Valid() {
      cosh(0.0) == 1.0 && forall x: real :: cosh(x) >= 1.0
    }
  }

}
