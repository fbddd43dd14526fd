/** Facts about real numbers that several modules need. */
module Reals {

  function Abs(x: real): real { if x < 0.0 then -x else x }

  /** A quotient is known by multiplying back. */
  lemma DivideOut(a: real, b: real, q: real)
    requires b > 0.0 && q * b == a
    ensures a / b == q
  {
  }
}
