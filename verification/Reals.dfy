/** Absolute value and rounding of exact reals. */
module Reals {

  function Abs(x: real): real {
    if x < 0.0 then -x else x
  }

  // math.Round for a non-negative argument: half away from zero.
  function Round(x: real): int
    requires x >= 0.0
  {
    (x + 0.5).Floor
  }
}
