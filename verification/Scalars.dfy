/** Facts about exact reals that the solver does not find by itself. */
module Scalars {

  function Abs(x: real): real {
    if x < 0.0 then -x else x
  }

  function Mul(x: real, y: real): (r: real)
    ensures x > 0.0 && y > 0.0 ==> r > 0.0
    ensures x < 0.0 && y < 0.0 ==> r > 0.0
    ensures x > 0.0 && y < 0.0 ==> r < 0.0
    ensures x < 0.0 && y > 0.0 ==> r < 0.0
    ensures x == 0.0 || y == 0.0 ==> r == 0.0
  {
    x * y
  }

  function Sq(x: real): (r: real)
    ensures r >= 0.0
    ensures r == 0.0 <==> x == 0.0
  {
    hide Mul;
    Mul(x, x)
  }

  lemma Cancel(x: real, d: real, r: real)
    requires r * d == 1.0
    ensures r * (d * x) == x
  {
    assert r * (d * x) == (r * d) * x;
  }

  /** An exact square root, in place of floating-point sqrt. */
  ghost predicate ExactSqrt(sqrt: real -> real) {
    forall x: real :: x >= 0.0 ==> sqrt(x) >= 0.0 && sqrt(x) * sqrt(x) == x
  }
}
