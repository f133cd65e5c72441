/** Products of reals, named so that the bounds proved on them stay linear for the verifier. */
module Reals {
  function Mul(x: real, y: real): real {
    x * y
  }

  lemma MulPositive(x: real, y: real)
    requires x > 0.0 && y > 0.0
    ensures Mul(x, y) > 0.0
  {}

  lemma MulSign(x: real, y: real)
    requires x > 0.0 && y >= 0.0
    ensures Mul(x, y) >= 0.0
    ensures y > 0.0 ==> Mul(x, y) > 0.0
    ensures y == 0.0 ==> Mul(x, y) == 0.0
  {
    if y > 0.0 {
      MulPositive(x, y);
    }
  }

  lemma SquareOfNegative(x: real)
    requires x < 0.0
    ensures Mul(x, x) > 0.0
  {
    MulPositive(-x, -x);
    assert Mul(-x, -x) == Mul(x, x);
  }

  function Square(x: real): (r: real)
    ensures r >= 0.0
    ensures x != 0.0 ==> r > 0.0
    ensures x == 0.0 ==> r == 0.0
  {
    if x > 0.0 then MulPositive(x, x); Mul(x, x)
    else if x < 0.0 then SquareOfNegative(x); Mul(x, x)
    else Mul(x, x)
  }
}
