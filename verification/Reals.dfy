/** Signs of products of reals. */
module Reals {

  function Mul(x: real, y: real): (z: real)
    ensures x > 0.0 && y > 0.0 ==> z > 0.0
    ensures x < 0.0 && y < 0.0 ==> z > 0.0
  {
    x * y
  }

  function Square(x: real): (y: real)
    ensures y >= 0.0 && (x != 0.0 ==> y > 0.0)
  {
    Mul(x, x)
  }

  lemma ProductPositive(a: real, b: real)
    requires a > 0.0 && b > 0.0
    ensures a * b > 0.0
  {
  }
}
