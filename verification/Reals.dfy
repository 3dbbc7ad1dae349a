/** The few facts about real products that the solver needs help with. */
module Reals {
  function Ceil(x: real): int {
    -(-x).Floor
  }

  lemma Product(a: real, b: real, z: real)
    requires a >= 0.0 && b >= 0.0 && z == a * b
    ensures z >= 0.0
  {
  }

  lemma StrictProduct(a: real, b: real, z: real)
    requires a > 0.0 && b > 0.0 && z == a * b
    ensures z > 0.0
  {
  }

  /** A quotient of positive numbers is positive. */
  lemma Positive(x: real, y: real)
    requires x > 0.0 && y > 0.0
    ensures x / y > 0.0
  {
    var q := x / y;
    assert q * y == x;
    if q <= 0.0 { Product(-q, y, -q * y); }
  }

  lemma AddQuotients(x: real, y: real, z: real)
    requires z != 0.0
    ensures x / z + y / z == (x + y) / z
  {
  }

  lemma SelfQuotient(x: real)
    requires x > 0.0
    ensures x / x == 1.0
  {
  }
}
