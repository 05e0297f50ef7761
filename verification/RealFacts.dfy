/** Small functions of reals, and the signs of products. */
module RealFacts {

  function Abs(x: real): real {
    if x < 0.0 then -x else x
  }

  function Min(x: real, y: real): real {
    if x <= y then x else y
  }

  function Max(x: real, y: real): real {
    if x <= y then y else x
  }

  // A product that proofs keep folded.
  function Times(x: real, y: real): real {
    x * y
  }

  lemma TimesIs(x: real, y: real)
    ensures Times(x, y) == x * y
  {}

  lemma NonNegativeProduct(x: real, y: real)
    requires x >= 0.0 && y >= 0.0
    ensures x * y >= 0.0
  {}

  lemma PositiveProduct(x: real, y: real)
    requires x > 0.0 && y > 0.0
    ensures x * y > 0.0
  {}

  lemma NonNegativeSquare(x: real)
    ensures x * x >= 0.0
  {}

  // r = g x^2.
  lemma WeightedSquare(g: real, x: real, r: real)
    requires g >= 0.0 && r == g * (x * x)
    ensures r >= 0.0 && (g > 0.0 && x != 0.0 ==> r > 0.0)
  {
    if g > 0.0 && x > 0.0 {
      PositiveProduct(g, x);
      PositiveProduct(g * x, x);
      assert (g * x) * x == r;
    } else if g > 0.0 && x < 0.0 {
      PositiveProduct(g, -x);
      PositiveProduct(g * -x, -x);
      assert (g * -x) * -x == r;
    }
  }
}
