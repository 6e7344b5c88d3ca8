/** Products and quotients under names of their own. Equal factors then give equal products
    by congruence, which the arithmetic solver does not do for a bare `*`, so a lemma about
    products can be used where its factors are larger expressions. */
module RealAlgebra {

  function Times(x: real, y: real): real {
    x * y
  }

  function Abs(x: real): real {
    if x < 0.0 then -x else x
  }

  function Max(x: real, y: real): real {
    if x < y then y else x
  }

  function Min(x: real, y: real): real {
    if y < x then y else x
  }

  /** The coefficient -a / s of a rank-one correction. */
  function Less(a: real, s: real): real
    requires s > 0.0
  {
    -(a / s)
  }

  lemma SwapQuotient(a: real, b: real, s: real)
    requires s > 0.0
    ensures Times(a / s, b) == Times(b / s, a)
  {
  }

  lemma ProductPositive(x: real, y: real)
    requires x > 0.0 && y > 0.0
    ensures Times(x, y) > 0.0
  {
  }

  lemma SquareNonNegative(x: real)
    ensures Times(x, x) >= 0.0
    ensures x != 0.0 ==> Times(x, x) > 0.0
  {
    if x < 0.0 {
      ProductPositive(-x, -x);
      assert Times(x, x) == Times(-x, -x);
    } else if x > 0.0 {
      ProductPositive(x, x);
    }
  }

  lemma ProductNonNegative(x: real, y: real)
    requires x >= 0.0 && y >= 0.0
    ensures Times(x, y) >= 0.0
  {
  }

  lemma QuotientNonNegative(x: real, s: real)
    requires s > 0.0 && x >= 0.0
    ensures x / s >= 0.0
  {
  }

  /** s w = y gives w = y / s. */
  lemma Divide(s: real, w: real, y: real)
    requires s != 0.0 && Times(s, w) == y
    ensures w == y / s
  {
  }

  lemma QuotientTimes(y: real, s: real)
    requires s != 0.0
    ensures Times(y / s, s) == y
  {
  }
}
