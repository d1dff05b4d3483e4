/**
 Sums, products and quotients of reals, shared by ranks, correlation and risk.
 Everything is exact. Products that matter to a proof go through `Times`, so that
 the sign of a product is a fact about one term, and the few laws of signs and of
 division that the proofs need are stated here once, each for two or three reals
 and without reference to what they measure.
 */
module Reals {

  function Sum(x: seq<real>): real {
    if x == [] then 0.0 else x[0] + Sum(x[1..])
  }

  function Times(v: real, w: real): real {
    v * w
  }

  lemma PositiveProduct(v: real, w: real)
    requires v > 0.0 && w > 0.0
    ensures Times(v, w) > 0.0
  {
  }

  lemma NonNegativeProduct(v: real, w: real)
    requires v >= 0.0 && w >= 0.0
    ensures v * w >= 0.0
  {
    if v == 0.0 {
      assert v * w == 0.0 * w;
    } else if w == 0.0 {
      assert v * w == v * 0.0;
    } else {
      PositiveProduct(v, w);
    }
  }

  lemma ScaleKeepsOrder(f: real, v: real, w: real)
    requires f >= 0.0 && v <= w
    ensures Times(f, v) <= Times(f, w)
  {
    NonNegativeProduct(f, w - v);
  }

  lemma DivideKeepsOrder(v: real, w: real, n: real)
    requires n > 0.0 && v <= w
    ensures v / n <= w / n
  {
    assert n * (v / n) == v && n * (w / n) == w;
  }
}
