/**
 The difference-of-convex (DC) split of the objective f(x) = x^2 - |x| used by the
 visualisation: f = g - h with g(x) = x^2 and h(x) = |x|, the chosen subgradient of h,
 the first-order linearisation of h at an anchor x0, and the convex surrogate
 g - (linearisation of h). JavaScript doubles are idealised as exact reals.
 */
module DcMath {

  /** Math.abs over the reals. */
  function Abs(x: real): (r: real)
    ensures r >= 0.0
    ensures r == x || r == -x
  {
    if x < 0.0 then -x else x
  }

  /** g(x) = x^2, the convex component that is kept. */
  function G(x: real): (r: real)
    ensures r >= 0.0
    ensures r == Abs(x) * Abs(x)
  {
    x * x
  }

  /** h(x) = |x|, the convex component that is subtracted. */
  function H(x: real): (r: real)
    ensures r >= 0.0
    ensures r >= x && r >= -x
    ensures r == x || r == -x
  {
    Abs(x)
  }

  /** The non-convex objective f(x) = x^2 - |x|; it is exactly g - h. */
  function F(x: real): (r: real)
    ensures r == G(x) - H(x)
  {
    x * x - Abs(x)
  }

  /** The subgradient of |x| the program picks: the sign of x0, with 0 chosen at the kink. */
  function HSubgradient(x0: real): (r: int)
    ensures r == 1 <==> x0 > 0.0
    ensures r == -1 <==> x0 < 0.0
    ensures r == 0 <==> x0 == 0.0
    ensures (r as real) * x0 == Abs(x0)
  {
    if x0 > 0.0 then 1
    else if x0 < 0.0 then -1
    else 0
  }

  /** The linearisation of h at x0: it touches h at x0 and lies below h everywhere. */
  function HLinear(x: real, x0: real): (r: real)
    ensures r <= H(x)
    ensures x == x0 ==> r == H(x0)
  {
    var subgrad := HSubgradient(x0);
    Abs(x0) + (subgrad as real) * (x - x0)
  }

  /** The convex surrogate g - HLinear(., x0): an upper bound of f that touches f at x0. */
  function FApprox(x: real, x0: real): (r: real)
    ensures r >= F(x)
    ensures x == x0 ==> r == F(x0)
  {
    G(x) - HLinear(x, x0)
  }

  /** The minimiser of the surrogate anchored at x0: half the chosen subgradient. */
  function SurrogateMinimiser(x0: real): (m: real)
    ensures x0 > 0.0 ==> m == 0.5
    ensures x0 < 0.0 ==> m == -0.5
    ensures x0 == 0.0 ==> m == 0.0
  {
    (HSubgradient(x0) as real) / 2.0
  }

  /** f = g - h holds pointwise, so the split is a genuine DC decomposition of f. */
  lemma DcDecomposition(x: real)
    ensures F(x) == G(x) - H(x)
    ensures F(x) == x * x - Abs(x)
  {
  }

  /**
   The subgradient inequality of |x| at every anchor: for every x and x0,
   HLinear(x, x0) <= |x|, with equality at x = x0 (including the kink x0 = 0).
   */
  lemma SubgradientInequality(x: real, x0: real)
    ensures HLinear(x, x0) <= H(x)
    ensures HLinear(x0, x0) == H(x0)
    ensures H(x) - HLinear(x, x0) == Abs(x) - (HSubgradient(x0) as real) * x
  {
  }

  /** The surrogate majorises f: FApprox(., x0) >= f everywhere and equals f at x0. */
  lemma SurrogateMajorises(x: real, x0: real)
    ensures FApprox(x, x0) - F(x) == H(x) - HLinear(x, x0)
    ensures FApprox(x, x0) >= F(x)
    ensures FApprox(x0, x0) == F(x0)
  {
  }

  /** The surrogate is the parabola x^2 - sign(x0) * x. */
  lemma SurrogateClosedForm(x: real, x0: real)
    ensures FApprox(x, x0) == x * x - (HSubgradient(x0) as real) * x
    ensures x0 > 0.0 ==> FApprox(x, x0) == x * x - x
    ensures x0 < 0.0 ==> FApprox(x, x0) == x * x + x
    ensures x0 == 0.0 ==> FApprox(x, x0) == x * x
  {
  }

  /**
   SurrogateMinimiser(x0) minimises the surrogate anchored at x0: this is the
   DCA update x_{k+1} = argmin (g - HLinear(., x_k)).
   */
  lemma SurrogateMinimum(x: real, x0: real)
    ensures FApprox(x, x0) >= FApprox(SurrogateMinimiser(x0), x0)
  {
    var m := SurrogateMinimiser(x0);
    SurrogateClosedForm(x, x0);
    SurrogateClosedForm(m, x0);
    if x0 > 0.0 {
      RightParabola(x);
    } else if x0 < 0.0 {
      LeftParabola(x);
    } else {
      SquareNonNegative(x);
    }
  }

  /** f has global minimum -1/4, reached at x = 1/2 and x = -1/2. */
  lemma GlobalMinimum(x: real)
    ensures F(x) >= -0.25
    ensures F(0.5) == -0.25 && F(-0.5) == -0.25
  {
    if x < 0.0 {
      LeftParabola(x);
    } else {
      RightParabola(x);
    }
  }

  /** x^2 - x is bounded below by its value -1/4 at x = 1/2. */
  lemma RightParabola(x: real)
    ensures x * x - x >= -0.25
  {
    var d := x - 0.5;
    SquareNonNegative(d);
    assert d * d == x * x - x + 0.25;
  }

  /** x^2 + x is bounded below by its value -1/4 at x = -1/2. */
  lemma LeftParabola(x: real)
    ensures x * x + x >= -0.25
  {
    var d := x + 0.5;
    SquareNonNegative(d);
    assert d * d == x * x + x + 0.25;
  }

  /** Squares of reals are non-negative. */
  lemma SquareNonNegative(y: real)
    ensures y * y >= 0.0
  {
    if y < 0.0 {
      var z := -y;
      assert y * y == z * z;
    }
  }
}
