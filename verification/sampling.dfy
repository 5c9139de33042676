/**
 The sampled curves drawn for the selected step: every 1/20 from -2 to 2, the
 objective, h, the linearisation of h at the step's point, and the surrogate.
 Sampling is over exact reals, so the grid has exactly 81 points.
 */
module Sampling {
  import opened DcMath
  import opened Steps

  /** One grid point with the four curve values plotted there. */
  datatype SamplePoint = SamplePoint(
    x: real,
    original: real,
    hFunction: real,
    linearApprox: real,
    convexApprox: real
  )

  /** Number of points of the grid -2, -2 + 1/20, ..., 2. */
  const GridSize: nat := 81

  /** The curve values at x for the linearisation point x0. */
  function SampleAt(x: real, x0: real): (p: SamplePoint)
    ensures p.x == x
    ensures p.original == G(x) - H(x)
    ensures p.linearApprox <= p.hFunction == H(x)
    ensures x == x0 ==> p.linearApprox == p.hFunction
    ensures p.convexApprox == G(x) - p.linearApprox
    ensures p.convexApprox >= p.original
  {
    SamplePoint(x, F(x), H(x), HLinear(x, x0), FApprox(x, x0))
  }

  /** The k-th abscissa of the grid. */
  function GridX(k: int): (x: real) {
    -2.0 + (k as real) / 20.0
  }

  /**
   Samples the four curves for the given step, from x = -2 upwards in steps of
   1/20 while x <= 2.
   */
  method GenerateData(step: int) returns (data: seq<SamplePoint>)
    requires ValidIndex(step)
    ensures |data| == GridSize
    ensures data[0].x == -2.0 && data[|data| - 1].x == 2.0
    ensures forall k :: 0 <= k < |data| ==> data[k] == SampleAt(GridX(k), Point(step))
    ensures forall k :: 0 <= k < |data| ==> -2.0 <= data[k].x <= 2.0
    ensures forall j, k :: 0 <= j < k < |data| ==> data[j].x < data[k].x
  {
    var currentX := Point(step);
    data := [];
    var x := -2.0;
    while x <= 2.0
      invariant |data| <= GridSize
      invariant x == GridX(|data|)
      invariant forall k :: 0 <= k < |data| ==> data[k] == SampleAt(GridX(k), currentX)
      decreases GridSize - |data|
    {
      data := data + [SampleAt(x, currentX)];
      x := x + 0.05;
    }
  }
}
