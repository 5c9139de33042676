/**
 The fixed table of six DCA iterates the visualisation steps through, and the
 readouts shown for the selected step. The table is data, not a computed
 trajectory: only its second entry is the surrogate minimiser of the first.
 */
module Steps {
  import opened DcMath

  /** One scripted iterate: the linearisation point and its caption. */
  datatype Step = Step(point: real, description: string)

  /** The six scripted iterates, in display order. */
  const DcaSteps: seq<Step> := [
    Step(1.0, "Start at x₀ = 1.0"),
    Step(0.5, "Minimum of convex approx → x₁ = 0.5"),
    Step(0.25, "New minimum → x₂ = 0.25"),
    Step(0.125, "Converging → x₃ = 0.125"),
    Step(0.0625, "Near optimal → x₄ ≈ 0.06"),
    Step(0.0, "Converged to x* = 0 (global minimum!)")
  ]

  /** Index of the final step, `dcaSteps.length - 1`. */
  const Last: int := |DcaSteps| - 1

  /** A step index that selects an entry of the table. */
  predicate ValidIndex(i: int) {
    0 <= i < |DcaSteps|
  }

  /** The linearisation point of step i. */
  function Point(i: int): (x0: real)
    requires ValidIndex(i)
    ensures 0.0 <= x0 <= 1.0
    ensures i < Last ==> DcaSteps[i + 1].point < x0
  {
    DcaSteps[i].point
  }

  /** The numeric readouts shown beside the chart for one step. */
  datatype Readout = Readout(
    stepNumber: int,     // the "Step n" title, one-based
    description: string,
    point: real,         // current x
    value: real,         // f(x)
    subgradient: int     // the chosen subgradient of h at x
  )

  /** The readouts the display shows for step i. */
  function ReadoutOf(i: int): (r: Readout)
    requires ValidIndex(i)
    ensures r.stepNumber == i + 1
    ensures r.point == DcaSteps[i].point && r.description == DcaSteps[i].description
    ensures r.value == G(r.point) - H(r.point)
    ensures r.subgradient == 1 <==> i < Last
    ensures r.subgradient == 0 <==> i == Last
  {
    var x0 := Point(i);
    Readout(i + 1, DcaSteps[i].description, x0, F(x0), HSubgradient(x0))
  }

  /** The table has six entries, the first anchored at 1 and the last at 0. */
  lemma TableShape()
    ensures |DcaSteps| == 6 && Last == 5
    ensures Point(0) == 1.0 && Point(Last) == 0.0
    ensures forall i :: 1 <= i < Last ==> Point(i) == Point(i - 1) / 2.0
  {
  }

  /**
   The first and last readouts: at step one the subgradient reads 1, and at the
   final step the subgradient reads 0 and f(x) reads 0.
   */
  lemma EndReadouts()
    ensures ReadoutOf(0).stepNumber == 1 && ReadoutOf(0).subgradient == 1
    ensures ReadoutOf(0).value == 0.0
    ensures ReadoutOf(Last).stepNumber == 6 && ReadoutOf(Last).subgradient == 0
    ensures ReadoutOf(Last).value == 0.0
  {
  }

  /** The second entry is the true DCA update from the first: the surrogate at 1.0 is minimised at 0.5. */
  lemma SecondStepMinimisesFirstSurrogate(x: real)
    ensures SurrogateMinimiser(Point(0)) == Point(1)
    ensures FApprox(x, Point(0)) >= FApprox(Point(1), Point(0))
  {
    SurrogateMinimum(x, Point(0));
  }

  /**
   The later entries are not DCA updates: from every anchor in steps two to
   five the surrogate is minimised at 1/2, and the next entry has a strictly
   larger surrogate value there, so it is not a minimiser of that surrogate.
   */
  lemma LaterStepsAreNotDcaUpdates(i: int)
    requires 1 <= i < Last
    ensures SurrogateMinimiser(Point(i)) == 0.5
    ensures SurrogateMinimiser(Point(i)) != Point(i + 1)
    ensures FApprox(Point(i + 1), Point(i)) > FApprox(0.5, Point(i))
  {
    SurrogateClosedForm(Point(i + 1), Point(i));
    SurrogateClosedForm(0.5, Point(i));
  }

  /**
   The final caption calls x* = 0 the global minimum, but f(0) = 0 lies above
   f(1/2) = -1/4, the true minimum value.
   */
  lemma FinalPointIsNotGlobalMinimum()
    ensures F(Point(Last)) == 0.0
    ensures F(0.5) < F(Point(Last))
  {
    GlobalMinimum(0.5);
  }
}
