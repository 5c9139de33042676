# DCA visualisation: a Dafny model

This project models the core of an interactive page that teaches the
difference-of-convex algorithm (DCA) on the single objective
f(x) = x² − |x|. It covers three parts.

- **The DC split** (`DcMath`). These are the closed-form functions the page plots:
  - f, g(x) = x² and h(x) = |x|;
  - the subgradient of |x| the page picks, which is 0 at the kink;
  - the linearisation of h at an anchor x0;
  - the convex surrogate g − (linearisation of h).

  JavaScript doubles are idealised as exact Dafny `real`s. The lemmas prove the convexity facts the page relies on without stating them:
  - the linearisation touches h at x0 and lies below h everywhere;
  - so the surrogate upper-bounds f, agrees with f at x0, and is minimised at half the chosen subgradient.
- **The step table and readouts** (`Steps`). These are the six scripted iterates and the numbers shown for the selected one.
- **Navigation** (`Navigation`). The controller is a pure state machine.
  - Its state is the step index, the animating flag and the number of auto-advance intervals still live.
  - Its events are the previous, next, animate and reset clicks and the firing of an interval.
  - A click on a disabled button is not delivered.
  - The interval handle is a local of the animation start, and reset never clears it. So reset leaves intervals live, and animating again after a reset adds a second one. The state therefore counts live intervals rather than holding a single flag.
- **Sampling** (`Sampling`). The 81 curve points drawn for a step.

The model follows the code's timer handling.

- **Reset and the ticker.** `reset` (script.js:225-229) does not clear the interval created at script.js:213. The interval's callback (script.js:214) never checks `isAnimating`. `Navigation.StaleTickAfterReset` proves that such a tick advances the step after a reset.
- **Repeated animation.** The handle `animationInterval` is a local of `startAnimation`, so only the interval itself can clear it. Resetting during an animation and then animating again leaves two intervals live at once. `Navigation.RestartDoublesTickers` proves this.

## Observations

- **Only the first transition is a DCA update.** The surrogate anchored at 1.0 is minimised at 0.5, which matches the second entry. From 0.5, 0.25, 0.125 and 0.0625 the surrogate is again minimised at 0.5. At each of those anchors the next entry has a strictly larger surrogate value than 0.5, so it is not a minimiser. This contradicts the captions at script.js:11-13, which present those entries as surrogate minima. See `Steps.SecondStepMinimisesFirstSurrogate` and `Steps.LaterStepsAreNotDcaUpdates`.
- **The last caption is wrong.** It calls x* = 0 the global minimum, but f(0) = 0 while f(±1/2) = −1/4. This is proved by `Steps.FinalPointIsNotGlobalMinimum` and `DcMath.GlobalMinimum`. The caption is display text and is kept as written, so this is not logged as a finding.

## Model

| member | source | states |
|---|---|---|
| `DcMath.Abs` | script.js:23-25 | Math.abs is non-negative and equals x or −x |
| `DcMath.G` | script.js:24 | g is non-negative and equals the square of abs x |
| `DcMath.H` | script.js:25 | h is non-negative and dominates both x and −x |
| `DcMath.F` | script.js:23 | f equals g − h for every real x |
| `DcMath.HSubgradient` | script.js:28-32 | the subgradient is 1 iff x0 > 0, −1 iff x0 < 0, 0 iff x0 = 0; multiplying it by x0 gives abs x0 |
| `DcMath.HLinear` | script.js:35-38 | the linearisation lies below h everywhere and touches h at its anchor |
| `DcMath.FApprox` | script.js:41-43 | the surrogate is at least f everywhere and equals f at the anchor |
| `DcMath.SurrogateMinimiser` | script.js:41-43 | the point the DCA moves to from x0: 1/2 for a positive anchor, −1/2 for a negative one, 0 at 0. `DcMath.SurrogateMinimum` proves that no x has a lower surrogate value |
| `DcMath.DcDecomposition` | script.js:23-25 | f = g − h pointwise |
| `DcMath.SubgradientInequality` | script.js:27-38 | for all x and x0, the linearisation of abs at x0 is at most abs x, with equality at x0 (also at 0) |
| `DcMath.SurrogateMajorises` | script.js:40-43 | surrogate minus f equals h minus its linearisation, so the surrogate upper-bounds f and touches it at x0 |
| `DcMath.SurrogateClosedForm` | script.js:41-43 | the surrogate is x² − x for a positive anchor, x² + x for a negative one, and x² at 0 |
| `DcMath.SurrogateMinimum` | script.js:41-43 | no x gives a lower surrogate value than the surrogate's minimiser |
| `DcMath.GlobalMinimum` | script.js:23 | f is at least −1/4 everywhere and reaches −1/4 at ±1/2 |
| `Steps.DcaSteps` | script.js:8-15 | the six scripted (point, caption) entries, in display order |
| `Steps.Point` | script.js:8-15 | every scripted point lies in [0, 1], and the points strictly decrease along the table |
| `Steps.ReadoutOf` | script.js:162-173 | the readout shows the one-based step number and the step's caption and point. The value shown is g − h at the point. The subgradient shown is 1 before the last step and 0 exactly at it |
| `Steps.TableShape` | script.js:8-15 | six entries, from 1.0 down to 0, each of steps two to five half the previous one |
| `Steps.EndReadouts` | script.js:171-173 | step 1 shows subgradient 1; step 6 shows subgradient 0 and f(x) = 0 |
| `Steps.SecondStepMinimisesFirstSurrogate` | script.js:9-10 | the second point minimises the surrogate anchored at the first |
| `Steps.LaterStepsAreNotDcaUpdates` | script.js:10-14 | from steps two to five the surrogate minimiser is 1/2. The next scripted point has a strictly larger surrogate value than 1/2, so it is not a minimiser |
| `Steps.FinalPointIsNotGlobalMinimum` | script.js:14 | f at the final point is 0, above f(1/2) |
| `Navigation.Init` | script.js:3-4 | the constructed state: step 0, not animating, no live interval |
| `Navigation.PrevEnabled` | script.js:179 | previous is enabled iff the step is not 0 and no animation runs |
| `Navigation.NextEnabled` | script.js:180 | next is enabled iff the step is not the last and no animation runs |
| `Navigation.AnimateEnabled` | script.js:181 | animate is enabled iff no animation runs |
| `Navigation.Prev` | script.js:185-190 | previous steps back when the step is positive and otherwise changes nothing. It keeps the flag and the intervals, and it preserves the invariant |
| `Navigation.Next` | script.js:192-197 | next steps forward before the last step and otherwise changes nothing. It keeps the flag and the intervals, and it preserves the invariant |
| `Navigation.StartAnimation` | script.js:208-213 | the animation starts at step 0 with the flag set and one more live interval |
| `Navigation.Tick` | script.js:213-222 | before the last step a firing advances one step and changes nothing else. At the last step it clears the flag and cancels one interval. It preserves the invariant |
| `Navigation.Reset` | script.js:225-229 | reset goes to step 0 and clears the flag, with the live intervals unchanged |
| `Navigation.Apply` | script.js:179-205 | every event preserves the invariant. Reset always rewinds. An enabled animate click starts animating. Only animate can add intervals |
| `Navigation.InitValid` | script.js:2-19 | the initial state is valid; previous is disabled, next and animate enabled |
| `Navigation.RunPreservesValid` | script.js:184-229 | after any event sequence, stale interval firings included, the step indexes the six-entry table and an animation always has a live interval |
| `Navigation.ReachableValid` | script.js:2-229 | every state reachable from construction satisfies the invariant |
| `Navigation.BoundaryClicksAreNoOps` | script.js:185-197 | previous at step 0 and next at the last step change nothing |
| `Navigation.EnabledClicksMove` | script.js:179-197 | previous (next) is enabled iff not animating and the handler would move; an enabled click moves exactly one step |
| `Navigation.AnimationLocksNavigation` | script.js:179-181 | while animating, previous, next and animate clicks change nothing |
| `Navigation.NextClicks` | script.js:192-197 | n next clicks from an idle step k reach step k + n while that stays in the table |
| `Navigation.NextClicksFromInit` | script.js:192-197 | five next clicks from the start reach the last step, and a sixth does nothing |
| `Navigation.AnimationAdvances` | script.js:213-216 | while animating, n firings before the last step advance exactly n steps and change nothing else |
| `Navigation.AnimationFinishes` | script.js:217-221 | the firing after the last step is reached ends the animation and cancels its interval |
| `Navigation.FullAnimation` | script.js:208-222 | animate and then five firings give the last step, still animating. A sixth firing gives the last step, idle, with the interval count back to its value before the click |
| `Navigation.StaleTickAfterReset` | script.js:225-229 | after a reset, a still-live interval fires and moves to step 1 while not animating |
| `Navigation.RestartDoublesTickers` | script.js:208-229 | animate, reset, animate leaves two live intervals, and each firing advances the restarted animation |
| `Sampling.SampleAt` | script.js:50-56 | at each x: the original is g − h; the linearisation is at most h and equals it at x0; the surrogate is g minus the linearisation and at least f |
| `Sampling.GenerateData` | script.js:45-59 | 81 points with x ascending from −2 to 2 in steps of 1/20, each carrying the curve values at the step's point |

## Left out

- DOM access and text rendering are presentation. This covers `getElementById`, `textContent`, `toFixed(4)` formatting and the writes to the buttons' `disabled` property. Only the numbers shown and the enablement predicates are modelled.
- `initializeChart` and `updateChart` (script.js:61-160) only configure and call Chart.js, an external library that is not part of this model.
- `Sampling.GenerateData` samples over exact reals and always yields 81 points. The source accumulates `x += 0.05` in IEEE doubles, so its actual point count and last abscissa depend on rounding. That is not modelled.
- The 2000 ms period of `setInterval` is not modelled. An interval firing is an abstract event, possible while an interval is live.
- DcMath.SurrogateMinimiser: only minimality is proved (`DcMath.SurrogateMinimum`), not that the minimiser is unique. The strict bound x² − x > −1/4 for x ≠ 1/2 could not be discharged by the solver over the reals.
- IEEE double semantics throughout. All arithmetic is exact.
- The `DOMContentLoaded` bootstrap (script.js:233-235) is left out. Construction is modelled as `Navigation.Init`.
