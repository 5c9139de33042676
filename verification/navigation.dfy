/**
 The step-navigation controller of the visualisation as a state machine: the
 current step index, the animating flag, and the number of auto-advance
 intervals still live. The interval handle is local to the animation start, so
 reset does not cancel it and a restarted animation adds a second live
 interval; the state therefore counts live intervals instead of holding one flag.
 */
module Navigation {
  import opened Steps

  datatype State = State(step: int, animating: bool, liveTickers: nat)

  /** The state after construction: first step, not animating, no interval. */
  const Init: State := State(0, false, 0)

  /**
   The controller invariant: the step selects a table entry, and while the
   animation runs some interval is live to advance or finish it.
   */
  predicate Valid(s: State) {
    && ValidIndex(s.step)
    && (s.animating ==> s.liveTickers > 0)
  }

  // Button enablement, as set after every state change.

  /** The previous button is disabled at the first step and while animating. */
  predicate PrevEnabled(s: State) {
    !(s.step == 0 || s.animating)
  }

  /** The next button is disabled at the last step and while animating. */
  predicate NextEnabled(s: State) {
    !(s.step == Last || s.animating)
  }

  /** The animate button is disabled while animating. */
  predicate AnimateEnabled(s: State) {
    !s.animating
  }

  /** An interval callback can fire only while some interval is live. */
  predicate TickEnabled(s: State) {
    s.liveTickers > 0
  }

  // Handlers, with the guards they carry themselves.

  /** The previous-button handler: step back unless already at the first step. */
  function Prev(s: State): (r: State)
    ensures r.animating == s.animating && r.liveTickers == s.liveTickers
    ensures s.step > 0 ==> r.step == s.step - 1
    ensures s.step <= 0 ==> r == s
    ensures Valid(s) ==> Valid(r)
  {
    if s.step > 0 then s.(step := s.step - 1) else s
  }

  /** The next-button handler: step forward unless already at the last step. */
  function Next(s: State): (r: State)
    ensures r.animating == s.animating && r.liveTickers == s.liveTickers
    ensures s.step < Last ==> r.step == s.step + 1
    ensures s.step >= Last ==> r == s
    ensures Valid(s) ==> Valid(r)
  {
    if s.step < |DcaSteps| - 1 then s.(step := s.step + 1) else s
  }

  /** Starting the animation rewinds to the first step and creates one more live interval. */
  function StartAnimation(s: State): (r: State)
    ensures r.step == 0 && r.animating
    ensures r.liveTickers == s.liveTickers + 1
    ensures Valid(r)
  {
    State(0, true, s.liveTickers + 1)
  }

  /**
   One firing of a live interval. Before the last step it advances and changes
   nothing else; at the last step it clears the animating flag and cancels
   itself. It does not look at the animating flag.
   */
  function Tick(s: State): (r: State)
    requires s.liveTickers > 0
    ensures s.step < Last ==> r == s.(step := s.step + 1)
    ensures s.step >= Last ==> r.step == s.step && !r.animating
    ensures s.step >= Last ==> r.liveTickers == s.liveTickers - 1
    ensures Valid(s) ==> Valid(r)
  {
    if s.step < |DcaSteps| - 1 then s.(step := s.step + 1)
    else State(s.step, false, s.liveTickers - 1)
  }

  /** Reset returns to the first step and stops animating, but leaves every interval live. */
  function Reset(s: State): (r: State)
    ensures r.step == 0 && !r.animating
    ensures r.liveTickers == s.liveTickers
    ensures Valid(r)
  {
    State(0, false, s.liveTickers)
  }

  /** What can happen to the controller: a button click or an interval firing. */
  datatype Event = PrevClick | NextClick | AnimateClick | ResetClick | IntervalTick

  /**
   The effect of one event. A click on a disabled button is never delivered, and
   an interval can fire only while one is live; both leave the state unchanged.
   */
  function Apply(s: State, e: Event): (r: State)
    ensures Valid(s) ==> Valid(r)
    ensures e == ResetClick ==> r.step == 0 && !r.animating && r.liveTickers == s.liveTickers
    ensures e == AnimateClick && AnimateEnabled(s) ==> r.step == 0 && r.animating
    ensures e != AnimateClick ==> r.liveTickers <= s.liveTickers
  {
    match e
    case PrevClick => if PrevEnabled(s) then Prev(s) else s
    case NextClick => if NextEnabled(s) then Next(s) else s
    case AnimateClick => if AnimateEnabled(s) then StartAnimation(s) else s
    case ResetClick => Reset(s)
    case IntervalTick => if TickEnabled(s) then Tick(s) else s
  }

  /** The state after a sequence of events, applied in order. */
  function Run(s: State, es: seq<Event>): (r: State)
    decreases |es|
  {
    if |es| == 0 then s else Run(Apply(s, es[0]), es[1..])
  }

  /** n copies of one event. */
  function Repeat(e: Event, n: nat): (es: seq<Event>)
    ensures |es| == n
    ensures forall i :: 0 <= i < n ==> es[i] == e
  {
    if n == 0 then [] else [e] + Repeat(e, n - 1)
  }

  /** The initial state satisfies the invariant. */
  lemma InitValid()
    ensures Valid(Init)
    ensures !PrevEnabled(Init) && NextEnabled(Init) && AnimateEnabled(Init)
  {
  }

  /**
   The invariant holds after every sequence of events, including interval
   firings that arrive after a reset; in particular the step always indexes the table.
   */
  lemma {:induction false} RunPreservesValid(s: State, es: seq<Event>)
    requires Valid(s)
    ensures Valid(Run(s, es))
    ensures 0 <= Run(s, es).step < |DcaSteps|
    decreases |es|
  {
    if |es| > 0 {
      RunPreservesValid(Apply(s, es[0]), es[1..]);
    }
  }

  /** Every reachable state satisfies the invariant. */
  lemma ReachableValid(es: seq<Event>)
    ensures Valid(Run(Init, es))
  {
    RunPreservesValid(Init, es);
  }

  /** Running two sequences one after the other is running their concatenation. */
  lemma {:induction false} RunAppend(s: State, a: seq<Event>, b: seq<Event>)
    ensures Run(s, a + b) == Run(Run(s, a), b)
    decreases |a|
  {
    if |a| > 0 {
      assert (a + b)[0] == a[0];
      assert (a + b)[1..] == a[1..] + b;
      RunAppend(Apply(s, a[0]), a[1..], b);
    } else {
      assert a + b == b;
    }
  }

  /** Previous at the first step and next at the last step change nothing. */
  lemma BoundaryClicksAreNoOps(s: State)
    ensures s.step == 0 ==> Apply(s, PrevClick) == s && Prev(s) == s
    ensures s.step == Last ==> Apply(s, NextClick) == s && Next(s) == s
  {
  }

  /**
   An enabled previous or next click always moves one step, so the buttons'
   enablement agrees with the handlers' own bounds checks on valid states.
   */
  lemma EnabledClicksMove(s: State)
    requires Valid(s)
    ensures PrevEnabled(s) <==> !s.animating && Prev(s) != s
    ensures NextEnabled(s) <==> !s.animating && Next(s) != s
    ensures PrevEnabled(s) ==> Apply(s, PrevClick).step == s.step - 1
    ensures NextEnabled(s) ==> Apply(s, NextClick).step == s.step + 1
  {
  }

  /** While the animation runs, only reset and interval firings change the state. */
  lemma AnimationLocksNavigation(s: State)
    requires s.animating
    ensures Apply(s, PrevClick) == s
    ensures Apply(s, NextClick) == s
    ensures Apply(s, AnimateClick) == s
  {
  }

  /** n next clicks from an idle step k land on step k + n, as long as k + n stays in the table. */
  lemma {:induction false} NextClicks(s: State, n: nat)
    requires Valid(s) && !s.animating
    requires s.step + n <= Last
    ensures Run(s, Repeat(NextClick, n)) == s.(step := s.step + n)
    decreases n
  {
    if n > 0 {
      var es := Repeat(NextClick, n);
      assert es[0] == NextClick && es[1..] == Repeat(NextClick, n - 1);
      NextClicks(Apply(s, NextClick), n - 1);
    }
  }

  /** From the initial state, five next clicks reach the last step, and a sixth does nothing. */
  lemma NextClicksFromInit()
    ensures Run(Init, Repeat(NextClick, Last)).step == Last
    ensures Run(Init, Repeat(NextClick, Last + 1)) == Run(Init, Repeat(NextClick, Last))
  {
    NextClicks(Init, Last);
    var s5 := Run(Init, Repeat(NextClick, Last));
    assert Repeat(NextClick, Last + 1) == Repeat(NextClick, Last) + [NextClick];
    RunAppend(Init, Repeat(NextClick, Last), [NextClick]);
    assert Run(s5, [NextClick]) == Apply(s5, NextClick);
  }

  /** While animating, each of the first n firings advances the step by one and changes nothing else. */
  lemma {:induction false} AnimationAdvances(s: State, n: nat)
    requires Valid(s) && s.animating
    requires s.step + n <= Last
    ensures Run(s, Repeat(IntervalTick, n)) == s.(step := s.step + n)
    decreases n
  {
    if n > 0 {
      var es := Repeat(IntervalTick, n);
      assert es[0] == IntervalTick && es[1..] == Repeat(IntervalTick, n - 1);
      AnimationAdvances(Apply(s, IntervalTick), n - 1);
    }
  }

  /**
   While animating, the firing after the one that reaches the last step ends the
   animation and cancels that interval, leaving the last step shown.
   */
  lemma {:induction false} AnimationFinishes(s: State, n: nat)
    requires Valid(s) && s.animating
    requires n >= 1 && s.step + n == Last + 1
    ensures Run(s, Repeat(IntervalTick, n)) == State(Last, false, s.liveTickers - 1)
    decreases n
  {
    var es := Repeat(IntervalTick, n);
    assert es[0] == IntervalTick && es[1..] == Repeat(IntervalTick, n - 1);
    if n == 1 {
      assert Run(Apply(s, IntervalTick), []) == Apply(s, IntervalTick);
    } else {
      AnimationFinishes(Apply(s, IntervalTick), n - 1);
    }
  }

  /**
   A full animation from any idle state: five firings reach the last step while
   still animating, and the sixth ends the animation with the interval cancelled.
   */
  lemma FullAnimation(s: State)
    requires Valid(s) && !s.animating
    ensures Run(s, [AnimateClick] + Repeat(IntervalTick, Last)) == State(Last, true, s.liveTickers + 1)
    ensures Run(s, [AnimateClick] + Repeat(IntervalTick, Last + 1)) == State(Last, false, s.liveTickers)
  {
    var started := StartAnimation(s);
    assert Run(s, [AnimateClick]) == started by {
      assert Run(Apply(s, AnimateClick), []) == started;
    }
    RunAppend(s, [AnimateClick], Repeat(IntervalTick, Last));
    AnimationAdvances(started, Last);
    RunAppend(s, [AnimateClick], Repeat(IntervalTick, Last + 1));
    AnimationFinishes(started, Last + 1);
  }

  /**
   Reset does not cancel a live interval: after a reset any still-live interval
   fires and advances the step although no animation is running.
   */
  lemma StaleTickAfterReset(s: State)
    requires Valid(s) && s.liveTickers > 0
    ensures Run(s, [ResetClick, IntervalTick]) == State(1, false, s.liveTickers)
  {
    var r := Reset(s);
    assert Run(s, [ResetClick, IntervalTick]) == Run(r, [IntervalTick]);
    assert Run(r, [IntervalTick]) == Apply(r, IntervalTick);
  }

  /**
   Resetting mid-animation and animating again leaves two intervals live, and
   the next firing of each of them advances the restarted animation.
   */
  lemma RestartDoublesTickers()
    ensures Run(Init, [AnimateClick, ResetClick, AnimateClick]) == State(0, true, 2)
    ensures Run(Init, [AnimateClick, ResetClick, AnimateClick, IntervalTick, IntervalTick]) == State(2, true, 2)
  {
    var s1 := Apply(Init, AnimateClick);
    var s2 := Apply(s1, ResetClick);
    var s3 := Apply(s2, AnimateClick);
    var s4 := Apply(s3, IntervalTick);
    var s5 := Apply(s4, IntervalTick);
    assert s3 == State(0, true, 2);
    assert s5 == State(2, true, 2);
    assert Run(s3, []) == s3;
    assert Run(s5, []) == s5;
  }
}
