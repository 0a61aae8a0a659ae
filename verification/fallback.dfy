/**
 Observations of the browser and the ordered fallback chains built on them.

 Every DOM query, wait or click of the bot becomes an input
 `Step`: it either completes or raises an exception of some kind. The kind
 matters where the program catches one exception class and lets the others
 through (`except TimeoutException`).
 */
module Fallback {
  import opened Options

  /** The exception classes the program distinguishes. */
  datatype Fault = Timeout | Stale | OtherError

  /** One browser interaction: it completed, or it raised. */
  datatype Step = Ok | Raise(fault: Fault)

  /** The three activation channels of `robust_click`, in the order tried. */
  datatype Stage = DirectClick | ScriptClick | PointerGesture

  /** What each channel of `robust_click` would do on a given element. */
  datatype ClickObs = ClickObs(direct: Step, script: Step, gesture: Step)

  /** The result of an activation: the channel that worked, or the exception
      that escaped. */
  datatype Attempt = Done(stage: Stage) | Raised(fault: Fault)

  /* ---------------------------------------------------------------------
     Ordered fallback
     --------------------------------------------------------------------- */

  /** Index of the first strategy that produced something; strategies after
      it are never consulted. */
  function FirstSuccess<T>(tries: seq<Option<T>>): (r: Option<nat>)
    ensures r.Some? ==> r.value < |tries| && tries[r.value].Some?
    ensures r.Some? ==> forall j :: 0 <= j < r.value ==> tries[j].None?
    ensures r.None? <==> forall j :: 0 <= j < |tries| ==> tries[j].None?
  {
    if |tries| == 0 then None
    else if tries[0].Some? then Some(0)
    else
      match FirstSuccess(tries[1..])
      case None => None
      case Some(k) => Some(k + 1)
  }

  /** The result of the first strategy that produced something does not
      depend on the strategies after it. */
  lemma {:induction false} FirstSuccessIgnoresLater<T>(tries: seq<Option<T>>, later: seq<Option<T>>)
    requires FirstSuccess(tries).Some?
    ensures FirstSuccess(tries + later) == FirstSuccess(tries)
  {
    if tries[0].Some? {
    } else {
      assert (tries + later)[1..] == tries[1..] + later;
      FirstSuccessIgnoresLater(tries[1..], later);
    }
  }

  /* ---------------------------------------------------------------------
     robust_click
     --------------------------------------------------------------------- */

  const Stages: seq<Stage> := [DirectClick, ScriptClick, PointerGesture]

  /** The observations of the three channels, in the order they are tried. */
  function StageSteps(c: ClickObs): seq<Step>
  {
    [c.direct, c.script, c.gesture]
  }

  function Completed(step: Step, stage: Stage): Option<Stage>
  {
    if step.Ok? then Some(stage) else None
  }

  /** `robust_click`: a plain click; if that raises, a script click; if that
      raises, a pointer gesture, whose exception is not caught. */
  function RobustClick(c: ClickObs): (r: Attempt)
    ensures r == Done(DirectClick) <==> c.direct.Ok?
    ensures r == Done(ScriptClick) <==> c.direct.Raise? && c.script.Ok?
    ensures r == Done(PointerGesture) <==> c.direct.Raise? && c.script.Raise? && c.gesture.Ok?
    ensures r.Raised? <==> c.direct.Raise? && c.script.Raise? && c.gesture.Raise?
    ensures r.Raised? ==> r.fault == c.gesture.fault
  {
    var tries := [Completed(c.direct, DirectClick), Completed(c.script, ScriptClick),
                  Completed(c.gesture, PointerGesture)];
    assert tries[0].Some? <==> c.direct.Ok?;
    assert tries[1].Some? <==> c.script.Ok?;
    assert tries[2].Some? <==> c.gesture.Ok?;
    match FirstSuccess(tries)
    case Some(k) =>
      assert k == 0 || k == 1 || k == 2;
      Done(tries[k].value)
    case None =>
      assert tries[0].None? && tries[1].None? && tries[2].None?;
      Raised(c.gesture.fault)
  }

  /** The channels `robust_click` actually runs: a later one only after every
      earlier one raised. */
  function StagesRun(c: ClickObs): (run: seq<Stage>)
    ensures 1 <= |run| <= 3 && run == Stages[..|run|]
    ensures forall i :: 0 <= i < |run| - 1 ==> StageSteps(c)[i].Raise?
    ensures |run| < 3 ==> StageSteps(c)[|run| - 1].Ok?
  {
    if c.direct.Ok? then [DirectClick]
    else if c.script.Ok? then [DirectClick, ScriptClick]
    else Stages
  }

  /** A successful click is credited to the last channel that ran, and a
      raised one ran all three channels. */
  lemma RobustClickUsesLastStageRun(c: ClickObs)
    ensures RobustClick(c).Done? ==> RobustClick(c).stage == StagesRun(c)[|StagesRun(c)| - 1]
    ensures RobustClick(c).Raised? ==> StagesRun(c) == Stages
  {
  }

  /** Locate an element (a wait that may raise), then activate it with
      `robust_click`; either part's exception escapes. The element is
      activated iff it was found and some channel completed; the exception
      that escapes is the lookup's, or else the pointer gesture's. */
  function LocateAndClick(lookup: Step, click: ClickObs): (r: Attempt)
    ensures r.Done? <==> lookup.Ok? && (click.direct.Ok? || click.script.Ok? || click.gesture.Ok?)
    ensures r.Done? ==> r.stage == StagesRun(click)[|StagesRun(click)| - 1]
    ensures r.Raised? ==> r.fault == (if lookup.Raise? then lookup.fault else click.gesture.fault)
    ensures lookup.Ok? ==> r == RobustClick(click)
  {
    if lookup.Raise? then Raised(lookup.fault) else RobustClick(click)
  }

  /** A lookup that raises never reaches `robust_click`: what the channels
      would have done makes no difference. */
  lemma FailedLookupClicksNothing(lookup: Step, c1: ClickObs, c2: ClickObs)
    requires lookup.Raise?
    ensures LocateAndClick(lookup, c1) == LocateAndClick(lookup, c2) == Raised(lookup.fault)
  {
  }
}
