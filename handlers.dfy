/**
 * The step handler tree: the traversal state that the viewer keeps per part
 * type, and the two cursor-delta helpers computed from it.
 */
module Handlers {
  import opened Wrappers
  import opened Splice

  /**
   * A step handler: the part type it walks, its current step, and for every
   * step of that part type the nested handler of the sub-model placed there
   * (None for a step that only places leaf parts). totalNumberOfSteps is
   * maintained by the viewer and is taken as given.
   */
  datatype Handler = Handler(part: string, current: int, steps: seq<Option<Handler>>, totalNumberOfSteps: nat)

  /** Every handler's current lies within [0, length], at every depth. */
  predicate WellFormed(h: Handler)
    decreases h
  {
    && 0 <= h.current <= |h.steps|
    && forall i :: 0 <= i < |h.steps| && h.steps[i].Some? ==> WellFormed(h.steps[i].value)
  }

  /** A handler that stands at one of its steps, as getCurrentStepHandler() does. */
  predicate AtStep(h: Handler) {
    WellFormed(h) && h.current < |h.steps|
  }

  // ---------------------------------------------------------------------------
  // countUsages

  /**
   * The number of sub-model handlers for part type `id` among the first n
   * steps of h: a handler for `id` counts once and is not entered, any
   * other handler is searched up to its own current step.
   */
  function UsagesBefore(h: Handler, id: string, n: int): nat
    requires WellFormed(h) && 0 <= n <= |h.steps|
    decreases h, n
  {
    if n == 0 then 0
    else
      UsagesBefore(h, id, n - 1) +
      match h.steps[n - 1]
      case None => 0
      case Some(sub) => if sub.part == id then 1 else UsagesBefore(sub, id, sub.current)
  }

  /** handler.countUsages(id) */
  function Usages(h: Handler, id: string): nat
    requires WellFormed(h)
  {
    UsagesBefore(h, id, h.current)
  }

  /** countUsages: a loop over the steps before current, recursing into sub-model handlers. */
  method CountUsages(h: Handler, id: string) returns (ret: nat)
    requires WellFormed(h)
    ensures ret == Usages(h, id)
    decreases h
  {
    ret := 0;
    var i := 0;
    while i < h.current
      invariant 0 <= i <= h.current
      invariant ret == UsagesBefore(h, id, i)
    {
      if h.steps[i].Some? {
        var sub := h.steps[i].value;
        if sub.part == id {
          ret := ret + 1;
        } else {
          var inner := CountUsages(sub, id);
          ret := ret + inner;
        }
      }
      i := i + 1;
    }
  }

  /** Whether some handler for `id` lies on the visited part of the tree (steps before each current). */
  predicate VisitsBefore(h: Handler, id: string, n: int)
    requires WellFormed(h) && 0 <= n <= |h.steps|
    decreases h, n
  {
    n > 0 &&
    (VisitsBefore(h, id, n - 1) ||
     match h.steps[n - 1]
     case None => false
     case Some(sub) => sub.part == id || VisitsBefore(sub, id, sub.current))
  }

  /** countUsages is positive exactly when a handler for the part type has been passed. */
  lemma {:induction false} UsagesPositive(h: Handler, id: string, n: int)
    requires WellFormed(h) && 0 <= n <= |h.steps|
    ensures UsagesBefore(h, id, n) > 0 <==> VisitsBefore(h, id, n)
    decreases h, n
  {
    if n > 0 {
      UsagesPositive(h, id, n - 1);
      match h.steps[n - 1]
      case None =>
      case Some(sub) =>
        if sub.part != id {
          UsagesPositive(sub, id, sub.current);
        }
    }
  }

  /** countUsages reads only the steps before current: the later steps may be anything. */
  lemma {:induction false} UsagesIgnoresLaterSteps(h: Handler, g: Handler, id: string, n: int)
    requires WellFormed(h) && WellFormed(g) && 0 <= n <= |h.steps| && n <= |g.steps|
    requires h.steps[..n] == g.steps[..n]
    ensures UsagesBefore(h, id, n) == UsagesBefore(g, id, n)
    decreases n
  {
    if n > 0 {
      assert h.steps[..n - 1] == h.steps[..n][..n - 1];
      assert g.steps[..n - 1] == g.steps[..n][..n - 1];
      assert h.steps[n - 1] == h.steps[..n][n - 1];
      UsagesIgnoresLaterSteps(h, g, id, n - 1);
    }
  }

  /** The number of handlers in the visited part of the tree. */
  function HandlersBefore(h: Handler, n: int): nat
    requires WellFormed(h) && 0 <= n <= |h.steps|
    decreases h, n
  {
    if n == 0 then 0
    else
      HandlersBefore(h, n - 1) +
      match h.steps[n - 1]
      case None => 0
      case Some(sub) => 1 + HandlersBefore(sub, sub.current)
  }

  /** Each usage is a distinct visited handler. */
  lemma {:induction false} UsagesBounded(h: Handler, id: string, n: int)
    requires WellFormed(h) && 0 <= n <= |h.steps|
    ensures UsagesBefore(h, id, n) <= HandlersBefore(h, n)
    decreases h, n
  {
    if n > 0 {
      UsagesBounded(h, id, n - 1);
      match h.steps[n - 1]
      case None =>
      case Some(sub) =>
        if sub.part != id {
          UsagesBounded(sub, id, sub.current);
        }
    }
  }

  // ---------------------------------------------------------------------------
  // countStepsInsideOfNextStep / countStepsInsideOfPreviousStep

  /** The flattened size of a step: 1, plus the nested handler's steps if it has one. */
  function StepSize(s: Option<Handler>): nat {
    match s
    case None => 1
    case Some(sub) => sub.totalNumberOfSteps + 1
  }

  /** countStepsInsideOfNextStep(), for the current step handler sh. */
  function CountStepsInsideOfNextStep(sh: Handler): (r: nat)
    requires AtStep(sh)
    ensures r >= 1
  {
    if sh.current == |sh.steps| - 1 then 1 else StepSize(sh.steps[sh.current + 1])
  }

  /** countStepsInsideOfPreviousStep(), for the current step handler sh. */
  function CountStepsInsideOfPreviousStep(sh: Handler): (r: nat)
    requires AtStep(sh)
    ensures r >= 1
  {
    if sh.current == 0 then 1 else StepSize(sh.steps[sh.current - 1])
  }

  /** The same handler walked backwards. */
  function Mirror(sh: Handler): (m: Handler)
    requires AtStep(sh)
    ensures AtStep(m) && |m.steps| == |sh.steps| && m.current == |sh.steps| - 1 - sh.current
  {
    sh.(current := |sh.steps| - 1 - sh.current, steps := Reverse(sh.steps))
  }

  function Reverse<T>(s: seq<T>): (r: seq<T>)
    ensures |r| == |s| && forall i :: 0 <= i < |s| ==> r[i] == s[|s| - 1 - i]
  {
    if s == [] then [] else Reverse(s[1..]) + [s[0]]
  }

  /**
   * The handler once the current step has traded places with the next one
   * and the cursor has followed it, as a whole-step moveNext leaves it.
   */
  function SteppedForward(sh: Handler): (r: Handler)
    requires AtStep(sh) && sh.current < |sh.steps| - 1
    ensures AtStep(r) && r.current == sh.current + 1
  {
    sh.(current := sh.current + 1, steps := SwapWithNext(sh.steps, sh.current))
  }

  /**
   * After a whole-step move forward, the step the cursor skipped back over is
   * the one it skipped forward over: movePrev then shifts the index back by
   * exactly what moveNext shifted it forward.
   */
  lemma SteppedForwardCounts(sh: Handler)
    requires AtStep(sh) && sh.current < |sh.steps| - 1
    ensures CountStepsInsideOfPreviousStep(SteppedForward(sh)) == CountStepsInsideOfNextStep(sh)
  {
    assert SteppedForward(sh).steps[sh.current] == sh.steps[sh.current + 1];
  }

  /** The two helpers are mirror images: the previous step is the next step of the reversed handler. */
  lemma PreviousIsMirroredNext(sh: Handler)
    requires AtStep(sh)
    ensures CountStepsInsideOfPreviousStep(sh) == CountStepsInsideOfNextStep(Mirror(sh))
  {
  }
}
