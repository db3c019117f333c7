/**
 * LDR.StepEditor: the editor panel's own state (the step at the cursor and
 * the counter for new part names), the generation of fresh part names, the
 * propagation of a step rotation to the steps that follow, and the rules for
 * which of the part buttons are shown.
 */
module StepEditors {
  import opened Wrappers
  import opened Base36
  import opened Document
  import opened Registry
  import opened Edits

  // ---------------------------------------------------------------------------
  // Rotation propagation

  /**
   * The end of the run of steps from `from` on whose rotation is `shown`:
   * the first index at or after `from` that is past the end or holds a
   * different rotation.
   */
  function RunEnd(steps: seq<Step>, from: int, shown: Option<Rotation>): (e: int)
    requires 0 <= from <= |steps|
    ensures from <= e <= |steps|
    ensures forall j :: from <= j < e ==> steps[j].rotation == shown
    ensures e == |steps| || steps[e].rotation != shown
    decreases |steps| - from
  {
    if from == |steps| || steps[from].rotation != shown then from else RunEnd(steps, from + 1, shown)
  }

  /**
   * The steps after propagate(rot) at step k: step k and the run of steps
   * after it that showed the same rotation as step k now carry `rot`.
   */
  function Propagated(steps: seq<Step>, k: int, shown: Option<Rotation>, rot: Option<Rotation>): seq<Step>
    requires 0 <= k < |steps|
  {
    var e := RunEnd(steps, k + 1, shown);
    seq(|steps|, j requires 0 <= j < |steps| => if k <= j < e then steps[j].(rotation := rot) else steps[j])
  }

  /**
   * Propagation touches rotations only: every step keeps its placements and
   * lines, step k and the maximal run after it with rotation `shown` get
   * `rot`, and every other step is unchanged.
   */
  lemma PropagatedShape(steps: seq<Step>, k: int, shown: Option<Rotation>, rot: Option<Rotation>)
    requires 0 <= k < |steps|
    ensures var r, e := Propagated(steps, k, shown, rot), RunEnd(steps, k + 1, shown);
      && |r| == |steps|
      && (forall j :: 0 <= j < |r| ==> r[j].subModels == steps[j].subModels && r[j].fileLines == steps[j].fileLines)
      && (forall j :: k <= j < e ==> r[j].rotation == rot)
      && (forall j :: k < j < e ==> steps[j].rotation == shown)
      && (e == |steps| || steps[e].rotation != shown)
      && r[..k] == steps[..k] && r[e..] == steps[e..]
  {
  }

  /** Steps with the same placements, step by step, have the same placement list. */
  lemma {:induction false} SamePlacements(a: seq<Step>, b: seq<Step>)
    requires |a| == |b| && forall j :: 0 <= j < |a| ==> a[j].subModels == b[j].subModels
    ensures Placements(a) == Placements(b)
  {
    if a != [] {
      SamePlacements(a[1..], b[1..]);
    }
  }

  /** Propagation neither adds, drops nor reorders a placement. */
  lemma PropagatedPlacements(steps: seq<Step>, k: int, shown: Option<Rotation>, rot: Option<Rotation>)
    requires 0 <= k < |steps|
    ensures Placements(Propagated(steps, k, shown, rot)) == Placements(steps)
  {
    PropagatedShape(steps, k, shown, rot);
    SamePlacements(Propagated(steps, k, shown, rot), steps);
  }

  /** propagate's loop: walk the run after step k that shows `shown`, then set step k. */
  method PropagateSteps(steps: seq<Step>, k: int, shown: Option<Rotation>, rot: Option<Rotation>) returns (r: seq<Step>)
    requires 0 <= k < |steps|
    ensures r == Propagated(steps, k, shown, rot)
  {
    r := steps;
    var i := k + 1;
    while i < |r| && r[i].rotation == shown
      invariant k + 1 <= i <= RunEnd(steps, k + 1, shown)
      invariant |r| == |steps|
      invariant forall j :: 0 <= j < |r| ==> r[j] == if k < j < i then steps[j].(rotation := rot) else steps[j]
      decreases |r| - i
    {
      r := r[i := r[i].(rotation := rot)];
      i := i + 1;
    }
    r := r[k := r[k].(rotation := rot)];
  }

  /** The rotation makeNormal propagates: the previous step's, or none at the first step. */
  function NormalRotation(steps: seq<Step>, k: int): Option<Rotation>
    requires 0 <= k < |steps|
  {
    if k == 0 then None else steps[k - 1].rotation
  }

  /** After makeNormal, step k rotates as the step before it does (and not at all at step 0). */
  lemma NormalCopiesPrevious(steps: seq<Step>, k: int, shown: Option<Rotation>)
    requires 0 <= k < |steps|
    ensures var r := Propagated(steps, k, shown, NormalRotation(steps, k));
      && (k == 0 ==> r[0].rotation == None)
      && (k > 0 ==> r[k].rotation == r[k - 1].rotation)
  {
    PropagatedShape(steps, k, shown, NormalRotation(steps, k));
  }

  /** Propagating the rotation step k already has, over a run that already has it, changes nothing. */
  lemma PropagateUnchanged(steps: seq<Step>, k: int)
    requires 0 <= k < |steps|
    ensures Propagated(steps, k, steps[k].rotation, steps[k].rotation) == steps
  {
    var r := Propagated(steps, k, steps[k].rotation, steps[k].rotation);
    PropagatedShape(steps, k, steps[k].rotation, steps[k].rotation);
    assert forall j :: 0 <= j < |r| ==> r[j] == steps[j];
  }

  // ---------------------------------------------------------------------------
  // Button visibility

  /** Which of the colour, remove and move-to-new-sub-model buttons are displayed. */
  datatype Shown = Shown(color: bool, remove: bool, moveToNewSubModel: bool)

  /**
   * showAndHideButtons, for the step at index c of a part type with steps s.
   * The placements of the step shown are those of the part type's step there.
   */
  function Buttons(s: seq<Step>, c: int): Shown
    requires 0 <= c < |s|
  {
    var anyHighlighted := AnyGhost(s[c].subModels);
    var last := |s| == 1;
    var empty := |s[c].subModels| == 0;
    Shown(anyHighlighted, anyHighlighted || !last, !(empty || (!anyHighlighted && last)))
  }

  /** The colour button is shown exactly when colorGhosted has a placement to recolour. */
  lemma ColorButtonShown(s: seq<Step>, c: int)
    requires 0 <= c < |s|
    ensures Buttons(s, c).color <==> Ghosts(s[c].subModels) != []
  {
    NoGhosts(s[c].subModels);
  }

  /**
   * The remove button is hidden only on the sole step of a part type with
   * nothing ghosted, where remove would delete the part type's last step or
   * leave it as it is.
   */
  lemma RemoveButtonHidden(s: seq<Step>, c: int, usages: nat)
    requires 0 <= c < |s|
    ensures !Buttons(s, c).remove <==> |s| == 1 && !AnyGhost(s[c].subModels)
    ensures !Buttons(s, c).remove ==>
      && (RemoveCaseOf(s, c) == DeleteEmpty || RemoveCaseOf(s, c) == NoChange)
      && (RemoveCaseOf(s, c) == DeleteEmpty ==> Removed(s, c, usages).steps == [])
      && (RemoveCaseOf(s, c) == NoChange ==> Removed(s, c, usages).steps == s)
  {
  }

  /**
   * The move-to-new-sub-model button is shown only when the new part type
   * would get placements, and it is hidden on a step with placements only
   * when that step, ghost-free, is the whole of its part type.
   */
  lemma ExtractButtonShown(s: seq<Step>, c: int)
    requires 0 <= c < |s|
    ensures Buttons(s, c).moveToNewSubModel ==> |ExtractedPartSteps(s, c)[0].subModels| > 0
    ensures !Buttons(s, c).moveToNewSubModel && !IsEmpty(s[c]) ==>
      |s| == 1 && ExtractedPartSteps(s, c) == s
  {
    NoGhosts(s[c].subModels);
  }

  // ---------------------------------------------------------------------------

  /** The editor panel: the cursor it last saw and the counter for new part names. */
  class StepEditor {
    const loader: Loader
    var nextID: nat
    /** this.part, by its ID */
    var part: string
    var stepIndex: int
    /** this.step.rotation: the rotation of the step displayed at the cursor */
    var shown: Option<Rotation>

    constructor (loader: Loader)
      ensures this.loader == loader && nextID == 0
      ensures part == "" && stepIndex == 0 && shown == None
    {
      this.loader := loader;
      nextID := 0;
      part := "";
      stepIndex := 0;
      shown := None;
    }

    /** updateCurrentStep: record the part type, step index and step that the cursor is at. */
    method UpdateCurrentStep(part: string, stepIndex: int, shown: Option<Rotation>)
      modifies this`part, this`stepIndex, this`shown
      ensures this.part == part && this.stepIndex == stepIndex && this.shown == shown
    {
      this.part := part;
      this.stepIndex := stepIndex;
      this.shown := shown;
    }

    /**
     * generateNextID: count up from nextID to the first counter whose name
     * is not a registered part type, and return that name.
     */
    method GenerateNextID() returns (name: string)
      modifies this`nextID
      ensures old(nextID) <= nextID
      ensures name == PartName(nextID) && name !in loader.partTypes
      ensures forall n :: old(nextID) <= n < nextID ==> PartName(n) in loader.partTypes
    {
      while PartName(nextID) in loader.partTypes
        invariant old(nextID) <= nextID
        invariant forall n :: old(nextID) <= n < nextID ==> PartName(n) in loader.partTypes
        decreases |Pending(loader.partTypes.Keys, nextID)|
      {
        PendingShrinks(loader.partTypes.Keys, nextID);
        nextID := nextID + 1;
      }
      name := PartName(nextID);
    }

    /**
     * propagate(rot): overwrite the rotation of the steps after the cursor
     * while they equal the rotation shown at the cursor, then that of the
     * step at the cursor.
     */
    method Propagate(rot: Option<Rotation>)
      requires loader.Valid() && part in loader.partTypes && 0 <= stepIndex < |loader.partTypes[part].steps|
      modifies loader`partTypes
      ensures loader.Valid()
      ensures loader.partTypes ==
        WithSteps(old(loader.partTypes), part, Propagated(old(loader.partTypes[part].steps), stepIndex, shown, rot))
    {
      var steps := PropagateSteps(loader.partTypes[part].steps, stepIndex, shown, rot);
      PropagatedPlacements(old(loader.partTypes[part].steps), stepIndex, shown, rot);
      ReplaceStepsRanked(loader.partTypes, loader.depth, part, steps);
      loader.partTypes := WithSteps(loader.partTypes, part, steps);
    }

    /** makeNormal: propagate the previous step's rotation, or none at the first step. */
    method MakeNormal()
      requires loader.Valid() && part in loader.partTypes && 0 <= stepIndex < |loader.partTypes[part].steps|
      modifies loader`partTypes
      ensures loader.Valid()
      ensures var s := old(loader.partTypes[part].steps);
        loader.partTypes == WithSteps(old(loader.partTypes), part, Propagated(s, stepIndex, shown, NormalRotation(s, stepIndex)))
    {
      var steps := loader.partTypes[part].steps;
      Propagate(if stepIndex == 0 then None else steps[stepIndex - 1].rotation);
    }

    /** makeEnd: propagate the absence of a rotation. */
    method MakeEnd()
      requires loader.Valid() && part in loader.partTypes && 0 <= stepIndex < |loader.partTypes[part].steps|
      modifies loader`partTypes
      ensures loader.Valid()
      ensures loader.partTypes ==
        WithSteps(old(loader.partTypes), part, Propagated(old(loader.partTypes[part].steps), stepIndex, shown, None))
    {
      Propagate(None);
    }
  }

  // ---------------------------------------------------------------------------
  // Termination of generateNextID

  /** The registered names that are generated names with a counter at or above n. */
  ghost function Pending(keys: set<string>, n: nat): set<string> {
    set k | k in keys && IsPartName(k) && CounterOf(k) >= n
  }

  predicate IsPartName(k: string) {
    |k| > |Extension| && forall i :: 0 <= i < |k| - |Extension| ==> IsDigit(k[i])
  }

  /** Skipping a taken counter value leaves fewer names to skip. */
  lemma PendingShrinks(keys: set<string>, n: nat)
    requires PartName(n) in keys
    ensures |Pending(keys, n + 1)| < |Pending(keys, n)|
  {
    PartNameRoundTrip(n);
    var bigger := Pending(keys, n + 1) + {PartName(n)};
    assert PartName(n) !in Pending(keys, n + 1);
    assert |bigger| == |Pending(keys, n + 1)| + 1;
    assert bigger <= Pending(keys, n);
    SubsetSize(bigger, Pending(keys, n));
  }

  lemma {:induction false} SubsetSize<T>(a: set<T>, b: set<T>)
    requires a <= b
    ensures |a| <= |b|
  {
    assert b == a + (b - a);
  }
}
