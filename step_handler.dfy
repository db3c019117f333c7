/**
 * The editing operations of LDR.StepHandler. Each one finds the cursor,
 * rewrites the step list of the current part type in the loader's registry,
 * and reports the global step index the viewer is to move to once it has
 * rebuilt its handlers.
 */
module StepHandlers {
  import opened Wrappers
  import opened Splice
  import opened Document
  import opened Registry
  import opened Handlers
  import opened Edits

  /**
   * What getCurrentStepInfo(), getCurrentStepIndex() and
   * getCurrentStepHandler() report: no step, or the innermost handler (its
   * part type and current step) and the global step index.
   */
  datatype Cursor = NoStep | At(sh: Handler, stepIndex: int)

  /** How an edit ends: a warning, a move to a global step index, or a thrown TypeError. */
  datatype Outcome = Warned | Moved(stepIndex: int) | Threw

  /** A cursor at a step names a registered part type and one of its steps. */
  predicate CursorValid(parts: Parts, cursor: Cursor) {
    cursor.At? ==>
      AtStep(cursor.sh) && cursor.sh.part in parts && cursor.sh.current < |parts[cursor.sh.part].steps|
  }

  /** The placements of the step at the cursor. */
  function CurrentPlacements(parts: Parts, cursor: Cursor): seq<Placement>
    requires CursorValid(parts, cursor)
  {
    if cursor.NoStep? then [] else parts[cursor.sh.part].steps[cursor.sh.current].subModels
  }

  function GhostedSet(s: seq<Placement>): set<Placement> {
    set p | p in s && p.ghosted
  }

  class StepHandler {
    const loader: Loader
    /** This handler's own traversal state, the root of the handler tree. */
    const tree: Handler

    constructor (loader: Loader, tree: Handler)
      ensures this.loader == loader && this.tree == tree
    {
      this.loader := loader;
      this.tree := tree;
    }

    /** colorGhosted: recolour every ghosted placement of the current step. */
    method ColorGhosted(cursor: Cursor, colorID: int) returns (outcome: Outcome)
      requires CursorValid(loader.partTypes, cursor)
      modifies GhostedSet(CurrentPlacements(loader.partTypes, cursor))
      ensures cursor.NoStep? ==> outcome == Warned
      ensures cursor.At? ==> outcome == Moved(cursor.stepIndex)
      ensures forall p :: p in CurrentPlacements(loader.partTypes, cursor) ==>
                p.colorID == if p.ghosted then colorID else old(p.colorID)
    {
      if cursor.NoStep? {
        return Warned;
      }
      var subModels := loader.partTypes[cursor.sh.part].steps[cursor.sh.current].subModels;
      var i := 0;
      while i < |subModels|
        invariant 0 <= i <= |subModels|
        invariant forall p :: p in subModels ==>
                    p.colorID == if p.ghosted && p in subModels[..i] then colorID else old(p.colorID)
        invariant forall p :: p in subModels && p.ghosted ==> p in GhostedSet(subModels)
      {
        var pd := subModels[i];
        if pd.ghosted {
          pd.colorID := colorID;
        }
        assert subModels[..i + 1] == subModels[..i] + [pd];
        i := i + 1;
      }
      assert subModels[..i] == subModels;
      return Moved(cursor.stepIndex);
    }

    /** addStep: a new empty step after the current one; the cursor moves onto it. */
    method AddStep(cursor: Cursor) returns (outcome: Outcome)
      requires loader.Valid() && WellFormed(tree) && CursorValid(loader.partTypes, cursor)
      modifies loader`partTypes
      ensures loader.Valid()
      ensures cursor.NoStep? ==> outcome == Warned && loader.partTypes == old(loader.partTypes)
      ensures cursor.At? ==>
        var id, c := cursor.sh.part, cursor.sh.current;
        && loader.partTypes == WithSteps(old(loader.partTypes), id, AddedSteps(old(loader.partTypes)[id].steps, c))
        && outcome == Moved(cursor.stepIndex + Usages(tree, id) + 1)
    {
      if cursor.NoStep? {
        return Warned;
      }
      var id, current := cursor.sh.part, cursor.sh.current;
      var steps := loader.partTypes[id].steps;
      var newStep := NewStep(steps[current].rotation);
      steps := InsertAt(steps, current + 1, newStep);
      var usages := CountUsages(tree, id);
      AddStepRanked(loader.partTypes, loader.depth, id, current);
      loader.partTypes := WithSteps(loader.partTypes, id, steps);
      return Moved(cursor.stepIndex + usages + 1);
    }

    /**
     * remove: delete an empty current step; otherwise drop the ghosted
     * placements (purging the part type everywhere when that empties its
     * only step); otherwise merge the current step into the previous one.
     */
    method Remove(cursor: Cursor) returns (outcome: Outcome)
      requires loader.Valid() && WellFormed(tree) && CursorValid(loader.partTypes, cursor)
      modifies loader`partTypes
      ensures loader.Valid()
      ensures cursor.NoStep? ==> outcome == Warned && loader.partTypes == old(loader.partTypes)
      ensures cursor.At? ==>
        var id, c, s := cursor.sh.part, cursor.sh.current, old(loader.partTypes)[cursor.sh.part].steps;
        var e := Removed(s, c, Usages(tree, id));
        && outcome == Moved(cursor.stepIndex + e.shift)
        && (!RemovePurges(s, c) ==> loader.partTypes == WithSteps(old(loader.partTypes), id, e.steps))
        && (RemovePurges(s, c) ==>
              && loader.partTypes.Keys == old(loader.partTypes).Keys
              && loader.partTypes[id] == old(loader.partTypes)[id].(steps := e.steps)
              && (forall q :: q in loader.partTypes && q != id ==>
                    PartPurged(old(loader.partTypes)[q], loader.partTypes[q], id))
              && (forall q :: q in loader.partTypes && q != id && !Reaches(old(loader.partTypes), loader.depth, loader.mainModel, q)
                    ==> loader.partTypes[q] == old(loader.partTypes)[q])
              && CleanBelow(loader.partTypes, loader.depth, loader.mainModel, id))
    {
      if cursor.NoStep? {
        return Warned;
      }
      var id, current := cursor.sh.part, cursor.sh.current;
      var usages := CountUsages(tree, id);
      var steps, shift, purge := RemoveSteps(loader.partTypes[id].steps, current, usages);
      if purge {
        DropAndPurge(id, current);
      } else {
        RemoveRanked(loader.partTypes, loader.depth, id, current, usages);
        loader.partTypes := WithSteps(loader.partTypes, id, steps);
      }
      return Moved(cursor.stepIndex + shift);
    }

    /**
     * The ghosted branch of remove when it empties the only step of part
     * type id: drop the ghosted placements, mainModel.purgePart(loader, id),
     * then part.steps = part.steps.slice(1).
     */
    method DropAndPurge(id: string, c: int)
      requires loader.Valid() && id in loader.partTypes && 0 <= c < |loader.partTypes[id].steps|
      requires RemovePurges(loader.partTypes[id].steps, c)
      modifies loader`partTypes
      ensures loader.Valid()
      ensures loader.partTypes.Keys == old(loader.partTypes).Keys
      ensures loader.partTypes[id] == old(loader.partTypes)[id].(steps := [])
      ensures forall q :: q in loader.partTypes && q != id ==>
                PartPurged(old(loader.partTypes)[q], loader.partTypes[q], id)
      ensures forall q :: q in loader.partTypes && q != id && !Reaches(old(loader.partTypes), loader.depth, loader.mainModel, q) ==>
                loader.partTypes[q] == old(loader.partTypes)[q]
      ensures CleanBelow(loader.partTypes, loader.depth, loader.mainModel, id)
    {
      ghost var original := loader.partTypes;
      DropKeepsRanked(loader.partTypes, loader.depth, id, c);
      loader.partTypes := WithSteps(loader.partTypes, id, Dropped(loader.partTypes[id].steps, c));
      ghost var dropped := loader.partTypes;
      loader.PurgePart(loader.mainModel, id);
      SliceAfterPurge(original, c, dropped, loader.partTypes, loader.depth, loader.mainModel, id);
      PurgeFrame(original, dropped, loader.partTypes, loader.depth, loader.mainModel, id);
      loader.partTypes := WithSteps(loader.partTypes, id, loader.partTypes[id].steps[1..]);
    }

    /**
     * moveNext: with nothing ghosted the current step trades places with the
     * next; otherwise the ghosted placements move forward, past a step that
     * places a sub-model.
     */
    method MoveNext(cursor: Cursor) returns (outcome: Outcome)
      requires loader.Valid() && WellFormed(tree) && CursorValid(loader.partTypes, cursor)
      modifies loader`partTypes
      ensures loader.Valid()
      ensures cursor.NoStep? ==> outcome == Warned && loader.partTypes == old(loader.partTypes)
      ensures cursor.At? ==>
        var id, c, s := cursor.sh.part, cursor.sh.current, old(loader.partTypes)[cursor.sh.part].steps;
        var e := MovedNext(old(loader.partTypes), s, c, CountStepsInsideOfNextStep(cursor.sh), Usages(tree, id));
        && loader.partTypes == WithSteps(old(loader.partTypes), id, e.steps)
        && outcome == Moved(cursor.stepIndex + e.shift)
    {
      if cursor.NoStep? {
        return Warned;
      }
      var id := cursor.sh.part;
      var usages := CountUsages(tree, id);
      var steps, shift := MoveNextSteps(loader.partTypes, loader.partTypes[id].steps, cursor.sh, usages);
      MoveNextRanked(loader.partTypes, loader.depth, id, cursor.sh.current, CountStepsInsideOfNextStep(cursor.sh), usages);
      loader.partTypes := WithSteps(loader.partTypes, id, steps);
      return Moved(cursor.stepIndex + shift);
    }

    /**
     * movePrev: the mirror of moveNext. When it has to skip the first step
     * it reads steps[-1] and throws, leaving the document as it was.
     */
    method MovePrev(cursor: Cursor) returns (outcome: Outcome)
      requires loader.Valid() && WellFormed(tree) && CursorValid(loader.partTypes, cursor)
      modifies loader`partTypes
      ensures loader.Valid()
      ensures cursor.NoStep? ==> outcome == Warned && loader.partTypes == old(loader.partTypes)
      ensures cursor.At? ==>
        var id, c, s := cursor.sh.part, cursor.sh.current, old(loader.partTypes)[cursor.sh.part].steps;
        var e := MovedPrev(old(loader.partTypes), s, c, CountStepsInsideOfPreviousStep(cursor.sh));
        && (e.Crashed? ==> outcome == Threw && loader.partTypes == old(loader.partTypes))
        && (e.Edited? ==>
              loader.partTypes == WithSteps(old(loader.partTypes), id, e.steps)
              && outcome == Moved(cursor.stepIndex + e.shift))
    {
      if cursor.NoStep? {
        return Warned;
      }
      var id := cursor.sh.part;
      var steps, shift, threw := MovePrevSteps(loader.partTypes, loader.partTypes[id].steps, cursor.sh);
      if threw {
        return Threw;
      }
      MovePrevRanked(loader.partTypes, loader.depth, id, cursor.sh.current, CountStepsInsideOfPreviousStep(cursor.sh));
      loader.partTypes := WithSteps(loader.partTypes, id, steps);
      return Moved(cursor.stepIndex + shift);
    }

    /**
     * moveToNewSubModel: register a new part type newID made of the current
     * step (or of its ghosted placements) and put a drop step placing it in
     * the current part type.
     */
    method MoveToNewSubModel(cursor: Cursor, newID: string) returns (outcome: Outcome, ghost pd: Placement?)
      requires loader.Valid() && WellFormed(tree) && CursorValid(loader.partTypes, cursor)
      requires newID !in loader.partTypes
      modifies loader`partTypes, loader`depth
      ensures loader.Valid()
      ensures cursor.NoStep? ==> outcome == Warned && loader.partTypes == old(loader.partTypes)
      ensures cursor.At? ==>
        && pd != null && fresh(pd) && pd.ID == newID && pd.colorID == 16 && pd.position == Origin && pd.rotation == Identity
        && pd.cull && !pd.invertCCW && !pd.ghosted
      ensures cursor.At? ==>
        var id, c, s := cursor.sh.part, cursor.sh.current, old(loader.partTypes)[cursor.sh.part].steps;
        && pd != null
        && loader.partTypes == ExtractedParts(old(loader.partTypes), id, c, newID, pd, Usages(tree, id))
        && outcome == Moved(cursor.stepIndex + Extracted(s, c, DropStep(pd, s[c].rotation), Usages(tree, id)).shift)
    {
      if cursor.NoStep? {
        return Warned, null;
      }
      var id, current := cursor.sh.part, cursor.sh.current;
      var newPD := new Placement(16, Origin, Identity, newID, true, false, false);
      var usages := CountUsages(tree, id);
      var shift := Extract(id, current, newID, newPD, usages);
      return Moved(cursor.stepIndex + shift), newPD;
    }

    /**
     * The rest of moveToNewSubModel once the new placement newPD exists:
     * the new part type, the drop step, and the step-list surgery.
     */
    method Extract(id: string, current: int, newID: string, newPD: Placement, usages: nat) returns (shift: int)
      requires loader.Valid() && id in loader.partTypes && 0 <= current < |loader.partTypes[id].steps|
      requires newID !in loader.partTypes && newPD.ID == newID
      modifies loader`partTypes, loader`depth
      ensures loader.Valid()
      ensures loader.partTypes == ExtractedParts(old(loader.partTypes), id, current, newID, newPD, usages)
      ensures var s := old(loader.partTypes)[id].steps;
        shift == Extracted(s, current, DropStep(newPD, s[current].rotation), usages).shift
    {
      var parts := loader.partTypes;
      var originalStep := parts[id].steps[current];
      var newPT := NewPartType(newID, []);
      var dropStep := NewStep(originalStep.rotation).(fileLines := [Line1(newPD)]);
      dropStep := dropStep.(subModels := dropStep.subModels + [newPD]);
      assert dropStep == DropStep(newPD, originalStep.rotation);
      var r, partSteps;
      r, partSteps, shift := ExtractSteps(parts[id].steps, current, dropStep, usages);
      newPT := newPT.(steps := partSteps);
      ExtractKeepsRanked(parts, loader.depth, id, current, newID, newPD, usages);
      loader.partTypes := parts[newID := newPT][id := parts[id].(steps := r)];
      loader.depth := Deepened(loader.depth, id, newID);
    }
  }

  // ---------------------------------------------------------------------------
  // The step-list surgery of each edit, on values

  /** The branches of remove on the step list; `purge` when it calls purgePart. */
  method RemoveSteps(steps: seq<Step>, current: int, usages: nat) returns (r: seq<Step>, shift: int, purge: bool)
    requires 0 <= current < |steps|
    ensures var e := Removed(steps, current, usages);
      r == e.steps && shift == e.shift && purge == RemovePurges(steps, current)
    ensures purge ==> r == []
  {
    r, shift, purge := steps, 0, false;
    var originalStep := steps[current];
    if IsEmpty(originalStep) {
      r := RemoveAt(r, current);
      shift := shift - usages;
    } else if AnyGhost(originalStep.subModels) {
      r := r[current := DropGhosts(originalStep)];
      if IsEmpty(r[0]) {
        purge := |r| == 1;
        r := r[1..];
        shift := shift - usages;
      }
    } else if current > 0 {
      var prevStep := r[current - 1];
      r := r[current - 1 := MergedLeft(prevStep, originalStep)];
      r := RemoveAt(r, current);
      shift := shift - (usages + 1);
    }
  }

  /**
   * The step-list surgery of moveToNewSubModel, given the drop step: the new
   * part type's steps, and the change to the cursor target.
   */
  method ExtractSteps(steps: seq<Step>, current: int, dropStep: Step, usages: nat)
    returns (r: seq<Step>, partSteps: seq<Step>, shift: int)
    requires 0 <= current < |steps|
    ensures var e := Extracted(steps, current, dropStep, usages);
      r == e.steps && shift == e.shift && partSteps == ExtractedPartSteps(steps, current)
  {
    var originalStep := steps[current];
    r := steps;
    if AnyGhost(originalStep.subModels) {
      shift := 2 * usages + 1;
      r := InsertAt(r, current + 1, dropStep);
      var newStep := GhostStep(originalStep);
      r := r[current := DropGhosts(originalStep)];
      assert r == InsertAt(Dropped(steps, current), current + 1, dropStep);
      partSteps := [newStep];
    } else {
      shift := usages;
      partSteps := [r[current]];
      r := r[current := dropStep];
    }
  }

  /**
   * The step-list surgery of moveNext, with the change to the cursor target
   * it accumulates; `usages` is countUsages(part.ID).
   */
  method MoveNextSteps(parts: Parts, steps: seq<Step>, sh: Handler, usages: nat) returns (r: seq<Step>, shift: int)
    requires AtStep(sh) && sh.current < |steps|
    ensures var e := MovedNext(parts, steps, sh.current, CountStepsInsideOfNextStep(sh), usages);
      r == e.steps && shift == e.shift
  {
    var current := sh.current;
    r, shift := steps, 0;
    var originalStep := r[current];
    if current == |r| - 1 {
      r := r + [NewStep(originalStep.rotation)];
    }
    assert r == NextPadded(steps, current);
    if !AnyGhost(originalStep.subModels) {
      shift := shift + CountStepsInsideOfNextStep(sh);
      MoveLater(r, current);
      r := RemoveAt(r, current);
      r := InsertAt(r, current + 1, originalStep);
    } else {
      var nextStepIdx := current + 1;
      shift := shift + 1;
      if ContainsNonPartSubModels(parts, r[nextStepIdx]) {
        shift := shift + CountStepsInsideOfNextStep(sh);
        nextStepIdx := nextStepIdx + 1;
        if nextStepIdx == |r| || ContainsNonPartSubModels(parts, r[nextStepIdx]) {
          var skippedStep := r[current + 1];
          r := InsertAt(r, current + 1, NewStep(skippedStep.rotation));
        }
      }
      assert r == NextPrepared(parts, steps, current) && nextStepIdx == NextTarget(parts, steps, current);
      var nextStep := r[nextStepIdx];
      r := r[current := DropGhosts(originalStep)][nextStepIdx := Receive(nextStep, originalStep)];
      if IsEmpty(r[0]) {
        r := r[1..];
        shift := shift - usages;
      }
    }
  }

  /**
   * The step-list surgery of movePrev, with the change to the cursor target
   * it accumulates; `threw` when it reads steps[-1].
   */
  method MovePrevSteps(parts: Parts, steps: seq<Step>, sh: Handler) returns (r: seq<Step>, shift: int, threw: bool)
    requires AtStep(sh) && sh.current < |steps|
    ensures var e := MovedPrev(parts, steps, sh.current, CountStepsInsideOfPreviousStep(sh));
      threw == e.Crashed? && (!threw ==> r == e.steps && shift == e.shift)
  {
    var current := sh.current;
    r, shift, threw := steps, 0, false;
    var originalStep := r[current];
    if current == 0 {
      r := InsertAt(r, 0, NewStep(originalStep.rotation));
      current := current + 1;
      shift := shift + 1;
    }
    assert r == PrevPadded(steps, sh.current) && current == PrevIndex(sh.current) && r[current] == originalStep;
    ghost var e := MovedPrev(parts, steps, sh.current, CountStepsInsideOfPreviousStep(sh));
    if !AnyGhost(originalStep.subModels) {
      assert e == Edited(SwapWithNext(r, current - 1), shift - CountStepsInsideOfPreviousStep(sh));
      shift := shift - CountStepsInsideOfPreviousStep(sh);
      r := MoveStepEarlier(r, current);
    } else {
      ghost var g := PrevGhostsMoved(parts, r, current, CountStepsInsideOfPreviousStep(sh));
      assert e == if g.Crashed? then Crashed else Edited(g.steps, shift + g.shift);
      var delta;
      r, delta, threw := PrevGhostSteps(parts, r, current, CountStepsInsideOfPreviousStep(sh));
      shift := shift + delta;
    }
  }

  /** splice(current, 1) then splice(current - 1, 0, step): the step trades places with its predecessor. */
  method MoveStepEarlier(steps: seq<Step>, current: int) returns (r: seq<Step>)
    requires 0 < current < |steps|
    ensures r == SwapWithNext(steps, current - 1)
  {
    var step := steps[current];
    MoveEarlier(steps, current);
    r := RemoveAt(steps, current);
    r := InsertAt(r, current - 1, step);
  }

  /** The ghost branch of movePrev, on the padded list with the current step at `current`. */
  method PrevGhostSteps(parts: Parts, steps: seq<Step>, current: int, inside: nat)
    returns (r: seq<Step>, shift: int, threw: bool)
    requires 0 < current < |steps|
    ensures var g := PrevGhostsMoved(parts, steps, current, inside);
      threw == g.Crashed? && (!threw ==> r == g.steps && shift == g.shift)
  {
    r, shift, threw := steps, -1, false;
    var originalStep := r[current];
    var originalIdx := current;
    var prevStepIdx := current - 1;
    if ContainsNonPartSubModels(parts, r[prevStepIdx]) {
      shift := shift - inside;
      prevStepIdx := prevStepIdx - 1;
      if prevStepIdx < 0 {
        // steps[-1] is undefined: asking it for containsNonPartSubModels throws.
        return r, shift, true;
      }
      if prevStepIdx == |r| || ContainsNonPartSubModels(parts, r[prevStepIdx]) {
        var skippedStep := r[current - 1];
        r := InsertAt(r, current - 2, NewStep(skippedStep.rotation));
        originalIdx := current + 1;
      }
    }
    assert r[originalIdx] == originalStep;
    var prevStep := r[prevStepIdx];
    r := r[originalIdx := DropGhosts(originalStep)][prevStepIdx := Receive(prevStep, originalStep)];
  }

  // ---------------------------------------------------------------------------
  // Each edit keeps the registry keyed by ID and ranked

  /** Writing a step list with no placement the old one lacks keeps the registry keyed and ranked. */
  lemma CommitSteps(parts: Parts, depth: map<string, nat>, id: string, steps: seq<Step>)
    requires KeyedByID(parts) && Ranked(parts, depth) && id in parts
    requires multiset(Placements(steps)) <= multiset(Placements(parts[id].steps))
    ensures KeyedByID(WithSteps(parts, id, steps)) && Ranked(WithSteps(parts, id, steps), depth)
    ensures WithSteps(parts, id, steps).Keys == parts.Keys && SubRegistry(parts, WithSteps(parts, id, steps))
  {
    forall p | p in Placements(steps) ensures p in Placements(parts[id].steps) {
      assert multiset(Placements(steps))[p] > 0;
      assert multiset(Placements(parts[id].steps))[p] > 0;
    }
    ReplaceStepsRanked(parts, depth, id, steps);
  }

  lemma AddStepRanked(parts: Parts, depth: map<string, nat>, id: string, c: int)
    requires KeyedByID(parts) && Ranked(parts, depth) && id in parts && 0 <= c < |parts[id].steps|
    ensures var b := WithSteps(parts, id, AddedSteps(parts[id].steps, c));
      KeyedByID(b) && Ranked(b, depth) && b.Keys == parts.Keys
  {
    var s := parts[id].steps;
    PlacementsInsert(s, c + 1, NewStep(s[c].rotation));
    CommitSteps(parts, depth, id, AddedSteps(s, c));
  }

  lemma DropKeepsRanked(parts: Parts, depth: map<string, nat>, id: string, c: int)
    requires KeyedByID(parts) && Ranked(parts, depth) && id in parts && 0 <= c < |parts[id].steps|
    ensures var b := WithSteps(parts, id, Dropped(parts[id].steps, c));
      KeyedByID(b) && Ranked(b, depth) && b.Keys == parts.Keys && SubRegistry(parts, b)
  {
    var s := parts[id].steps;
    DropConserves(s, c);
    CommitSteps(parts, depth, id, Dropped(s, c));
  }

  lemma RemoveRanked(parts: Parts, depth: map<string, nat>, id: string, c: int, usages: nat)
    requires KeyedByID(parts) && Ranked(parts, depth) && id in parts && 0 <= c < |parts[id].steps|
    ensures var b := WithSteps(parts, id, Removed(parts[id].steps, c, usages).steps);
      KeyedByID(b) && Ranked(b, depth) && b.Keys == parts.Keys
  {
    var s := parts[id].steps;
    RemoveConserves(s, c, usages);
    CommitSteps(parts, depth, id, Removed(s, c, usages).steps);
  }

  lemma MoveNextRanked(parts: Parts, depth: map<string, nat>, id: string, c: int, inside: nat, usages: nat)
    requires KeyedByID(parts) && Ranked(parts, depth) && id in parts && 0 <= c < |parts[id].steps|
    ensures var b := WithSteps(parts, id, MovedNext(parts, parts[id].steps, c, inside, usages).steps);
      KeyedByID(b) && Ranked(b, depth) && b.Keys == parts.Keys
  {
    var s := parts[id].steps;
    MoveNextConserves(parts, s, c, inside, usages);
    CommitSteps(parts, depth, id, MovedNext(parts, s, c, inside, usages).steps);
  }

  lemma MovePrevRanked(parts: Parts, depth: map<string, nat>, id: string, c: int, inside: nat)
    requires KeyedByID(parts) && Ranked(parts, depth) && id in parts && 0 <= c < |parts[id].steps|
    requires MovedPrev(parts, parts[id].steps, c, inside).Edited?
    ensures var b := WithSteps(parts, id, MovedPrev(parts, parts[id].steps, c, inside).steps);
      KeyedByID(b) && Ranked(b, depth) && b.Keys == parts.Keys
  {
    var s := parts[id].steps;
    MovePrevConserves(parts, s, c, inside);
    CommitSteps(parts, depth, id, MovedPrev(parts, s, c, inside).steps);
  }

  /**
   * A ghost-free moveNext followed by movePrev from the moved step, each with
   * the step counts of the handler it starts from, restores both the steps
   * and the cursor target.
   */
  lemma {:induction false} MoveNextThenPrev(parts: Parts, s: seq<Step>, sh: Handler, usages: nat)
    requires AtStep(sh) && |sh.steps| == |s| && sh.current < |s| - 1 && !AnyGhost(s[sh.current].subModels)
    ensures var e := MovedNext(parts, s, sh.current, CountStepsInsideOfNextStep(sh), usages);
      MovedPrev(parts, e.steps, sh.current + 1, CountStepsInsideOfPreviousStep(SteppedForward(sh))) == Edited(s, -e.shift)
  {
    MovePrevUndoesMoveNext(parts, s, sh.current, CountStepsInsideOfNextStep(sh),
                           CountStepsInsideOfPreviousStep(SteppedForward(sh)), usages);
    SteppedForwardCounts(sh);
  }

  /** The registry after moveToNewSubModel: newID registered with the extracted steps, id given the drop step. */
  function ExtractedParts(parts: Parts, id: string, c: int, newID: string, pd: Placement, usages: nat): Parts
    requires id in parts && 0 <= c < |parts[id].steps|
  {
    var s := parts[id].steps;
    parts[newID := NewPartType(newID, ExtractedPartSteps(s, c))]
         [id := parts[id].(steps := Extracted(s, c, DropStep(pd, s[c].rotation), usages).steps)]
  }

  lemma ExtractKeepsRanked(parts: Parts, depth: map<string, nat>, id: string, c: int,
                           newID: string, pd: Placement, usages: nat)
    requires KeyedByID(parts) && Ranked(parts, depth) && id in parts && 0 <= c < |parts[id].steps|
    requires newID !in parts && pd.ID == newID
    ensures var b := ExtractedParts(parts, id, c, newID, pd, usages);
      KeyedByID(b) && Ranked(b, Deepened(depth, id, newID)) && b.Keys == parts.Keys + {newID}
  {
    var s := parts[id].steps;
    ExtractPartFrom(s, c);
    ExtractStepsFrom(s, c, pd, usages);
    ExtractRanked(parts, depth, id, NewPartType(newID, ExtractedPartSteps(s, c)),
                  Extracted(s, c, DropStep(pd, s[c].rotation), usages).steps, pd);
  }

  /**
   * The purge from main after the drop in part type id leaves every other
   * part type that main does not reach as it was before the drop.
   */
  lemma PurgeFrame(a0: Parts, a: Parts, b: Parts, depth: map<string, nat>, main: string, id: string)
    requires Ranked(a0, depth) && Ranked(a, depth) && SubRegistry(a0, a) && main in a0
    requires forall q :: q in a0 && q != id ==> a[q] == a0[q]
    requires OutsideUnchanged(a, b, depth, main) && id in b && |b[id].steps| == 1
    ensures var r := WithSteps(b, id, b[id].steps[1..]);
      forall q :: q in r && q != id && !Reaches(a0, depth, main, q) ==> q in a0 && r[q] == a0[q]
  {
    var r := WithSteps(b, id, b[id].steps[1..]);
    forall q | q in r && q != id && !Reaches(a0, depth, main, q) ensures q in a0 && r[q] == a0[q] {
      ReachesSub(a0, a, depth, main, q);
      assert r[q] == b[q];
    }
  }

  /**
   * When dropping the ghosted placements of step c empties the only step of
   * part type id, purging id and slicing that step away leaves the other
   * part types purged of id and id with no steps.
   */
  lemma SliceAfterPurge(a0: Parts, c: int, a: Parts, b: Parts, depth: map<string, nat>, main: string, id: string)
    requires KeyedByID(a0) && id in a0 && main in a0 && 0 <= c < |a0[id].steps| && RemovePurges(a0[id].steps, c)
    requires a == WithSteps(a0, id, Dropped(a0[id].steps, c))
    requires Ranked(b, depth) && PurgedFrom(a, b, id) && CleanBelow(b, depth, main, id)
    ensures b[id] == a[id] && |b[id].steps| == 1
    ensures var r := WithSteps(b, id, b[id].steps[1..]);
      && KeyedByID(r) && Ranked(r, depth) && r.Keys == a0.Keys
      && r[id] == a0[id].(steps := [])
      && (forall q :: q in r && q != id ==> PartPurged(a0[q], r[q], id))
      && CleanBelow(r, depth, main, id)
  {
    PurgedEmptyPart(a, b, id);
    assert b[id].steps[1..] == [];
    PurgedSlice(a0, c, a, b, id);
    SliceKeepsClean(b, depth, main, id);
  }

  /**
   * When dropping the ghosted placements of step c empties the only step of
   * part type id, purging id and then emptying id's step list leaves every
   * other part type purged of id and id with no steps.
   */
  lemma PurgedSlice(a0: Parts, c: int, a: Parts, b: Parts, id: string)
    requires KeyedByID(a0) && id in a0 && 0 <= c < |a0[id].steps|
    requires a == WithSteps(a0, id, Dropped(a0[id].steps, c))
    requires PurgedFrom(a, b, id)
    ensures var r := WithSteps(b, id, []);
      && KeyedByID(r) && r.Keys == a0.Keys
      && r[id] == a0[id].(steps := [])
      && (forall q :: q in r && q != id ==> PartPurged(a0[q], r[q], id))
  {
    var r := WithSteps(b, id, []);
    forall q | q in r ensures r[q].ID == q {
      assert r[q].ID == a0[q].ID;
    }
  }

  /** Emptying the step list of a part type keeps a registry ranked and clean of id. */
  lemma SliceKeepsClean(b: Parts, depth: map<string, nat>, main: string, id: string)
    requires Ranked(b, depth) && main in b && id in b && CleanBelow(b, depth, main, id)
    ensures Ranked(WithSteps(b, id, []), depth) && CleanBelow(WithSteps(b, id, []), depth, main, id)
  {
    var r := WithSteps(b, id, []);
    assert SubRegistry(b, r);
    CleanSub(b, r, depth, main, id);
  }

  /** Purging from a registry whose part type id places nothing leaves id as it is. */
  lemma PurgedEmptyPart(a: Parts, b: Parts, id: string)
    requires PurgedFrom(a, b, id) && id in a
    requires forall i :: 0 <= i < |a[id].steps| ==> a[id].steps[i].subModels == []
    ensures b[id] == a[id]
  {
    assert Without([], id) == [];
    assert b[id].steps == a[id].steps;
  }

  /** The placements taken out of the current part type all come from it. */
  lemma ExtractPartFrom(s: seq<Step>, c: int)
    requires 0 <= c < |s|
    ensures forall p :: p in Placements(ExtractedPartSteps(s, c)) ==> p in Placements(s)
  {
    var x := ExtractedPartSteps(s, c);
    assert Placements(x) == x[0].subModels + Placements([]) by { assert x[1..] == []; }
    GhostsMembers(s[c].subModels);
    forall p | p in Placements(x) ensures p in Placements(s) {
      PlacementsMember(s, p);
    }
  }

  /** The placements left in the current part type all come from it, or are the drop placement. */
  lemma ExtractStepsFrom(s: seq<Step>, c: int, pd: Placement, usages: nat)
    requires 0 <= c < |s|
    ensures forall p :: p in Placements(Extracted(s, c, DropStep(pd, s[c].rotation), usages).steps) ==>
              p in Placements(s) || p == pd
  {
    ExtractConserves(s, c, pd, usages);
    var r := Extracted(s, c, DropStep(pd, s[c].rotation), usages).steps;
    var x := ExtractedPartSteps(s, c);
    forall p | p in Placements(r) ensures p in Placements(s) || p == pd {
      assert multiset(Placements(r))[p] > 0;
      assert (multiset(Placements(r)) + multiset(Placements(x)))[p] > 0;
      assert (multiset(Placements(s)) + multiset{pd})[p] > 0;
      if p != pd {
        assert multiset(Placements(s))[p] > 0;
      }
    }
  }
}
