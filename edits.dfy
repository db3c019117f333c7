/**
 * What each step-handler edit does to the step list of the current part type
 * and to the cursor target, as functions of the old list. The methods of
 * StepHandlers.StepHandler are proved to perform exactly these edits.
 */
module Edits {
  import opened Wrappers
  import opened Splice
  import opened Document
  import opened Registry

  /** The new step list and the change to the cursor target, or the TypeError movePrev runs into. */
  datatype Edit = Edited(steps: seq<Step>, shift: int) | Crashed

  /** Move the ghosted placements and their lines from step `from` to the end of step `to`. */
  function MoveGhosts(s: seq<Step>, from: int, to: int): seq<Step>
    requires 0 <= from < |s| && 0 <= to < |s|
  {
    s[from := DropGhosts(s[from])][to := Receive(s[to], s[from])]
  }

  // ---------------------------------------------------------------------------
  // addStep

  /** addStep: a new empty step after the current one, with the current step's rotation. */
  function AddedSteps(s: seq<Step>, c: int): (r: seq<Step>)
    requires 0 <= c < |s|
    ensures |r| == |s| + 1
    ensures r[c + 1] == NewStep(s[c].rotation) && IsEmpty(r[c + 1])
    ensures r[..c + 1] == s[..c + 1] && r[c + 2..] == s[c + 1..]
  {
    InsertAt(s, c + 1, NewStep(s[c].rotation))
  }

  // ---------------------------------------------------------------------------
  // remove

  datatype RemoveCase = DeleteEmpty | DropGhosted | MergeLeft | NoChange

  /** Which branch of remove runs: tried in this order. */
  function RemoveCaseOf(s: seq<Step>, c: int): (k: RemoveCase)
    requires 0 <= c < |s|
    ensures k == DeleteEmpty <==> IsEmpty(s[c])
    ensures k == DropGhosted <==> !IsEmpty(s[c]) && AnyGhost(s[c].subModels)
    ensures k == MergeLeft <==> !IsEmpty(s[c]) && !AnyGhost(s[c].subModels) && c > 0
    ensures k == NoChange <==> !IsEmpty(s[c]) && !AnyGhost(s[c].subModels) && c == 0
  {
    if IsEmpty(s[c]) then DeleteEmpty
    else if AnyGhost(s[c].subModels) then DropGhosted
    else if c > 0 then MergeLeft
    else NoChange
  }

  /** The steps once the ghosted placements of step c are dropped, before the first-step check. */
  function Dropped(s: seq<Step>, c: int): seq<Step>
    requires 0 <= c < |s|
  {
    s[c := DropGhosts(s[c])]
  }

  /** The drop empties the only step of the part type: remove then purges the part type. */
  predicate RemovePurges(s: seq<Step>, c: int)
    requires 0 <= c < |s|
  {
    RemoveCaseOf(s, c) == DropGhosted && |s| == 1 && IsEmpty(Dropped(s, c)[0])
  }

  function Removed(s: seq<Step>, c: int, usages: nat): Edit
    requires 0 <= c < |s|
  {
    match RemoveCaseOf(s, c)
    case DeleteEmpty => Edited(RemoveAt(s, c), -(usages as int))
    case DropGhosted =>
      var d := Dropped(s, c);
      if IsEmpty(d[0]) then Edited(d[1..], -(usages as int)) else Edited(d, 0)
    case MergeLeft => Edited(RemoveAt(s[c - 1 := MergedLeft(s[c - 1], s[c])], c), -(usages + 1))
    case NoChange => Edited(s, 0)
  }

  /** A step that addStep inserted is removed again by remove, and the cursor moves back. */
  lemma RemoveUndoesAdd(s: seq<Step>, c: int, usages: nat)
    requires 0 <= c < |s|
    ensures Removed(AddedSteps(s, c), c + 1, usages) == Edited(s, -(usages as int))
  {
    RemoveInsert(s, c + 1, NewStep(s[c].rotation));
  }

  /** Deleting an empty step or merging left keeps every placement; dropping loses exactly the ghosted ones. */
  lemma RemoveConserves(s: seq<Step>, c: int, usages: nat)
    requires 0 <= c < |s|
    ensures var k, r := RemoveCaseOf(s, c), Removed(s, c, usages).steps;
      && (k != DropGhosted ==> multiset(Placements(r)) == multiset(Placements(s)))
      && (k == DropGhosted ==>
            multiset(Placements(r)) + multiset(Ghosts(s[c].subModels)) == multiset(Placements(s)))
  {
    match RemoveCaseOf(s, c)
    case DeleteEmpty => PlacementsRemove(s, c);
    case DropGhosted => DropConserves(s, c);
    case MergeLeft => MergeConserves(s, c);
    case NoChange =>
  }

  lemma DropConserves(s: seq<Step>, c: int)
    requires 0 <= c < |s|
    ensures var d := Dropped(s, c);
      && multiset(Placements(d)) + multiset(Ghosts(s[c].subModels)) == multiset(Placements(s))
      && (IsEmpty(d[0]) ==> Placements(d[1..]) == Placements(d))
  {
    var d := Dropped(s, c);
    var g, n := multiset(Ghosts(s[c].subModels)), multiset(NonGhosts(s[c].subModels));
    PlacementsUpdate(s, c, DropGhosts(s[c]));
    assert multiset(Placements(d)) + multiset(s[c].subModels) == multiset(Placements(s)) + n;
    GhostSplit(s[c].subModels);
    assert multiset(Placements(d)) + g + n == multiset(Placements(s)) + n;
    Cancel(multiset(Placements(d)) + g, multiset(Placements(s)), n);
    DropFirstEmpty(d);
  }

  lemma MergeConserves(s: seq<Step>, c: int)
    requires 0 < c < |s|
    ensures multiset(Placements(RemoveAt(s[c - 1 := MergedLeft(s[c - 1], s[c])], c))) == multiset(Placements(s))
  {
    var x := MergedLeft(s[c - 1], s[c]);
    var m := s[c - 1 := x];
    var cur := multiset(s[c].subModels);
    PlacementsUpdate(s, c - 1, x);
    assert multiset(Placements(m)) + multiset(s[c - 1].subModels)
        == multiset(Placements(s)) + multiset(s[c - 1].subModels) + cur;
    Cancel(multiset(Placements(m)), multiset(Placements(s)) + cur, multiset(s[c - 1].subModels));
    PlacementsRemove(m, c);
    assert m[c] == s[c];
    Cancel(multiset(Placements(RemoveAt(m, c))), multiset(Placements(s)), cur);
  }

  /** Slicing away an empty first step keeps the placements. */
  lemma DropFirstEmpty(d: seq<Step>)
    requires |d| > 0
    ensures IsEmpty(d[0]) ==> Placements(d[1..]) == Placements(d)
  {
  }

  /** Merge-left appends the current placements to the previous step and closes the gap. */
  lemma RemoveMergeShape(s: seq<Step>, c: int, usages: nat)
    requires 0 <= c < |s| && RemoveCaseOf(s, c) == MergeLeft
    ensures var r := Removed(s, c, usages).steps;
      && |r| == |s| - 1
      && r[c - 1].subModels == s[c - 1].subModels + s[c].subModels
      && r[..c - 1] == s[..c - 1] && r[c..] == s[c + 1..]
  {
  }

  /**
   * Dropping the ghosted placements: the current step keeps its plain
   * placements in order and loses only the type-1 lines of ghosted ones; an
   * empty first step is then sliced off.
   */
  lemma RemoveGhostShape(s: seq<Step>, c: int, usages: nat)
    requires 0 <= c < |s| && RemoveCaseOf(s, c) == DropGhosted
    ensures var d, e := Dropped(s, c), Removed(s, c, usages);
      && d[c].subModels == NonGhosts(s[c].subModels)
      && d[c].fileLines == KeptLines(s[c].fileLines)
      && d[c].rotation == s[c].rotation
      && (IsEmpty(d[0]) ==> e == Edited(d[1..], -(usages as int)))
      && (!IsEmpty(d[0]) ==> e == Edited(d, 0))
  {
  }

  /** Only merge-left can leave placements without their file lines. */
  lemma RemoveMirrored(s: seq<Step>, c: int, usages: nat)
    requires 0 <= c < |s| && AllMirrored(s)
    ensures RemoveCaseOf(s, c) != MergeLeft ==> AllMirrored(Removed(s, c, usages).steps)
    ensures RemoveCaseOf(s, c) == MergeLeft ==> !Mirrored(Removed(s, c, usages).steps[c - 1])
  {
    if RemoveCaseOf(s, c) == DropGhosted {
      DropGhostsMirrored(s[c]);
    } else if RemoveCaseOf(s, c) == MergeLeft {
      MergeLeftLosesLines(s[c - 1], s[c]);
    }
  }

  // ---------------------------------------------------------------------------
  // moveNext

  /** moveNext first appends a step (with the current rotation) when the current step is the last. */
  function NextPadded(s: seq<Step>, c: int): (r: seq<Step>)
    requires 0 <= c < |s|
    ensures c + 1 < |r|
  {
    if c == |s| - 1 then s + [NewStep(s[c].rotation)] else s
  }

  /** Whether moveNext skips the next step because it places a sub-model. */
  predicate NextSkips(parts: Parts, s: seq<Step>, c: int)
    requires 0 <= c < |s|
  {
    ContainsNonPartSubModels(parts, NextPadded(s, c)[c + 1])
  }

  /** Whether moveNext inserts a fresh step at c + 1. */
  predicate NextInserts(parts: Parts, s: seq<Step>, c: int)
    requires 0 <= c < |s|
  {
    var s0 := NextPadded(s, c);
    NextSkips(parts, s, c) && (c + 2 == |s0| || ContainsNonPartSubModels(parts, s0[c + 2]))
  }

  /** The step list just before the ghosted placements move. */
  function NextPrepared(parts: Parts, s: seq<Step>, c: int): (r: seq<Step>)
    requires 0 <= c < |s|
    ensures c + 2 < |r| || (!NextSkips(parts, s, c) && c + 1 < |r|)
  {
    var s0 := NextPadded(s, c);
    if NextInserts(parts, s, c) then InsertAt(s0, c + 1, NewStep(s0[c + 1].rotation)) else s0
  }

  /** Where moveNext puts the ghosted placements. */
  function NextTarget(parts: Parts, s: seq<Step>, c: int): int
    requires 0 <= c < |s|
  {
    if NextSkips(parts, s, c) then c + 2 else c + 1
  }

  /**
   * moveNext, given countStepsInsideOfNextStep() as `inside` and
   * countUsages(part) as `usages`.
   */
  function MovedNext(parts: Parts, s: seq<Step>, c: int, inside: nat, usages: nat): (e: Edit)
    requires 0 <= c < |s|
    ensures e.Edited?
  {
    var s0 := NextPadded(s, c);
    if !AnyGhost(s[c].subModels) then Edited(SwapWithNext(s0, c), inside)
    else
      var s2 := MoveGhosts(NextPrepared(parts, s, c), c, NextTarget(parts, s, c));
      var shift := 1 + if NextSkips(parts, s, c) then inside else 0;
      if IsEmpty(s2[0]) then Edited(s2[1..], shift - usages) else Edited(s2, shift)
  }

  lemma PaddingConserves(s: seq<Step>, c: int)
    requires 0 <= c < |s|
    ensures Placements(NextPadded(s, c)) == Placements(s)
  {
    if c == |s| - 1 {
      PlacementsConcat(s, [NewStep(s[c].rotation)]);
      assert Placements([NewStep(s[c].rotation)]) == [];
    }
  }

  lemma PreparedConserves(parts: Parts, s: seq<Step>, c: int)
    requires 0 <= c < |s|
    ensures multiset(Placements(NextPrepared(parts, s, c))) == multiset(Placements(s))
    ensures NextPrepared(parts, s, c)[c] == s[c]
  {
    var s0 := NextPadded(s, c);
    PaddingConserves(s, c);
    if NextInserts(parts, s, c) {
      PlacementsInsert(s0, c + 1, NewStep(s0[c + 1].rotation));
    }
  }

  /** moveNext neither loses nor duplicates a placement. */
  lemma MoveNextConserves(parts: Parts, s: seq<Step>, c: int, inside: nat, usages: nat)
    requires 0 <= c < |s|
    ensures multiset(Placements(MovedNext(parts, s, c, inside, usages).steps)) == multiset(Placements(s))
  {
    var s0 := NextPadded(s, c);
    PaddingConserves(s, c);
    if !AnyGhost(s[c].subModels) {
      PlacementsSwap(s0, c);
    } else {
      MoveNextGhostsConserve(parts, s, c);
    }
  }

  lemma MoveNextGhostsConserve(parts: Parts, s: seq<Step>, c: int)
    requires 0 <= c < |s| && AnyGhost(s[c].subModels)
    ensures var s2 := MoveGhosts(NextPrepared(parts, s, c), c, NextTarget(parts, s, c));
      && multiset(Placements(s2)) == multiset(Placements(s))
      && (IsEmpty(s2[0]) ==> Placements(s2[1..]) == Placements(s2))
  {
    var s1 := NextPrepared(parts, s, c);
    PreparedConserves(parts, s, c);
    MoveGhostsConserves(s1, c, NextTarget(parts, s, c));
    DropFirstEmpty(MoveGhosts(s1, c, NextTarget(parts, s, c)));
  }

  /** The full step trades places with its successor; no step is lost or duplicated. */
  lemma MoveNextWholeStep(parts: Parts, s: seq<Step>, c: int, inside: nat, usages: nat)
    requires 0 <= c < |s| && !AnyGhost(s[c].subModels)
    ensures var r := MovedNext(parts, s, c, inside, usages).steps;
      && |r| == |NextPadded(s, c)|
      && r[c] == NextPadded(s, c)[c + 1] && r[c + 1] == s[c]
      && multiset(r) == multiset(NextPadded(s, c))
  {
    SwapMultiset(NextPadded(s, c), c);
  }

  /**
   * The ghosted placements are appended, in order, to the target step and
   * leave the current one, which keeps exactly its plain placements. The
   * target is the next step, or the step after it when the next step places a
   * sub-model; when that step is missing or places a sub-model as well, the
   * fresh step goes in at c + 1 and the target is the skipped step itself.
   */
  lemma MoveNextGhostTarget(parts: Parts, s: seq<Step>, c: int)
    requires 0 <= c < |s| && AnyGhost(s[c].subModels)
    ensures var s1, t := NextPrepared(parts, s, c), NextTarget(parts, s, c);
      && t != c && t < |s1|
      && (!NextSkips(parts, s, c) ==> s1[t] == NextPadded(s, c)[c + 1])
      && (NextSkips(parts, s, c) && !NextInserts(parts, s, c) ==>
            s1[t] == NextPadded(s, c)[c + 2] && !ContainsNonPartSubModels(parts, s1[t]))
      && (NextInserts(parts, s, c) ==>
            s1[t] == NextPadded(s, c)[c + 1] && ContainsNonPartSubModels(parts, s1[t]))
  {
    PreparedConserves(parts, s, c);
  }

  /** The ghosted placements leave the current step for the target, which keeps its own. */
  lemma MoveNextGhostsMove(parts: Parts, s: seq<Step>, c: int)
    requires 0 <= c < |s| && AnyGhost(s[c].subModels)
    ensures var s1, t := NextPrepared(parts, s, c), NextTarget(parts, s, c);
      var s2 := MoveGhosts(s1, c, t);
      && s2[c].subModels == NonGhosts(s[c].subModels)
      && s2[t].subModels == s1[t].subModels + Ghosts(s[c].subModels)
      && multiset(s2[c].subModels) + multiset(s2[t].subModels)
         == multiset(s1[c].subModels) + multiset(s1[t].subModels)
  {
    MoveNextGhostTarget(parts, s, c);
    GhostSplit(s[c].subModels);
  }

  lemma MirroredUpdate(s: seq<Step>, i: int, x: Step)
    requires AllMirrored(s) && 0 <= i < |s| && Mirrored(x)
    ensures AllMirrored(s[i := x])
  {
  }

  lemma MirroredInsert(s: seq<Step>, i: int, x: Step)
    requires AllMirrored(s) && 0 <= i <= |s| && Mirrored(x)
    ensures AllMirrored(InsertAt(s, i, x))
  {
  }

  lemma MirroredMoveGhosts(s: seq<Step>, from: int, to: int)
    requires AllMirrored(s) && 0 <= from < |s| && 0 <= to < |s| && from != to
    ensures AllMirrored(MoveGhosts(s, from, to))
  {
    DropGhostsMirrored(s[from]);
    ReceiveMirrored(s[to], s[from]);
    MirroredUpdate(s, from, DropGhosts(s[from]));
    MirroredUpdate(s[from := DropGhosts(s[from])], to, Receive(s[to], s[from]));
  }

  /** moveNext keeps every step's file lines in step with its placements. */
  lemma MoveNextMirrored(parts: Parts, s: seq<Step>, c: int, inside: nat, usages: nat)
    requires 0 <= c < |s| && AllMirrored(s)
    ensures AllMirrored(MovedNext(parts, s, c, inside, usages).steps)
  {
    var s0 := NextPadded(s, c);
    assert Mirrored(NewStep(s[c].rotation));
    assert AllMirrored(s0);
    if AnyGhost(s[c].subModels) {
      if NextInserts(parts, s, c) {
        assert Mirrored(NewStep(s0[c + 1].rotation));
        MirroredInsert(s0, c + 1, NewStep(s0[c + 1].rotation));
      }
      MirroredMoveGhosts(NextPrepared(parts, s, c), c, NextTarget(parts, s, c));
    }
  }

  // ---------------------------------------------------------------------------
  // movePrev

  /** movePrev first inserts a step (with the current rotation) in front when the current step is the first. */
  function PrevPadded(s: seq<Step>, c: int): (r: seq<Step>)
    requires 0 <= c < |s|
    ensures 0 < PrevIndex(c) < |r| && r[PrevIndex(c)] == s[c]
  {
    if c == 0 then InsertAt(s, 0, NewStep(s[0].rotation)) else s
  }

  /** Where the current step stands once PrevPadded has run. */
  function PrevIndex(c: int): int {
    if c == 0 then 1 else c
  }

  /**
   * movePrev, given countStepsInsideOfPreviousStep() as `inside`. When the
   * previous step places a sub-model and is the first step, the source reads
   * steps[-1] and throws.
   */
  function MovedPrev(parts: Parts, s: seq<Step>, c: int, inside: nat): Edit
    requires 0 <= c < |s|
  {
    var s0, k := PrevPadded(s, c), PrevIndex(c);
    var pre := if c == 0 then 1 else 0;
    if !AnyGhost(s[c].subModels) then Edited(SwapWithNext(s0, k - 1), pre - inside)
    else
      var g := PrevGhostsMoved(parts, s0, k, inside);
      if g.Crashed? then Crashed else Edited(g.steps, pre + g.shift)
  }

  /**
   * The ghost branch of movePrev on the padded list s0, with the current
   * step at k: the ghosted placements go to the previous step, or past it
   * when it places a sub-model (into a fresh step when the one before it
   * places a sub-model too).
   */
  function PrevGhostsMoved(parts: Parts, s0: seq<Step>, k: int, inside: nat): Edit
    requires 0 < k < |s0|
  {
    if !ContainsNonPartSubModels(parts, s0[k - 1]) then Edited(MoveGhosts(s0, k, k - 1), -1)
    else if k == 1 then Crashed
    else if ContainsNonPartSubModels(parts, s0[k - 2]) then
      Edited(MoveGhosts(InsertAt(s0, k - 2, NewStep(s0[k - 1].rotation)), k + 1, k - 2), -1 - inside)
    else Edited(MoveGhosts(s0, k, k - 2), -1 - inside)
  }

  /** movePrev throws exactly when it would skip over the first step. */
  lemma MovePrevCrashes(parts: Parts, s: seq<Step>, c: int, inside: nat)
    requires 0 <= c < |s|
    ensures MovedPrev(parts, s, c, inside).Crashed? <==>
      c == 1 && AnyGhost(s[c].subModels) && ContainsNonPartSubModels(parts, s[0])
  {
    if c == 0 {
      var s0 := PrevPadded(s, c);
      assert s0[0] == NewStep(s[0].rotation);
      assert !ContainsNonPartSubModels(parts, s0[0]);
    }
  }

  lemma PrevPaddingConserves(s: seq<Step>, c: int)
    requires 0 <= c < |s|
    ensures multiset(Placements(PrevPadded(s, c))) == multiset(Placements(s))
  {
    if c == 0 {
      PlacementsInsert(s, 0, NewStep(s[0].rotation));
    }
  }

  /** movePrev neither loses nor duplicates a placement. */
  lemma MovePrevConserves(parts: Parts, s: seq<Step>, c: int, inside: nat)
    requires 0 <= c < |s| && MovedPrev(parts, s, c, inside).Edited?
    ensures multiset(Placements(MovedPrev(parts, s, c, inside).steps)) == multiset(Placements(s))
  {
    var s0, k := PrevPadded(s, c), PrevIndex(c);
    PrevPaddingConserves(s, c);
    if !AnyGhost(s[c].subModels) {
      PlacementsSwap(s0, k - 1);
    } else if !ContainsNonPartSubModels(parts, s0[k - 1]) {
      MoveGhostsConserves(s0, k, k - 1);
    } else if ContainsNonPartSubModels(parts, s0[k - 2]) {
      var s1 := InsertAt(s0, k - 2, NewStep(s0[k - 1].rotation));
      PlacementsInsert(s0, k - 2, NewStep(s0[k - 1].rotation));
      MoveGhostsConserves(s1, k + 1, k - 2);
    } else {
      MoveGhostsConserves(s0, k, k - 2);
    }
  }

  /** movePrev keeps every step's file lines in step with its placements. */
  lemma MovePrevMirrored(parts: Parts, s: seq<Step>, c: int, inside: nat)
    requires 0 <= c < |s| && AllMirrored(s) && MovedPrev(parts, s, c, inside).Edited?
    ensures AllMirrored(MovedPrev(parts, s, c, inside).steps)
  {
    var s0, k := PrevPadded(s, c), PrevIndex(c);
    if c == 0 {
      assert Mirrored(NewStep(s[0].rotation));
      MirroredInsert(s, 0, NewStep(s[0].rotation));
    }
    if AnyGhost(s[c].subModels) {
      if !ContainsNonPartSubModels(parts, s0[k - 1]) {
        MirroredMoveGhosts(s0, k, k - 1);
      } else if ContainsNonPartSubModels(parts, s0[k - 2]) {
        assert Mirrored(NewStep(s0[k - 1].rotation));
        MirroredInsert(s0, k - 2, NewStep(s0[k - 1].rotation));
        MirroredMoveGhosts(InsertAt(s0, k - 2, NewStep(s0[k - 1].rotation)), k + 1, k - 2);
      } else {
        MirroredMoveGhosts(s0, k, k - 2);
      }
    }
  }

  /** Moving a whole step forward and then back again restores the list and the cursor. */
  lemma MovePrevUndoesMoveNext(parts: Parts, s: seq<Step>, c: int, insideNext: nat, insidePrev: nat, usages: nat)
    requires 0 <= c < |s| - 1 && !AnyGhost(s[c].subModels)
    ensures var e := MovedNext(parts, s, c, insideNext, usages);
      MovedPrev(parts, e.steps, c + 1, insidePrev) == Edited(s, -(insidePrev as int))
  {
    SwapTwice(s, c);
  }

  // ---------------------------------------------------------------------------
  // moveToNewSubModel

  /** The drop step: one placement of the new part type, mirrored by its type-1 line. */
  function DropStep(pd: Placement, rotation: Option<Rotation>): Step {
    Step([pd], [Line1(pd)], rotation)
  }

  /** The step list of the current part type after moveToNewSubModel, given the drop step. */
  function Extracted(s: seq<Step>, c: int, drop: Step, usages: nat): Edit
    requires 0 <= c < |s|
  {
    if AnyGhost(s[c].subModels) then Edited(InsertAt(Dropped(s, c), c + 1, drop), 2 * usages + 1)
    else Edited(s[c := drop], usages)
  }

  /** The steps of the new part type. */
  function ExtractedPartSteps(s: seq<Step>, c: int): seq<Step>
    requires 0 <= c < |s|
  {
    if AnyGhost(s[c].subModels) then [GhostStep(s[c])] else [s[c]]
  }

  /** Where the drop step goes. */
  function DropIndex(s: seq<Step>, c: int): int
    requires 0 <= c < |s|
  {
    if AnyGhost(s[c].subModels) then c + 1 else c
  }

  /** The new part type as moveToNewSubModel fills it in. */
  function NewPartType(id: string, steps: seq<Step>): (pt: PartType)
    ensures pt.ID == id && pt.steps == steps && !pt.isPart
  {
    PartType(id, id, id, "LDRStepEditor", "Redistributable under CCAL version 2.0 : see CAreadme.txt",
             true, true, true, true, steps, false)
  }

  /**
   * The extracted placements go to the new part type; the current part type
   * keeps the others and gains the drop step's placement.
   */
  lemma ExtractConserves(s: seq<Step>, c: int, pd: Placement, usages: nat)
    requires 0 <= c < |s|
    ensures var r := Extracted(s, c, DropStep(pd, s[c].rotation), usages).steps;
      multiset(Placements(r)) + multiset(Placements(ExtractedPartSteps(s, c)))
      == multiset(Placements(s)) + multiset{pd}
  {
    var drop := DropStep(pd, s[c].rotation);
    var x := ExtractedPartSteps(s, c);
    assert Placements(x) == x[0].subModels + Placements([]) by { assert x[1..] == []; }
    if AnyGhost(s[c].subModels) {
      ExtractGhostsConserves(s, c, drop);
    } else {
      PlacementsUpdate(s, c, drop);
    }
  }

  lemma ExtractGhostsConserves(s: seq<Step>, c: int, drop: Step)
    requires 0 <= c < |s|
    ensures multiset(Placements(InsertAt(Dropped(s, c), c + 1, drop))) + multiset(Ghosts(s[c].subModels))
         == multiset(Placements(s)) + multiset(drop.subModels)
  {
    var d := Dropped(s, c);
    PlacementsInsert(d, c + 1, drop);
    DropConserves(s, c);
  }

  /**
   * The drop step holds exactly one placement, of the new part type; the new
   * part type has one step holding exactly the extracted placements, and the
   * source step keeps the plain ones.
   */
  lemma ExtractShape(s: seq<Step>, c: int, pd: Placement, usages: nat)
    requires 0 <= c < |s|
    ensures var r, x := Extracted(s, c, DropStep(pd, s[c].rotation), usages).steps, ExtractedPartSteps(s, c);
      var d := DropIndex(s, c);
      && 0 <= d < |r| && r[d].subModels == [pd] && |x| == 1
      && (AnyGhost(s[c].subModels) ==>
            |r| == |s| + 1 && r[c].subModels == NonGhosts(s[c].subModels)
            && x[0].subModels == Ghosts(s[c].subModels)
            && r[..c] == s[..c] && r[c + 2..] == s[c + 1..])
      && (!AnyGhost(s[c].subModels) ==> |r| == |s| && x[0] == s[c] && r[..c] == s[..c] && r[c + 1..] == s[c + 1..])
  {
  }

  lemma ExtractMirrored(s: seq<Step>, c: int, pd: Placement, usages: nat)
    requires 0 <= c < |s| && AllMirrored(s)
    ensures AllMirrored(Extracted(s, c, DropStep(pd, s[c].rotation), usages).steps)
    ensures AllMirrored(ExtractedPartSteps(s, c))
  {
    DropGhostsMirrored(s[c]);
    assert Line1s([Line1(pd)]) == [pd] + Line1s([]);
  }
}
