/**
 * The instruction document: part types, their steps, and the placements a
 * step holds (THREE.LDRPartType, THREE.LDRStep, THREE.LDRPartDescription and
 * LDR.Line1 of the viewer library).
 */
module Document {
  import opened Wrappers
  import opened Splice

  datatype Vector3 = Vector3(x: real, y: real, z: real)
  /** A 3x3 orientation matrix, row by row. */
  datatype Matrix3 = Matrix3(elements: seq<real>)

  const Origin := Vector3(0.0, 0.0, 0.0)
  const Identity := Matrix3([1.0, 0.0, 0.0, 0.0, 1.0, 0.0, 0.0, 0.0, 1.0])

  /** A step rotation (THREE.LDRStepRotation); only compared and copied here. */
  datatype RotationKind = Rel | Abs
  datatype Rotation = Rotation(x: real, y: real, z: real, kind: RotationKind)

  /**
   * One placement of a part type inside a step. The same object is listed in
   * the step's subModels and referenced by its type-1 file line, so recolouring
   * it recolours both. The ghost (highlight) flag is set by the user interface
   * before an edit starts and is never written by the editing engine.
   */
  class Placement {
    var colorID: int
    const position: Vector3
    const rotation: Matrix3
    const ID: string
    const cull: bool
    const invertCCW: bool
    const ghosted: bool

    constructor (colorID: int, position: Vector3, rotation: Matrix3, ID: string,
                 cull: bool, invertCCW: bool, ghosted: bool)
      ensures this.colorID == colorID && this.position == position && this.rotation == rotation
      ensures this.ID == ID && this.cull == cull && this.invertCCW == invertCCW
      ensures this.ghosted == ghosted
    {
      this.colorID := colorID;
      this.position := position;
      this.rotation := rotation;
      this.ID := ID;
      this.cull := cull;
      this.invertCCW := invertCCW;
      this.ghosted := ghosted;
    }
  }

  /** A line of the file text kept for saving: a type-1 line describes a placement. */
  datatype Line = Line1(desc: Placement) | OtherLine(text: string)

  datatype Step = Step(subModels: seq<Placement>, fileLines: seq<Line>, rotation: Option<Rotation>)

  datatype PartType = PartType(
    ID: string, name: string, modelDescription: string, author: string, license: string,
    cleanSteps: bool, certifiedBFC: bool, CCW: bool, consistentFileAndName: bool,
    steps: seq<Step>, isPart: bool)

  /** `new THREE.LDRStep()`, given the rotation cloned from a neighbour (if it has one). */
  function NewStep(rotation: Option<Rotation>): Step {
    Step([], [], rotation)
  }

  predicate IsEmpty(step: Step) {
    |step.subModels| == 0
  }

  // ---------------------------------------------------------------------------
  // Ghosted and plain placements

  /** subModels.some(pd => pd.ghost) */
  predicate AnyGhost(s: seq<Placement>) {
    exists i :: 0 <= i < |s| && s[i].ghosted
  }

  /** subModels.filter(pd => pd.ghost) */
  function Ghosts(s: seq<Placement>): seq<Placement> {
    if s == [] then [] else (if s[0].ghosted then [s[0]] else []) + Ghosts(s[1..])
  }

  /** subModels.filter(pd => !pd.ghost) */
  function NonGhosts(s: seq<Placement>): seq<Placement> {
    if s == [] then [] else (if s[0].ghosted then [] else [s[0]]) + NonGhosts(s[1..])
  }

  /** The selection holds exactly the ghosted placements; the rest holds exactly the others. */
  lemma {:induction false} GhostsMembers(s: seq<Placement>)
    ensures forall p :: p in Ghosts(s) ==> p in s && p.ghosted
    ensures forall p :: p in s && p.ghosted ==> p in Ghosts(s)
    ensures forall p :: p in NonGhosts(s) ==> p in s && !p.ghosted
    ensures forall p :: p in s && !p.ghosted ==> p in NonGhosts(s)
  {
    if s != [] {
      GhostsMembers(s[1..]);
    }
  }

  /** Splitting on the ghost flag loses and duplicates nothing. */
  lemma {:induction false} GhostSplit(s: seq<Placement>)
    ensures multiset(Ghosts(s)) + multiset(NonGhosts(s)) == multiset(s)
  {
    if s != [] {
      GhostSplit(s[1..]);
      assert s == [s[0]] + s[1..];
    }
  }

  /** The selection is non-empty exactly when some placement is ghosted; without one, nothing splits off. */
  lemma {:induction false} NoGhosts(s: seq<Placement>)
    ensures AnyGhost(s) <==> Ghosts(s) != []
    ensures !AnyGhost(s) ==> NonGhosts(s) == s
  {
    if s != [] {
      NoGhosts(s[1..]);
      if s[0].ghosted {
        assert Ghosts(s)[0] == s[0];
      } else {
        assert AnyGhost(s) ==> AnyGhost(s[1..]) by {
          if AnyGhost(s) {
            var i :| 0 <= i < |s| && s[i].ghosted;
            assert s[1..][i - 1] == s[i];
          }
        }
        assert AnyGhost(s[1..]) ==> AnyGhost(s) by {
          if AnyGhost(s[1..]) {
            var i :| 0 <= i < |s[1..]| && s[1..][i].ghosted;
            assert s[i + 1] == s[1..][i];
          }
        }
      }
    }
  }

  /** The ghost filter distributes over concatenation. */
  lemma {:induction false} GhostsAppend(a: seq<Placement>, b: seq<Placement>)
    ensures Ghosts(a + b) == Ghosts(a) + Ghosts(b)
  {
    if a == [] {
      assert a + b == b;
    } else {
      var h := if a[0].ghosted then [a[0]] else [];
      assert (a + b)[0] == a[0] && (a + b)[1..] == a[1..] + b;
      assert Ghosts(a + b) == h + Ghosts(a[1..] + b);
      GhostsAppend(a[1..], b);
      assert Ghosts(a + b) == (h + Ghosts(a[1..])) + Ghosts(b);
    }
  }

  lemma {:induction false} NonGhostsAppend(a: seq<Placement>, b: seq<Placement>)
    ensures NonGhosts(a + b) == NonGhosts(a) + NonGhosts(b)
  {
    if a == [] {
      assert a + b == b;
    } else {
      var h := if a[0].ghosted then [] else [a[0]];
      assert (a + b)[0] == a[0] && (a + b)[1..] == a[1..] + b;
      assert NonGhosts(a + b) == h + NonGhosts(a[1..] + b);
      NonGhostsAppend(a[1..], b);
      assert NonGhosts(a + b) == (h + NonGhosts(a[1..])) + NonGhosts(b);
    }
  }

  // ---------------------------------------------------------------------------
  // The mirrored file lines

  /** The placements described by the type-1 lines, in file order. */
  function Line1s(ls: seq<Line>): seq<Placement> {
    if ls == [] then [] else (if ls[0].Line1? then [ls[0].desc] else []) + Line1s(ls[1..])
  }

  /** fileLines.filter(line => line.line1 ? line.desc.ghost : false) */
  function GhostLines(ls: seq<Line>): seq<Line> {
    if ls == [] then []
    else (if ls[0].Line1? && ls[0].desc.ghosted then [ls[0]] else []) + GhostLines(ls[1..])
  }

  /** fileLines.filter(line => line.line1 ? !line.desc.ghost : true) */
  function KeptLines(ls: seq<Line>): seq<Line> {
    if ls == [] then []
    else (if ls[0].Line1? && ls[0].desc.ghosted then [] else [ls[0]]) + KeptLines(ls[1..])
  }

  /** Lines that are not type-1 lines always stay; a type-1 line moves exactly when its placement is ghosted. */
  lemma {:induction false} LineSplit(ls: seq<Line>)
    ensures multiset(GhostLines(ls)) + multiset(KeptLines(ls)) == multiset(ls)
    ensures forall l :: l in ls && !l.Line1? ==> l in KeptLines(ls)
    ensures forall l :: l in GhostLines(ls) ==> l.Line1? && l.desc.ghosted
    ensures forall l :: l in KeptLines(ls) && l.Line1? ==> !l.desc.ghosted
  {
    if ls != [] {
      LineSplit(ls[1..]);
      assert ls == [ls[0]] + ls[1..];
    }
  }

  lemma {:induction false} Line1sAppend(a: seq<Line>, b: seq<Line>)
    ensures Line1s(a + b) == Line1s(a) + Line1s(b)
  {
    if a == [] {
      assert a + b == b;
    } else {
      var h := if a[0].Line1? then [a[0].desc] else [];
      assert (a + b)[0] == a[0] && (a + b)[1..] == a[1..] + b;
      assert Line1s(a + b) == h + Line1s(a[1..] + b);
      Line1sAppend(a[1..], b);
      assert Line1s(a + b) == (h + Line1s(a[1..])) + Line1s(b);
    }
  }

  /** Filtering the lines by the ghost flag filters the placements they describe the same way. */
  lemma {:induction false} LineFiltersFollowPlacements(ls: seq<Line>)
    ensures Line1s(GhostLines(ls)) == Ghosts(Line1s(ls))
    ensures Line1s(KeptLines(ls)) == NonGhosts(Line1s(ls))
  {
    if ls != [] {
      LineFiltersFollowPlacements(ls[1..]);
      var head := if ls[0].Line1? then [ls[0].desc] else [];
      var moved := if ls[0].Line1? && ls[0].desc.ghosted then [ls[0]] else [];
      var kept := if ls[0].Line1? && ls[0].desc.ghosted then [] else [ls[0]];
      assert Line1s(ls) == head + Line1s(ls[1..]);
      GhostsAppend(head, Line1s(ls[1..]));
      NonGhostsAppend(head, Line1s(ls[1..]));
      Line1sAppend(moved, GhostLines(ls[1..]));
      Line1sAppend(kept, KeptLines(ls[1..]));
      assert Line1s(moved) == Ghosts(head) by {
        if ls[0].Line1? { assert Ghosts(head) == (if ls[0].desc.ghosted then [ls[0].desc] else []) + Ghosts([]); }
      }
      assert Line1s(kept) == NonGhosts(head) by {
        if ls[0].Line1? { assert NonGhosts(head) == (if ls[0].desc.ghosted then [] else [ls[0].desc]) + NonGhosts([]); }
      }
    }
  }

  /** The type-1 lines of a step describe exactly its placements, in order. */
  predicate Mirrored(step: Step) {
    Line1s(step.fileLines) == step.subModels
  }

  predicate AllMirrored(steps: seq<Step>) {
    forall i :: 0 <= i < |steps| ==> Mirrored(steps[i])
  }

  // ---------------------------------------------------------------------------
  // Step surgery shared by the edit operations

  /** The current step once its ghosted placements (and their lines) are gone. */
  function DropGhosts(step: Step): Step {
    step.(subModels := NonGhosts(step.subModels), fileLines := KeptLines(step.fileLines))
  }

  /** A target step once the ghosted placements (and their lines) of `source` are appended to it. */
  function Receive(target: Step, source: Step): Step {
    target.(subModels := target.subModels + Ghosts(source.subModels),
            fileLines := target.fileLines + GhostLines(source.fileLines))
  }

  /** A fresh step holding only the ghosted placements (and their lines) of `source`. */
  function GhostStep(source: Step): Step {
    Step(Ghosts(source.subModels), GhostLines(source.fileLines), None)
  }

  /** The previous step after merge-left: the placements are appended, the lines are not. */
  function MergedLeft(prev: Step, current: Step): Step {
    prev.(subModels := prev.subModels + current.subModels)
  }

  /** Dropping or splitting off the ghosted placements keeps the lines in step with the placements. */
  lemma DropGhostsMirrored(step: Step)
    requires Mirrored(step)
    ensures Mirrored(DropGhosts(step)) && Mirrored(GhostStep(step))
  {
    LineFiltersFollowPlacements(step.fileLines);
  }

  lemma ReceiveMirrored(target: Step, source: Step)
    requires Mirrored(target) && Mirrored(source)
    ensures Mirrored(Receive(target, source))
  {
    LineFiltersFollowPlacements(source.fileLines);
    Line1sAppend(target.fileLines, GhostLines(source.fileLines));
  }

  /** Merge-left leaves the moved placements without file lines. */
  lemma MergeLeftLosesLines(prev: Step, current: Step)
    requires Mirrored(prev) && |current.subModels| > 0
    ensures !Mirrored(MergedLeft(prev, current))
  {
    assert |MergedLeft(prev, current).subModels| > |Line1s(prev.fileLines)|;
  }

  // ---------------------------------------------------------------------------
  // All placements of a step list

  /** The placements of every step, step by step. */
  function Placements(steps: seq<Step>): seq<Placement> {
    if steps == [] then [] else steps[0].subModels + Placements(steps[1..])
  }

  lemma {:induction false} PlacementsConcat(a: seq<Step>, b: seq<Step>)
    ensures Placements(a + b) == Placements(a) + Placements(b)
  {
    if a == [] {
      assert a + b == b;
    } else {
      assert (a + b)[1..] == a[1..] + b;
      PlacementsConcat(a[1..], b);
    }
  }

  lemma PlacementsAround(a: seq<Step>, x: Step, b: seq<Step>)
    ensures Placements(a + [x] + b) == Placements(a) + x.subModels + Placements(b)
  {
    PlacementsConcat(a + [x], b);
    PlacementsConcat(a, [x]);
    assert [x][1..] == [];
  }

  /** Where `steps` keeps its step i. */
  lemma Split(steps: seq<Step>, i: int)
    requires 0 <= i < |steps|
    ensures steps == steps[..i] + [steps[i]] + steps[i + 1..]
  {
  }

  /** A placement of any step is one of the placements of the list, and only those are. */
  lemma {:induction false} PlacementsMember(steps: seq<Step>, p: Placement)
    ensures p in Placements(steps) <==> exists i :: 0 <= i < |steps| && p in steps[i].subModels
  {
    if steps != [] {
      PlacementsMember(steps[1..], p);
      if i :| 0 <= i < |steps| && p in steps[i].subModels {
        if i > 0 {
          assert p in steps[1..][i - 1].subModels;
        }
      }
      if i :| 0 <= i < |steps[1..]| && p in steps[1..][i].subModels {
        assert p in steps[i + 1].subModels;
      }
    }
  }

  /** Replacing one step changes the placements by exactly what the two steps differ in. */
  lemma PlacementsUpdate(s: seq<Step>, i: int, x: Step)
    requires 0 <= i < |s|
    ensures multiset(Placements(s[i := x])) + multiset(s[i].subModels)
         == multiset(Placements(s)) + multiset(x.subModels)
  {
    Split(s, i);
    assert s[i := x] == s[..i] + [x] + s[i + 1..];
    PlacementsAround(s[..i], s[i], s[i + 1..]);
    PlacementsAround(s[..i], x, s[i + 1..]);
  }

  lemma PlacementsInsert(s: seq<Step>, i: int, x: Step)
    requires 0 <= i <= |s|
    ensures Placements(InsertAt(s, i, x)) == Placements(s[..i]) + x.subModels + Placements(s[i..])
    ensures multiset(Placements(InsertAt(s, i, x))) == multiset(Placements(s)) + multiset(x.subModels)
  {
    assert s == s[..i] + s[i..];
    PlacementsConcat(s[..i], s[i..]);
    PlacementsAround(s[..i], x, s[i..]);
  }

  lemma PlacementsRemove(s: seq<Step>, i: int)
    requires 0 <= i < |s|
    ensures multiset(Placements(RemoveAt(s, i))) + multiset(s[i].subModels) == multiset(Placements(s))
  {
    Split(s, i);
    PlacementsAround(s[..i], s[i], s[i + 1..]);
    PlacementsConcat(s[..i], s[i + 1..]);
  }

  lemma PlacementsAroundTwo(a: seq<Step>, x: Step, y: Step, b: seq<Step>)
    ensures Placements(a + [x] + [y] + b) == Placements(a) + x.subModels + y.subModels + Placements(b)
  {
    PlacementsConcat(a + [x] + [y], b);
    PlacementsConcat(a + [x], [y]);
    PlacementsConcat(a, [x]);
    assert [x][1..] == [] && [y][1..] == [];
  }

  lemma PlacementsSwap(s: seq<Step>, i: int)
    requires 0 <= i < |s| - 1
    ensures multiset(Placements(SwapWithNext(s, i))) == multiset(Placements(s))
  {
    var a, x, y, b := s[..i], s[i], s[i + 1], s[i + 2..];
    SplitTwo(s, i);
    SwapShape(s, i);
    PlacementsAroundTwo(a, x, y, b);
    PlacementsAroundTwo(a, y, x, b);
  }

  lemma SplitTwo(s: seq<Step>, i: int)
    requires 0 <= i < |s| - 1
    ensures s == s[..i] + [s[i]] + [s[i + 1]] + s[i + 2..]
  {
  }

  lemma SwapShape(s: seq<Step>, i: int)
    requires 0 <= i < |s| - 1
    ensures SwapWithNext(s, i) == s[..i] + [s[i + 1]] + [s[i]] + s[i + 2..]
  {
    assert [s[i + 1], s[i]] == [s[i + 1]] + [s[i]];
  }

  /** Moving the ghosted placements from one step of a list to another keeps the list's placements. */
  lemma MoveGhostsConserves(s: seq<Step>, from: int, to: int)
    requires 0 <= from < |s| && 0 <= to < |s| && from != to
    ensures multiset(Placements(s[from := DropGhosts(s[from])][to := Receive(s[to], s[from])]))
         == multiset(Placements(s))
  {
    var f, t := s[from].subModels, s[to].subModels;
    var mid := s[from := DropGhosts(s[from])];
    var last := mid[to := Receive(s[to], s[from])];
    var all, allMid, allLast := multiset(Placements(s)), multiset(Placements(mid)), multiset(Placements(last));
    var g, n := multiset(Ghosts(f)), multiset(NonGhosts(f));
    PlacementsUpdate(s, from, DropGhosts(s[from]));
    PlacementsUpdate(mid, to, Receive(s[to], s[from]));
    GhostSplit(f);
    assert mid[to].subModels == t;
    assert allMid + g + n == all + n;
    Cancel(allMid + g, all, n);
    assert allLast + multiset(t) == allMid + g + multiset(t);
    Cancel(allLast, allMid + g, multiset(t));
  }

  lemma Cancel(a: multiset<Placement>, b: multiset<Placement>, c: multiset<Placement>)
    requires a + c == b + c
    ensures a == b
  {
    forall x | true ensures a[x] == b[x] {
      assert (a + c)[x] == a[x] + c[x];
      assert (b + c)[x] == b[x] + c[x];
    }
  }

  // ---------------------------------------------------------------------------
  // Removing the placements of one part type

  /** subModels.filter(sm => sm.ID !== ID) */
  function Without(s: seq<Placement>, id: string): seq<Placement> {
    if s == [] then [] else (if s[0].ID == id then [] else [s[0]]) + Without(s[1..], id)
  }

  /** The filter keeps exactly the placements of other part types. */
  lemma {:induction false} WithoutMembers(s: seq<Placement>, id: string)
    ensures forall p :: p in Without(s, id) ==> p in s && p.ID != id
    ensures forall p :: p in s && p.ID != id ==> p in Without(s, id)
  {
    if s != [] {
      WithoutMembers(s[1..], id);
    }
  }

  /** Filtering twice is filtering once. */
  lemma {:induction false} WithoutIdempotent(s: seq<Placement>, id: string)
    ensures Without(Without(s, id), id) == Without(s, id)
  {
    if s != [] {
      WithoutIdempotent(s[1..], id);
      var rest := Without(s[1..], id);
      if s[0].ID == id {
        assert Without(s, id) == [] + rest == rest;
      } else {
        var w := [s[0]] + rest;
        assert Without(s, id) == w;
        assert w != [] && w[0] == s[0] && w[1..] == rest;
        assert Without(w, id) == [s[0]] + Without(rest, id);
      }
    }
  }
}
