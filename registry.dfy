/**
 * The loader's registry of part types and the recursive purge of every
 * placement of one part type (THREE.LDRPartType.prototype.purgePart).
 */
module Registry {
  import opened Document

  type Parts = map<string, PartType>

  /** A placement whose part type is itself assembled from steps (not a leaf part). */
  predicate NotLeaf(parts: Parts, p: Placement) {
    p.ID in parts && !parts[p.ID].isPart
  }

  /** step.containsNonPartSubModels(loader) */
  predicate ContainsNonPartSubModels(parts: Parts, step: Step) {
    exists i :: 0 <= i < |step.subModels| && NotLeaf(parts, step.subModels[i])
  }

  // ---------------------------------------------------------------------------
  // Acyclic, closed registries

  /** Every placement in `steps` names a registered part type of depth below d. */
  ghost predicate Below(parts: Parts, depth: map<string, nat>, steps: seq<Step>, d: nat) {
    forall p :: p in Placements(steps) ==> p.ID in parts && p.ID in depth && depth[p.ID] < d
  }

  /**
   * `depth` witnesses that no part type places itself, directly or through
   * others, and that every placed part type is registered.
   */
  ghost predicate Ranked(parts: Parts, depth: map<string, nat>) {
    forall q :: q in parts ==> q in depth && Below(parts, depth, parts[q].steps, depth[q])
  }

  /** `b` has the same part types as `a` and no placement that `a` does not have in the same part type. */
  ghost predicate SubRegistry(a: Parts, b: Parts) {
    && a.Keys == b.Keys
    && (forall q :: q in a ==> b[q].isPart == a[q].isPart)
    && forall q, p :: q in a && p in Placements(b[q].steps) ==> p in Placements(a[q].steps)
  }

  lemma RankedSub(a: Parts, b: Parts, depth: map<string, nat>)
    requires Ranked(a, depth) && SubRegistry(a, b)
    ensures Ranked(b, depth)
  {
  }

  /**
   * No part type reachable from q through non-leaf part types places `id`:
   * what purgePart(q, id) establishes.
   */
  ghost predicate CleanBelow(parts: Parts, depth: map<string, nat>, q: string, id: string)
    requires Ranked(parts, depth) && q in parts
    decreases depth[q]
  {
    parts[q].isPart ||
    forall p :: p in Placements(parts[q].steps) ==> p.ID != id && CleanBelow(parts, depth, p.ID, id)
  }

  /** Removing placements never makes a clean part type unclean. */
  lemma {:induction false} CleanSub(a: Parts, b: Parts, depth: map<string, nat>, q: string, id: string)
    requires Ranked(a, depth) && SubRegistry(a, b) && q in a
    requires CleanBelow(a, depth, q, id)
    ensures Ranked(b, depth) && CleanBelow(b, depth, q, id)
    decreases depth[q]
  {
    RankedSub(a, b, depth);
    if !b[q].isPart {
      forall p | p in Placements(b[q].steps)
        ensures p.ID != id && CleanBelow(b, depth, p.ID, id)
      {
        assert p in Placements(a[q].steps);
        CleanSub(a, b, depth, p.ID, id);
      }
    }
  }

  /**
   * q is a non-leaf part type that a purge started at `from` visits: `from`
   * itself, or one reachable from it through the placements of non-leaf
   * part types. A leaf is never reached, since purgePart returns at once on it.
   */
  ghost predicate Reaches(parts: Parts, depth: map<string, nat>, from: string, q: string)
    requires Ranked(parts, depth) && from in parts
    decreases depth[from]
  {
    !parts[from].isPart &&
    (from == q || exists p :: p in Placements(parts[from].steps) && Reaches(parts, depth, p.ID, q))
  }

  /** No purge reaches a leaf part type, so every purge leaves all leaves as they are. */
  lemma {:induction false} LeafNotReached(parts: Parts, depth: map<string, nat>, from: string, q: string)
    requires Ranked(parts, depth) && from in parts && q in parts && parts[q].isPart
    ensures !Reaches(parts, depth, from, q)
    decreases depth[from]
  {
    if !parts[from].isPart {
      forall p | p in Placements(parts[from].steps) ensures !Reaches(parts, depth, p.ID, q) {
        LeafNotReached(parts, depth, p.ID, q);
      }
    }
  }

  /** Removing placements never makes a part type reachable that was not. */
  lemma {:induction false} ReachesSub(a: Parts, b: Parts, depth: map<string, nat>, from: string, q: string)
    requires Ranked(a, depth) && Ranked(b, depth) && SubRegistry(a, b) && from in a
    ensures Reaches(b, depth, from, q) ==> Reaches(a, depth, from, q)
    decreases depth[from]
  {
    if from != q && Reaches(b, depth, from, q) {
      var p :| p in Placements(b[from].steps) && Reaches(b, depth, p.ID, q);
      assert p in Placements(a[from].steps);
      ReachesSub(a, b, depth, p.ID, q);
    }
  }

  /** A purge that keeps everything outside its reach keeps every leaf part type. */
  lemma LeavesKept(a: Parts, b: Parts, depth: map<string, nat>, from: string)
    requires Ranked(a, depth) && from in a && a.Keys == b.Keys && OutsideUnchanged(a, b, depth, from)
    ensures forall q :: q in a && a[q].isPart ==> q in b && b[q] == a[q]
  {
    forall q | q in a && a[q].isPart ensures q in b && b[q] == a[q] {
      LeafNotReached(a, depth, from, q);
    }
  }

  /** Every part type that a purge started at `from` cannot reach is the same in b as in a. */
  ghost predicate OutsideUnchanged(a: Parts, b: Parts, depth: map<string, nat>, from: string)
    requires Ranked(a, depth) && from in a
  {
    forall q :: q in b && !Reaches(a, depth, from, q) ==> q in a && b[q] == a[q]
  }

  /** What a purge leaves alone outside its reach stays alone across a second purge within it. */
  lemma OutsideTransitive(a: Parts, b: Parts, c: Parts, depth: map<string, nat>, from: string)
    requires Ranked(a, depth) && Ranked(b, depth) && SubRegistry(a, b) && from in a
    requires OutsideUnchanged(a, b, depth, from) && OutsideUnchanged(b, c, depth, from)
    ensures OutsideUnchanged(a, c, depth, from)
  {
    forall q | q in c && !Reaches(a, depth, from, q) ensures q in a && c[q] == a[q] {
      ReachesSub(a, b, depth, from, q);
    }
  }

  /**
   * A part type reachable, in a sub-registry, from a placement in a non-leaf
   * part type pt is reachable from pt.
   */
  lemma ReachesThrough(a: Parts, b: Parts, depth: map<string, nat>, pt: string, p: Placement, q: string)
    requires Ranked(a, depth) && Ranked(b, depth) && SubRegistry(a, b) && pt in a && !a[pt].isPart
    requires p in Placements(a[pt].steps) && p.ID in b
    ensures Reaches(b, depth, p.ID, q) ==> Reaches(a, depth, pt, q)
  {
    ReachesSub(a, b, depth, p.ID, q);
  }

  // ---------------------------------------------------------------------------
  // What a purge may change

  /** The step is unchanged, or lost exactly its placements of `id`. */
  ghost predicate StepPurged(s: Step, t: Step, id: string) {
    t == s || t == s.(subModels := Without(s.subModels, id))
  }

  ghost predicate PartPurged(x: PartType, y: PartType, id: string) {
    && y == x.(steps := y.steps)
    && |y.steps| == |x.steps|
    && forall i :: 0 <= i < |x.steps| ==> StepPurged(x.steps[i], y.steps[i], id)
  }

  /** Every step of every part type is unchanged or lost exactly its placements of `id`. */
  ghost predicate PurgedFrom(a: Parts, b: Parts, id: string) {
    a.Keys == b.Keys && forall q :: q in a ==> PartPurged(a[q], b[q], id)
  }

  lemma PurgedTransitive(a: Parts, b: Parts, c: Parts, id: string)
    requires PurgedFrom(a, b, id) && PurgedFrom(b, c, id)
    ensures PurgedFrom(a, c, id)
  {
    forall q | q in a ensures PartPurged(a[q], c[q], id) {
      forall i | 0 <= i < |a[q].steps| ensures StepPurged(a[q].steps[i], c[q].steps[i], id) {
        WithoutIdempotent(a[q].steps[i].subModels, id);
      }
    }
  }

  lemma {:induction false} PurgedStepsSub(xs: seq<Step>, ys: seq<Step>, id: string)
    requires |ys| == |xs| && forall i :: 0 <= i < |xs| ==> StepPurged(xs[i], ys[i], id)
    ensures forall p :: p in Placements(ys) ==> p in Placements(xs)
  {
    forall p | p in Placements(ys) ensures p in Placements(xs) {
      PlacementsMember(ys, p);
      var i :| 0 <= i < |ys| && p in ys[i].subModels;
      WithoutMembers(xs[i].subModels, id);
      PlacementsMember(xs, p);
    }
  }

  /** A purge only removes placements. */
  lemma PurgedIsSub(a: Parts, b: Parts, id: string)
    requires PurgedFrom(a, b, id)
    ensures SubRegistry(a, b)
  {
    forall q | q in a ensures forall p :: p in Placements(b[q].steps) ==> p in Placements(a[q].steps) {
      PurgedStepsSub(a[q].steps, b[q].steps, id);
    }
  }

  /** Replacing the steps of one part type by steps with no new placements keeps the registry ranked. */
  function WithSteps(parts: Parts, id: string, steps: seq<Step>): Parts
    requires id in parts
  {
    parts[id := parts[id].(steps := steps)]
  }

  lemma ReplaceStepsRanked(parts: Parts, depth: map<string, nat>, id: string, steps: seq<Step>)
    requires Ranked(parts, depth) && id in parts
    requires forall p :: p in Placements(steps) ==> p in Placements(parts[id].steps)
    ensures SubRegistry(parts, WithSteps(parts, id, steps)) && Ranked(WithSteps(parts, id, steps), depth)
  {
    RankedSub(parts, WithSteps(parts, id, steps), depth);
  }

  /** Every part type is filed under its own ID. */
  predicate KeyedByID(parts: Parts) {
    forall q :: q in parts ==> parts[q].ID == q
  }

  /**
   * The ranking after a new part type is slotted in below `id`: every old
   * depth is doubled and moved up by one, which leaves the even depth just
   * below id's free for newID.
   */
  function Deepened(depth: map<string, nat>, id: string, newID: string): map<string, nat>
    requires id in depth
  {
    (map q | q in depth :: 2 * depth[q] + 1)[newID := 2 * depth[id]]
  }

  /**
   * Registering a part type made of placements taken from id, and giving id a
   * placement of it, keeps the registry acyclic.
   */
  lemma {:induction false} ExtractRanked(parts: Parts, depth: map<string, nat>, id: string, newPart: PartType,
                                         steps: seq<Step>, pd: Placement)
    requires Ranked(parts, depth) && id in parts && newPart.ID !in parts && pd.ID == newPart.ID
    requires forall p :: p in Placements(newPart.steps) ==> p in Placements(parts[id].steps)
    requires forall p :: p in Placements(steps) ==> p in Placements(parts[id].steps) || p == pd
    ensures Ranked(parts[newPart.ID := newPart][id := parts[id].(steps := steps)], Deepened(depth, id, newPart.ID))
  {
    var newID := newPart.ID;
    var b := parts[newID := newPart][id := parts[id].(steps := steps)];
    var d := Deepened(depth, id, newID);
    forall q | q in b ensures q in d && Below(b, d, b[q].steps, d[q]) {
      forall p | p in Placements(b[q].steps) ensures p.ID in b && p.ID in d && d[p.ID] < d[q] {
        if q == newID {
          assert p in Placements(parts[id].steps);
        } else if q == id {
          if p != pd {
            assert p in Placements(parts[id].steps);
          }
        } else {
          assert b[q] == parts[q];
        }
      }
    }
  }

  // ---------------------------------------------------------------------------

  class Loader {
    var partTypes: Parts
    var mainModel: string
    /** A ranking of the part types that shows the registry acyclic. */
    ghost var depth: map<string, nat>

    ghost predicate Valid()
      reads this
    {
      mainModel in partTypes && KeyedByID(partTypes) && Ranked(partTypes, depth)
    }

    constructor (partTypes: Parts, mainModel: string, ghost depth: map<string, nat>)
      requires mainModel in partTypes && KeyedByID(partTypes) && Ranked(partTypes, depth)
      ensures Valid()
      ensures this.partTypes == partTypes && this.mainModel == mainModel && this.depth == depth
    {
      this.partTypes := partTypes;
      this.mainModel := mainModel;
      this.depth := depth;
    }

    /**
     * partTypes[pt].purgePart(loader, id): unless pt is a leaf part, drop the
     * placements of id from each of its steps and purge the part types of the
     * placements that remain.
     */
    method PurgePart(pt: string, id: string)
      requires pt in partTypes && Ranked(partTypes, depth)
      modifies this`partTypes
      decreases depth[pt], 1
      ensures Ranked(partTypes, depth)
      ensures PurgedFrom(old(partTypes), partTypes, id)
      ensures forall q :: q in partTypes && depth[q] > depth[pt] ==> partTypes[q] == old(partTypes)[q]
      ensures OutsideUnchanged(old(partTypes), partTypes, depth, pt)
      ensures old(partTypes)[pt].isPart ==> partTypes == old(partTypes)
      ensures forall q :: q in old(partTypes) && old(partTypes)[q].isPart ==> q in partTypes && partTypes[q] == old(partTypes)[q]
      ensures CleanBelow(partTypes, depth, pt, id)
    {
      if partTypes[pt].isPart {
        return;
      }
      ghost var orig := partTypes;
      var n := |partTypes[pt].steps|;
      var i := 0;
      while i < n
        invariant 0 <= i <= n
        invariant PurgeInvariant(orig, partTypes, depth, pt, i, n, id)
      {
        ghost var before := partTypes;
        PurgeStep(pt, i, id);
        StepTurn(orig, before, partTypes, depth, pt, i, n, id);
        i := i + 1;
      }
      assert partTypes[pt].steps[..n] == partTypes[pt].steps;
      LeavesKept(orig, partTypes, depth, pt);
    }

    /** One turn of purgePart's loop: filter step i of pt, then purge what it still places. */
    method PurgeStep(pt: string, i: int, id: string)
      requires pt in partTypes && Ranked(partTypes, depth) && !partTypes[pt].isPart && 0 <= i < |partTypes[pt].steps|
      modifies this`partTypes
      decreases depth[pt], 0
      ensures Ranked(partTypes, depth)
      ensures PurgedFrom(old(partTypes), partTypes, id)
      ensures forall q :: q in partTypes && depth[q] > depth[pt] ==> partTypes[q] == old(partTypes)[q]
      ensures OutsideUnchanged(old(partTypes), partTypes, depth, pt)
      ensures partTypes[pt] == old(partTypes[pt].(steps := partTypes[pt].steps[i := partTypes[pt].steps[i].(
                subModels := Without(partTypes[pt].steps[i].subModels, id))]))
      ensures forall p :: p in partTypes[pt].steps[i].subModels ==>
                p.ID in partTypes && CleanBelow(partTypes, depth, p.ID, id)
    {
      var part := partTypes[pt];
      var step := part.steps[i];
      var kept := Without(step.subModels, id);
      var written := part.(steps := part.steps[i := step.(subModels := kept)]);
      partTypes := partTypes[pt := written];
      PurgeStepWritten(old(partTypes), partTypes, depth, pt, i, id);

      var j := 0;
      while j < |kept|
        invariant 0 <= j <= |kept|
        invariant pt in partTypes && Ranked(partTypes, depth) && PurgedFrom(old(partTypes), partTypes, id)
        invariant partTypes[pt] == written
        invariant forall q :: q in partTypes && depth[q] > depth[pt] ==> partTypes[q] == old(partTypes)[q]
        invariant OutsideUnchanged(old(partTypes), partTypes, depth, pt)
        invariant KeptClean(partTypes, depth, kept, j, id)
      {
        ghost var prev := partTypes;
        PlacementsMember(written.steps, kept[j]);
        assert kept[j] in written.steps[i].subModels;
        PurgePart(kept[j].ID, id);
        KeptFrame(old(partTypes), prev, partTypes, depth, pt, i, kept, j, id);
        PurgedTransitive(old(partTypes), prev, partTypes, id);
        PurgedIsSub(prev, partTypes, id);
        KeptDone(prev, partTypes, depth, kept, j, id);
        j := j + 1;
      }
    }
  }

  /** Writing the filtered step i of pt keeps the registry ranked and purged from the original. */
  lemma PurgeStepWritten(before: Parts, after: Parts, depth: map<string, nat>, pt: string, i: int, id: string)
    requires pt in before && 0 <= i < |before[pt].steps| && Ranked(before, depth)
    requires after == before[pt := before[pt].(steps := before[pt].steps[i := before[pt].steps[i].(
               subModels := Without(before[pt].steps[i].subModels, id))])]
    ensures PurgedFrom(before, after, id) && Ranked(after, depth)
  {
    assert PurgedFrom(before, after, id);
    PurgedIsSub(before, after, id);
    RankedSub(before, after, depth);
  }

  /**
   * Purging the part type of kept[j], a placement step i of pt kept, changes
   * nothing that pt does not reach.
   */
  lemma KeptFrame(o: Parts, prev: Parts, now: Parts, depth: map<string, nat>, pt: string, i: int,
                  kept: seq<Placement>, j: int, id: string)
    requires Ranked(o, depth) && Ranked(prev, depth) && PurgedFrom(o, prev, id)
    requires pt in o && !o[pt].isPart && 0 <= i < |o[pt].steps| && kept == Without(o[pt].steps[i].subModels, id)
    requires 0 <= j < |kept| && kept[j].ID in prev
    requires OutsideUnchanged(o, prev, depth, pt) && OutsideUnchanged(prev, now, depth, kept[j].ID)
    ensures OutsideUnchanged(o, now, depth, pt)
  {
    PurgedIsSub(o, prev, id);
    WithoutMembers(o[pt].steps[i].subModels, id);
    PlacementsMember(o[pt].steps, kept[j]);
    forall q | q in now && !Reaches(o, depth, pt, q) ensures q in o && now[q] == o[q] {
      ReachesThrough(o, prev, depth, pt, kept[j], q);
    }
  }

  /** The part types of the first j placements of kept are clean of id. */
  ghost predicate KeptClean(parts: Parts, depth: map<string, nat>, kept: seq<Placement>, j: int, id: string)
    requires Ranked(parts, depth) && 0 <= j <= |kept|
  {
    forall k :: 0 <= k < j ==> kept[k].ID in parts && CleanBelow(parts, depth, kept[k].ID, id)
  }

  /** Purging the part type of kept[j] keeps kept[..j] clean and adds kept[j]. */
  lemma KeptDone(prev: Parts, now: Parts, depth: map<string, nat>, kept: seq<Placement>, j: int, id: string)
    requires Ranked(prev, depth) && SubRegistry(prev, now)
    requires 0 <= j < |kept| && kept[j].ID in now
    requires KeptClean(prev, depth, kept, j, id)
    ensures Ranked(now, depth)
    ensures CleanBelow(now, depth, kept[j].ID, id) ==> KeptClean(now, depth, kept, j + 1, id)
  {
    RankedSub(prev, now, depth);
    forall k | 0 <= k < j
      ensures kept[k].ID in now && CleanBelow(now, depth, kept[k].ID, id)
    {
      CleanSub(prev, now, depth, kept[k].ID, id);
    }
  }

  /**
   * What purgePart(pt, id) keeps while it walks the steps of pt: the first
   * i steps are clean of id, nothing ranked above pt has changed, and
   * everything changed so far is a purge of id.
   */
  ghost predicate PurgeInvariant(orig: Parts, parts: Parts, depth: map<string, nat>, pt: string, i: int, n: int, id: string) {
    && 0 <= i <= n
    && pt in orig && Ranked(orig, depth) && pt in parts && Ranked(parts, depth) && PurgedFrom(orig, parts, id)
    && !parts[pt].isPart && |parts[pt].steps| == n
    && (forall q :: q in parts && depth[q] > depth[pt] ==> parts[q] == orig[q])
    && OutsideUnchanged(orig, parts, depth, pt)
    && PrefixClean(parts, depth, pt, i, id)
  }

  /** The placements in the first i steps of pt are not id and their part types are clean of id. */
  ghost predicate PrefixClean(parts: Parts, depth: map<string, nat>, pt: string, i: int, id: string)
    requires Ranked(parts, depth) && pt in parts && 0 <= i <= |parts[pt].steps|
  {
    forall p :: p in Placements(parts[pt].steps[..i]) ==>
      p.ID in parts && p.ID != id && CleanBelow(parts, depth, p.ID, id)
  }

  /** One turn of purgePart's loop keeps its invariant. */
  lemma StepTurn(orig: Parts, before: Parts, now: Parts, depth: map<string, nat>, pt: string, i: int, n: int, id: string)
    requires PurgeInvariant(orig, before, depth, pt, i, n, id) && i < n
    requires Ranked(now, depth) && PurgedFrom(before, now, id)
    requires forall q :: q in now && depth[q] > depth[pt] ==> now[q] == before[q]
    requires OutsideUnchanged(before, now, depth, pt)
    requires now[pt] == before[pt].(steps := before[pt].steps[i := before[pt].steps[i].(
               subModels := Without(before[pt].steps[i].subModels, id))])
    requires forall p :: p in now[pt].steps[i].subModels ==> p.ID in now && CleanBelow(now, depth, p.ID, id)
    ensures PurgeInvariant(orig, now, depth, pt, i + 1, n, id)
  {
    PurgedTransitive(orig, before, now, id);
    PurgedIsSub(orig, before, id);
    OutsideTransitive(orig, before, now, depth, pt);
    PurgedIsSub(before, now, id);
    StepClean(before, now, depth, pt, i, id);
  }

  /** After step i of pt is purged, its first i + 1 steps are clean of id. */
  lemma StepClean(before: Parts, now: Parts, depth: map<string, nat>, pt: string, i: int, id: string)
    requires Ranked(before, depth) && Ranked(now, depth) && SubRegistry(before, now) && pt in before
    requires 0 <= i < |before[pt].steps|
    requires now[pt] == before[pt].(steps := before[pt].steps[i := before[pt].steps[i].(
               subModels := Without(before[pt].steps[i].subModels, id))])
    requires PrefixClean(before, depth, pt, i, id)
    requires forall p :: p in now[pt].steps[i].subModels ==> p.ID in now && CleanBelow(now, depth, p.ID, id)
    ensures PrefixClean(now, depth, pt, i + 1, id)
  {
    assert now[pt].steps[..i] == before[pt].steps[..i];
    PrefixStillClean(before, now, depth, pt, i, id);
    StepDone(now, depth, now[pt].steps, i, before[pt].steps[i].subModels, id);
  }

  /** Purging below step i of pt keeps the steps before it clean. */
  lemma PrefixStillClean(before: Parts, now: Parts, depth: map<string, nat>, pt: string, i: int, id: string)
    requires Ranked(before, depth) && SubRegistry(before, now) && pt in before
    requires 0 <= i <= |before[pt].steps| && i <= |now[pt].steps| && now[pt].steps[..i] == before[pt].steps[..i]
    requires forall p :: p in Placements(before[pt].steps[..i]) ==>
               p.ID in before && p.ID != id && CleanBelow(before, depth, p.ID, id)
    ensures Ranked(now, depth)
    ensures forall p :: p in Placements(now[pt].steps[..i]) ==>
              p.ID in now && p.ID != id && CleanBelow(now, depth, p.ID, id)
  {
    RankedSub(before, now, depth);
    forall p | p in Placements(now[pt].steps[..i])
      ensures p.ID in now && p.ID != id && CleanBelow(now, depth, p.ID, id)
    {
      CleanSub(before, now, depth, p.ID, id);
    }
  }

  /** Once every kept placement of step i is clean, the first i + 1 steps are clean. */
  lemma StepDone(parts: Parts, depth: map<string, nat>, steps: seq<Step>, i: int, original: seq<Placement>, id: string)
    requires Ranked(parts, depth) && 0 <= i < |steps| && steps[i].subModels == Without(original, id)
    requires forall p :: p in Placements(steps[..i]) ==> p.ID in parts && p.ID != id && CleanBelow(parts, depth, p.ID, id)
    requires forall p :: p in steps[i].subModels ==> p.ID in parts && CleanBelow(parts, depth, p.ID, id)
    ensures forall p :: p in Placements(steps[..i + 1]) ==> p.ID in parts && p.ID != id && CleanBelow(parts, depth, p.ID, id)
  {
    assert steps[..i + 1] == steps[..i] + [steps[i]];
    PlacementsAround(steps[..i], steps[i], []);
    assert steps[..i] + [steps[i]] + [] == steps[..i + 1];
    WithoutMembers(original, id);
  }
}
