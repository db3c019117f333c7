# Step-tree editing engine of the LDraw instruction editor

This project models the editing engine behind the step editor of the LDraw
building-instructions viewer (`js/LDRStepEditor.js`). An instruction
document is a registry of part types. A part type that is not a leaf part
has an ordered list of steps. Each step holds three things:

- its placements (`subModels`): a placement says which part type goes where,
  in which colour, and whether the user has highlighted it (ghosted);
- the type-1 file lines that mirror those placements when the file is saved;
- an optional step rotation.

The viewer walks this tree with a tree of step handlers. The innermost
handler is the cursor. Every edit works on the step at the cursor. It
rewrites the step list of the current part type. It then reports the global
step index the viewer should show once it has rebuilt itself.

The model covers these parts of the engine:

- the `LDR.StepHandler` edits: `colorGhosted`, `addStep`, `remove`,
  `moveNext`, `movePrev` and `moveToNewSubModel`;
- the cursor-delta helpers `countUsages`, `countStepsInsideOfNextStep` and
  `countStepsInsideOfPreviousStep`;
- the recursive `LDRPartType.purgePart`;
- from `LDR.StepEditor`:
  - `generateNextID`;
  - rotation propagation (`propagate`, `makeNormal`, `makeEnd`);
  - the part-button visibility rules of `showAndHideButtons`.

The model is laid out as follows:

- `wrappers.dfy`: `Option`.
- `base36.dfy`: `Number.prototype.toString(36)` for non-negative integers,
  and the `<numeral>.ldr` part names.
- `splice.dfy`: the list surgery the source does with `splice`: insert,
  remove, and swap with the next element.
- `document.dfy`:
  - placements, a class, because `colorGhosted` recolours them in place
    and a file line shares the same object;
  - steps, file lines and part types, as values;
  - the ghost filters and the mirror invariant between placements and
    type-1 lines.
- `registry.dfy`: the loader, a class whose `partTypes` map the edits
  reassign. It holds a ghost ranking of the part types, which witnesses
  that the registry is acyclic. `purgePart` and its inner step loop are
  methods of the loader.
- `handlers.dfy`: the step-handler tree, `countUsages` (a loop that recurses
  into nested handlers), and the two step-count helpers.
- `edits.dfy`: one specification function per edit. Each maps the old step
  list to the new step list and the cursor shift. The lemmas say what each
  edit conserves and how the edits relate to one another.
- `step_handler.dfy`: the class `StepHandler`. Its methods perform the edits
  on the loader. Each is proved to leave exactly the specified registry, to
  return the specified cursor target, and to keep the loader valid. The one
  exception is the purge inside remove, which is specified by what it may
  change: only placements of the removed part type, only in non-leaf part
  types the main model reaches. Valid
  means four things: the main model is registered, every part type is filed
  under its own ID, every placed ID is registered, and the registry is
  acyclic.
- `step_editor.dfy`: the class `StepEditor`, holding the counter for new
  names and the step the cursor last reported. It also holds rotation
  propagation and the button rules.

Several functions are not part of this model and become inputs:

- The cursor that `getCurrentStepInfo`, `getCurrentStepIndex` and
  `getCurrentStepHandler` report is the `Cursor` parameter of each edit.
- `rebuild` followed by `moveSteps(stepIndex)` is the returned
  `Outcome.Moved(stepIndex)`. A `console.warn` together with an early
  return is `Outcome.Warned`.
- `totalNumberOfSteps` is a field of each handler, taken as given.
- The source reads `sh.length` when it counts steps; the model uses the
  length of the handler's step list.
- `isEmpty()` is read as "no placements".
- `isPart()` is the part type's `isPart` flag.
- `containsNonPartSubModels(loader)` is read as "some placement names a
  registered part type that is not a leaf part".

## Model

| member | source | states |
|---|---|---|
| Base36.ToBase36 | js/LDRStepEditor.js:68 | `n.toString(36)`: the base-36 numeral of n, most significant digit first, in lower-case digits `0-9a-z` |
| Base36.PartName | js/LDRStepEditor.js:68-71 | the name generateNextID tries for a counter value: its base-36 numeral followed by `.ldr` |
| Base36.ToBase36Canonical | js/LDRStepEditor.js:67-72 | `n.toString(36)` is a non-empty run of base-36 digits with no leading zero |
| Base36.FromToBase36 | js/LDRStepEditor.js:67-72 | reading the numeral back gives `n`: the numeral determines the counter |
| Base36.PartNameRoundTrip | js/LDRStepEditor.js:69-72 | a generated name `<numeral>.ldr` decodes back to its counter value |
| Base36.PartNameInjective | js/LDRStepEditor.js:69-72 | distinct counter values give distinct part names |
| StepEditors.StepEditor.GenerateNextID | js/LDRStepEditor.js:67-73 | returns `PartName(nextID)` for the new `nextID`, which is at least the old one; that name is not a registered part type; every counter value skipped names a registered part type, so the name is the first free one; the loop ends because each skipped value uses up a registered name |
| StepEditors.PendingShrinks | js/LDRStepEditor.js:69-70 | skipping a taken counter value strictly shrinks the set of registered generated names still ahead: the termination measure of the loop |
| StepEditors.StepEditor.constructor | js/LDRStepEditor.js:17-30 | the editor starts with `nextID == 0` and keeps the loader it is given |
| StepEditors.StepEditor.UpdateCurrentStep | js/LDRStepEditor.js:75-81 | records the part type, step index and shown rotation that the cursor reports |
| StepEditors.RunEnd | js/LDRStepEditor.js:129-135 | where propagation stops: the first index at or after the start that is past the end or whose rotation differs from the rotation shown at the cursor; every step before it has the shown rotation |
| StepEditors.Propagated | js/LDRStepEditor.js:128-137 | the steps after propagate: step k and the maximal run after it whose rotation equals the shown one get the new rotation; all else as before |
| StepEditors.StepEditor.Propagate | js/LDRStepEditor.js:128-141 | the loop overwrites the rotation of each following step while that step equals the shown rotation, and then sets the rotation of the step at the cursor; the new registry is exactly `Propagated(...)` on the part type at the cursor, and the loader stays valid |
| StepEditors.PropagateSteps | js/LDRStepEditor.js:128-137 | the loop and the final write on a copy of the steps produce exactly `Propagated(...)` |
| StepEditors.PropagatedShape | js/LDRStepEditor.js:128-137 | propagation changes rotations only: lengths, placements and lines are kept; the step at the cursor and the maximal run after it with the shown rotation get the new rotation; steps before the cursor and from the end of the run on are unchanged |
| StepEditors.PropagatedPlacements | js/LDRStepEditor.js:128-137 | propagation neither adds, drops nor reorders a placement |
| StepEditors.PropagateUnchanged | js/LDRStepEditor.js:128-137 | propagating the rotation the step already has, with that rotation shown, leaves the steps as they are |
| StepEditors.NormalRotation | js/LDRStepEditor.js:144 | the rotation makeNormal propagates: none at the first step, otherwise the rotation of the step before the cursor |
| StepEditors.StepEditor.MakeNormal | js/LDRStepEditor.js:143-145 | propagates the previous step's rotation, or no rotation at the first step |
| StepEditors.NormalCopiesPrevious | js/LDRStepEditor.js:143-145 | after makeNormal the step at the cursor rotates as the step before it does, and not at all when it is the first step |
| StepEditors.StepEditor.MakeEnd | js/LDRStepEditor.js:161-163 | propagates the absence of a rotation |
| StepEditors.Buttons | js/LDRStepEditor.js:273-283 | colour shown when some placement is ghosted; remove shown when some placement is ghosted or there is more than one step; new sub-model shown unless the step is empty, or nothing is ghosted and it is the only step |
| StepEditors.ColorButtonShown | js/LDRStepEditor.js:274-280 | the colour button is shown exactly when the step has ghosted placements for colorGhosted to recolour |
| StepEditors.RemoveButtonHidden | js/LDRStepEditor.js:275-281 | the remove button is hidden exactly on the only step of a part type with nothing ghosted; there, remove would either delete that last step or change nothing |
| StepEditors.ExtractButtonShown | js/LDRStepEditor.js:274-282 | when the move-to-new-sub-model button is shown, the new part type's step gets placements; a non-empty step hides the button only when it has no ghosts and is the only step, so the new part type would take over the whole part type |
| StepHandlers.StepHandler.ColorGhosted | js/LDRStepEditor.js:395-409 | with no step at the cursor, it warns; otherwise every ghosted placement of the current step takes the new colour, every other placement keeps its colour, and the cursor stays put |
| Document.NewStep | js/LDRStepEditor.js:422-425 | `new THREE.LDRStep()` with the rotation cloned from a neighbour: no placements, no lines |
| Edits.AddedSteps | js/LDRStepEditor.js:421-427 | one more step; at `current + 1` an empty step with the current step's rotation; the steps before and after keep their order |
| StepHandlers.StepHandler.AddStep | js/LDRStepEditor.js:411-432 | warns without a step; otherwise the part type's steps become `AddedSteps`, nothing else in the registry changes, the target is `stepIndex + countUsages + 1`, and the loader stays valid |
| StepHandlers.AddStepRanked | js/LDRStepEditor.js:423-427 | inserting the empty step keeps the registry acyclic and keyed by ID |
| Handlers.UsagesBefore | js/LDRStepEditor.js:651-666 | the handlers for the part among the first n steps: a matching handler counts one and is not entered; any other handler is searched up to its own current step |
| Handlers.Usages | js/LDRStepEditor.js:651-666 | countUsages: `UsagesBefore` up to the handler's current step |
| Handlers.CountUsages | js/LDRStepEditor.js:651-666 | the loop returns the recursive count `Usages`: the handlers for the part type among the steps before current, without recursing into those handlers, and recursing into all others |
| Handlers.UsagesPositive | js/LDRStepEditor.js:651-666 | countUsages is positive exactly when a handler for the part type lies on the visited part of the tree |
| Handlers.UsagesIgnoresLaterSteps | js/LDRStepEditor.js:654 | countUsages reads only the steps before current |
| Handlers.UsagesBounded | js/LDRStepEditor.js:651-666 | countUsages is at most the number of visited handlers |
| Handlers.StepSize | js/LDRStepEditor.js:674 | the steps a step takes up when flattened: 1 plus its handler's `totalNumberOfSteps` if it has one, else 1 |
| Handlers.CountStepsInsideOfNextStep | js/LDRStepEditor.js:668-675 | at least 1; defined as 1 at the last step, otherwise 1 plus the next step's `totalNumberOfSteps` if it has a handler, else 1; its partners are `PreviousIsMirroredNext` and `SteppedForwardCounts` |
| Handlers.CountStepsInsideOfPreviousStep | js/LDRStepEditor.js:677-684 | at least 1; defined as 1 at the first step, otherwise 1 plus the previous step's `totalNumberOfSteps` if it has a handler, else 1 |
| Handlers.SteppedForward | js/LDRStepEditor.js:497-500 | the handler after a whole-step moveNext: the current step and the next one change places, and the cursor follows to `current + 1` |
| Handlers.SteppedForwardCounts | js/LDRStepEditor.js:498 | after a whole-step move forward, the previous-step count at the new position equals the next-step count at the old one |
| Handlers.PreviousIsMirroredNext | js/LDRStepEditor.js:668-684 | the previous-step count is the next-step count of the mirrored handler |
| Edits.RemoveCaseOf | js/LDRStepEditor.js:447-469 | the branch remove takes, and the exact condition for each: empty step; non-empty with ghosts; non-empty, no ghosts, `current > 0`; non-empty, no ghosts, `current == 0` |
| StepHandlers.RemoveSteps | js/LDRStepEditor.js:447-469 | the loop-free surgery of remove returns exactly `Removed(...)` and its cursor shift; it reports a purge exactly when dropping the ghosts empties the only step, and then the step list is empty |
| Edits.Dropped | js/LDRStepEditor.js:452 | the step list once the current step has lost its ghosted placements and their type-1 lines |
| Edits.RemovePurges | js/LDRStepEditor.js:451-456 | remove purges the part type exactly when it is in the ghost branch, the part type has only one step, and dropping the ghosts empties that step |
| Edits.Removed | js/LDRStepEditor.js:447-469 | the step list and cursor shift of each branch of remove: delete an empty step (`-countUsages`); drop the ghosts and slice off an emptied first step (`-countUsages`, else 0); merge into the previous step (`-(countUsages+1)`); otherwise no change |
| StepHandlers.StepHandler.Remove | js/LDRStepEditor.js:434-473 | warns without a step; otherwise the target is `stepIndex + shift`; without a purge the registry differs only by the part type's new steps; with a purge the part type has no steps, each step of every other part type is unchanged or lost exactly its placements of the part, every other part type the main model does not reach is unchanged, and nothing reachable from the main model places the part; the loader stays valid throughout |
| StepHandlers.StepHandler.DropAndPurge | js/LDRStepEditor.js:451-460 | drops the ghosts, calls `mainModel.purgePart`, then slices off the emptied first step; the result is as Remove states for a purge |
| Edits.RemoveUndoesAdd | js/LDRStepEditor.js:411-450 | removing the empty step that addStep inserted restores the steps, and the cursor moves back by countUsages |
| Edits.RemoveConserves | js/LDRStepEditor.js:447-469 | remove keeps the multiset of placements, except in the ghost case, where exactly the ghosted placements are lost |
| Edits.RemoveGhostShape | js/LDRStepEditor.js:451-462 | in the ghost case the current step keeps exactly its non-ghosted placements (in order), its lines lose exactly the type-1 lines of ghosted placements, and its rotation is kept; an emptied first step is dropped with a shift of `-countUsages` |
| Document.MergedLeft | js/LDRStepEditor.js:464-466 | the previous step after merge-left: the current step's placements appended to its own, its lines and rotation unchanged |
| Edits.RemoveMergeShape | js/LDRStepEditor.js:464-468 | merge-left: one fewer step, and the previous step's placements become old previous ++ current; the other steps are unchanged |
| Edits.RemoveMirrored | js/LDRStepEditor.js:447-469 | every branch except merge-left keeps each step's type-1 lines equal to its placements; merge-left breaks that for the previous step, because it does not move the lines |
| Edits.DropConserves | js/LDRStepEditor.js:452-458 | dropping the ghosts loses exactly the ghosted placements; slicing off an empty first step loses none |
| Edits.MergeConserves | js/LDRStepEditor.js:464-468 | merging left keeps the multiset of placements |
| StepHandlers.RemoveRanked | js/LDRStepEditor.js:447-469 | the new step list keeps the registry acyclic and keyed by ID |
| StepHandlers.DropKeepsRanked | js/LDRStepEditor.js:452 | dropping the ghosts keeps the registry acyclic and keyed by ID |
| StepHandlers.PurgeFrame | js/LDRStepEditor.js:451-459 | after the drop, the purge from the main model and the slice, every part type other than the current one that the main model does not reach is as before the drop |
| StepHandlers.SliceAfterPurge | js/LDRStepEditor.js:453-459 | after the purge the emptied part type is untouched; slicing its step off leaves an acyclic registry in which only that part type's steps changed and everything else is a purge of it |
| Registry.Loader.PurgePart | js/LDRStepEditor.js:686-695 | on a leaf part type the registry is unchanged; otherwise every step of every part type is unchanged or lost exactly its placements of the ID; part types ranked above, part types it does not reach, and every leaf part type are untouched; afterwards nothing reachable through non-leaf part types places the ID; the registry stays acyclic |
| Registry.Reaches | js/LDRStepEditor.js:686-695 | the non-leaf part types a purge started at a part type visits: none when it is a leaf; otherwise itself and whatever the part types of its placements reach |
| Registry.LeafNotReached | js/LDRStepEditor.js:687-688 | no purge reaches a leaf part type, since purgePart returns at once on a leaf |
| Registry.LeavesKept | js/LDRStepEditor.js:687-688 | a purge that keeps everything outside its reach keeps every leaf part type |
| Registry.ReachesSub | js/LDRStepEditor.js:691 | removing placements never makes a part type reachable |
| Registry.OutsideTransitive | js/LDRStepEditor.js:690-694 | two purges within the reach of a part type together leave everything outside that reach unchanged |
| Registry.ReachesThrough | js/LDRStepEditor.js:692 | what a kept placement's part type reaches, pt reaches too |
| Registry.KeptFrame | js/LDRStepEditor.js:692 | purging the part type of a kept placement changes nothing that pt does not reach |
| Registry.ContainsNonPartSubModels | js/LDRStepEditor.js:571 | a step contains a non-part sub-model when one of its placements names a registered part type that is not a leaf part |
| Registry.Loader.PurgeStep | js/LDRStepEditor.js:690-693 | one step of a non-leaf part type (the loop runs only there): filters out the ID, then purges the part type of each remaining placement; the step ends with exactly the filtered placements, each of them clean of the ID; part types it does not reach are untouched |
| Registry.StepTurn | js/LDRStepEditor.js:694 | one turn of the step loop keeps its invariant: the first steps are clean, everything changed is a purge, and nothing above is touched |
| Registry.KeptDone | js/LDRStepEditor.js:692 | purging one remaining placement's part type keeps the earlier ones clean |
| Registry.CleanSub | js/LDRStepEditor.js:691-692 | removing placements never makes a clean part type unclean |
| Registry.PurgedTransitive | js/LDRStepEditor.js:686-695 | a purge of a purge is a purge |
| Document.Without | js/LDRStepEditor.js:691 | `subModels.filter(sm => sm.ID !== ID)`: the placements of other part types, in order |
| Document.WithoutIdempotent | js/LDRStepEditor.js:691 | filtering out the ID twice is filtering it once |
| Document.WithoutMembers | js/LDRStepEditor.js:691 | the filter keeps exactly the placements of other part types |
| Edits.NextPadded | js/LDRStepEditor.js:488-495 | moveNext first appends a step with the current rotation when the current step is the last one |
| Edits.NextSkips | js/LDRStepEditor.js:504-506 | the ghost branch skips the next step when it contains a non-part sub-model |
| Edits.NextInserts | js/LDRStepEditor.js:509-512 | after a skip, a new step is inserted when the skipped step is the last one or the step after it contains a non-part sub-model too |
| Edits.NextPrepared | js/LDRStepEditor.js:488-519 | the step list just before the ghosts move: padded, and with a new step carrying the skipped step's rotation inserted at `current + 1` when one is needed |
| Edits.NextTarget | js/LDRStepEditor.js:504-509 | the step that receives the ghosts: `current + 2` after a skip, else `current + 1` |
| Edits.MoveGhosts | js/LDRStepEditor.js:523-531 | the ghosted placements and their type-1 lines leave one step and are appended, in order, to another |
| Edits.MovedNext | js/LDRStepEditor.js:488-532 | moveNext always edits (it never throws) |
| StepHandlers.MoveNextSteps | js/LDRStepEditor.js:488-532 | the surgery of moveNext, done in place, returns exactly `MovedNext(...)` and its cursor shift |
| StepHandlers.StepHandler.MoveNext | js/LDRStepEditor.js:475-536 | warns without a step; otherwise the part type's steps become `MovedNext(...)`, nothing else changes, the target is `stepIndex + shift`, and the loader stays valid |
| Edits.MoveNextWholeStep | js/LDRStepEditor.js:489-501 | without ghosts: a step with the current rotation is appended when the current step is last; then the current step and its successor swap, and the multiset of steps is kept |
| Edits.MoveNextGhostsMove | js/LDRStepEditor.js:502-524 | with ghosts: the current step keeps exactly its non-ghosted placements; the target step gets the ghosted placements appended, in order; the two steps together keep their placements |
| Edits.MoveNextGhostTarget | js/LDRStepEditor.js:504-521 | the target step is not the current one; without a skip it is the next step; with a skip and no insertion it is the step after, which places no sub-model; when a step is inserted, the target is the skipped step, which does place a sub-model |
| Edits.MoveNextConserves | js/LDRStepEditor.js:488-532 | moveNext keeps the multiset of all placements |
| Edits.MoveNextMirrored | js/LDRStepEditor.js:488-532 | moveNext keeps every step's type-1 lines equal to its placements |
| StepHandlers.MoveNextRanked | js/LDRStepEditor.js:488-532 | moveNext keeps the registry acyclic and keyed by ID |
| Edits.MovePrevCrashes | js/LDRStepEditor.js:569-577 | movePrev throws exactly when it moves ghosts from step 1 and step 0 places a sub-model, because it then reads `steps[-1]` |
| Edits.PrevPadded | js/LDRStepEditor.js:549-560 | movePrev first inserts, in front, a step with the current rotation when the current step is the first one |
| Edits.PrevIndex | js/LDRStepEditor.js:558 | where the current step stands after that padding |
| Edits.MovedPrev | js/LDRStepEditor.js:551-593 | movePrev: pad with a new step when at the first step; without ghosts swap with the previous step (shift `-countStepsInsideOfPreviousStep`, plus one for padding); otherwise the ghost branch |
| Edits.PrevGhostsMoved | js/LDRStepEditor.js:566-590 | the ghost branch: move the ghosts to the previous step, or past it when it contains a non-part sub-model (shift `-1-inside`), into a new step when the one before places a sub-model too, and a crash when there is no step before |
| StepHandlers.MovePrevSteps | js/LDRStepEditor.js:551-593 | the surgery of movePrev, done in place, returns exactly `MovedPrev(...)` and its cursor shift, or reports the throw |
| StepHandlers.MoveStepEarlier | js/LDRStepEditor.js:562-565 | a ghost-free step removed at `current` and re-inserted at `current - 1` trades places with its predecessor |
| StepHandlers.PrevGhostSteps | js/LDRStepEditor.js:566-590 | the ghost branch of movePrev returns exactly `PrevGhostsMoved(...)` and its cursor shift, or reports the throw when it would read `steps[-1]` |
| StepHandlers.StepHandler.MovePrev | js/LDRStepEditor.js:538-597 | warns without a step; on the throw, the registry is unchanged and the outcome is `Threw`; otherwise the part type's steps become `MovedPrev(...)`, the target is `stepIndex + shift`, and the loader stays valid |
| StepHandlers.MoveNextThenPrev | js/LDRStepEditor.js:497-565 | a ghost-free moveNext followed by movePrev from the moved step restores the steps and adds up to a zero cursor shift, with each step count taken from the handler the edit starts from |
| Edits.MovePrevConserves | js/LDRStepEditor.js:551-593 | movePrev keeps the multiset of all placements |
| Edits.MovePrevMirrored | js/LDRStepEditor.js:551-593 | movePrev keeps every step's type-1 lines equal to its placements |
| Edits.MovePrevUndoesMoveNext | js/LDRStepEditor.js:497-501 | moving a ghost-free step forward and then back from its new position restores the steps |
| StepHandlers.MovePrevRanked | js/LDRStepEditor.js:551-593 | movePrev keeps the registry acyclic and keyed by ID |
| Edits.DropStep | js/LDRStepEditor.js:619-627 | the drop step: the single new placement, its type-1 line, and the rotation of the current step |
| Edits.Extracted | js/LDRStepEditor.js:629-645 | with ghosts: drop the ghosts from the current step and insert the drop step after it (shift `2*countUsages+1`); without: the drop step replaces the current step (shift `countUsages`) |
| Edits.ExtractedPartSteps | js/LDRStepEditor.js:637-644 | the new part type's single step: the ghosted placements and their lines, or the whole current step |
| StepHandlers.ExtractSteps | js/LDRStepEditor.js:629-645 | the surgery of moveToNewSubModel returns exactly `Extracted(...)`, its shift, and the new part type's steps |
| StepHandlers.ExtractedParts | js/LDRStepEditor.js:616-645 | the registry after moveToNewSubModel: the new part type filed under its ID with the extracted steps, and the current part type's steps as `Extracted(...)` with the drop step |
| StepHandlers.StepHandler.MoveToNewSubModel | js/LDRStepEditor.js:599-649 | warns without a step; otherwise a fresh drop placement of `newID` in colour 16, at the origin with the identity matrix, culled and not inverted, is made; `newID` is registered with the extracted steps; the current part type gets the drop step; the target is `stepIndex + 2*countUsages + 1` with ghosts and `stepIndex + countUsages` without; the registry stays acyclic |
| StepHandlers.StepHandler.Extract | js/LDRStepEditor.js:611-645 | registers the new part type and rewrites the current part type into exactly `ExtractedParts(...)`; the ranking is deepened to keep the loader valid |
| Edits.NewPartType | js/LDRStepEditor.js:611-616 | the new part type is filed under `newID`, with the given steps, and is not a leaf part |
| Edits.ExtractShape | js/LDRStepEditor.js:629-645 | the drop step holds exactly the new placement, and the new part type has one step. With ghosts, the drop step goes in at `current + 1`, the new step holds exactly the ghosted placements, and the current step keeps the rest. Without ghosts, the new part type's step is the old current step, and the drop step takes its place. All other steps are unchanged |
| Edits.ExtractConserves | js/LDRStepEditor.js:629-645 | the placements of the rewritten part type and of the new part type together are the old placements plus the drop placement |
| Edits.ExtractMirrored | js/LDRStepEditor.js:626-645 | both the rewritten steps and the new part type's step keep type-1 lines equal to placements |
| StepHandlers.ExtractKeepsRanked | js/LDRStepEditor.js:616-645 | after the extraction the registry is keyed by ID, acyclic under the deepened ranking, and has exactly one more part type |
| Document.Placement.constructor | js/LDRStepEditor.js:621 | a new placement holds exactly the colour, position, rotation, part type ID, cull and winding flags and ghost flag it is given |
| Document.AnyGhost | js/LDRStepEditor.js:451 | `subModels.some(pd => pd.ghost)` |
| Document.Ghosts | js/LDRStepEditor.js:523 | `subModels.filter(pd => pd.ghost)`: the ghosted placements, in order |
| Document.NonGhosts | js/LDRStepEditor.js:524 | `subModels.filter(pd => !pd.ghost)`: the other placements, in order |
| Document.GhostLines | js/LDRStepEditor.js:530 | the type-1 lines of ghosted placements, in order |
| Document.KeptLines | js/LDRStepEditor.js:531 | every line except the type-1 lines of ghosted placements, in order |
| Document.IsEmpty | js/LDRStepEditor.js:447 | `isEmpty()`, read as: the step has no placements |
| Document.DropGhosts | js/LDRStepEditor.js:452-462 | the step without its ghosted placements and without the type-1 lines of ghosted placements; its other lines and its rotation stay |
| Document.Receive | js/LDRStepEditor.js:523-530 | the target step with the source step's ghosted placements and their type-1 lines appended, in order |
| Document.GhostStep | js/LDRStepEditor.js:634-638 | a fresh step holding only the ghosted placements and their type-1 lines, with no rotation |
| Document.GhostSplit | js/LDRStepEditor.js:452 | splitting placements on the ghost flag loses and duplicates nothing |
| Document.NoGhosts | js/LDRStepEditor.js:447-451 | `some(pd => pd.ghost)` holds exactly when the ghost filter is non-empty; without ghosts, the other filter keeps everything |
| Document.GhostsMembers | js/LDRStepEditor.js:523-524 | the two filters hold exactly the ghosted and the non-ghosted placements |
| Document.LineSplit | js/LDRStepEditor.js:530-531 | the two line filters split the lines: lines that are not type-1 lines always stay; a type-1 line moves exactly when its placement is ghosted |
| Document.LineFiltersFollowPlacements | js/LDRStepEditor.js:523-531 | the line filters move the same placements as the placement filters |
| Document.DropGhostsMirrored | js/LDRStepEditor.js:524-531 | dropping or splitting off the ghosts keeps a step's lines equal to its placements |
| Document.ReceiveMirrored | js/LDRStepEditor.js:523-530 | appending ghosts and their lines to a target keeps that target mirrored |
| Document.MergeLeftLosesLines | js/LDRStepEditor.js:464-466 | merging a non-empty step left leaves the previous step's lines out of step with its placements |
| Splice.InsertAt | js/LDRStepEditor.js:427 | `splice(i, 0, x)`: one more element, x at i, the others in order around it |
| Splice.RemoveAt | js/LDRStepEditor.js:448 | `splice(i, 1)`: one fewer element, the others in order |
| Splice.SwapWithNext | js/LDRStepEditor.js:499-500 | the remove-then-reinsert pair: the elements at i and i + 1 change places, the rest stay |
| Splice.RemoveInsert | js/LDRStepEditor.js:427 | removing what was just inserted restores the list |
| Splice.SwapTwice | js/LDRStepEditor.js:499-500 | swapping a step with its successor twice restores the steps |
| Splice.MoveLater | js/LDRStepEditor.js:499-500 | `splice(current, 1)` followed by `splice(current+1, 0, step)` swaps the step with its successor |
| Splice.MoveEarlier | js/LDRStepEditor.js:564-565 | `splice(current, 1)` followed by `splice(current-1, 0, step)` swaps the step with its predecessor |
| Splice.SwapMultiset | js/LDRStepEditor.js:499-500 | the swap keeps the multiset of steps |

## Left out

- DOM and GUI construction is not modelled: `makeEle`, `createGuiComponents`, the radio and XYZ widgets, the SVG icons, `makeSaveElementGreen`, `onStepSelected`, and the `update` wrapper that calls `reset` and `onChange`. `showAndHideButtons` is kept only as the boolean `Buttons`.
- The AJAX `save` is left out. It is network I/O.
- The `ldrOptions` listener, `showOrHide` and `toggleEnabled` are left out. They are global UI state.
- `makeRel`, `makeAbs`, `setXYZ` and the ±90 buttons are left out. They parse strings and do floating-point arithmetic on rotations, so only rotation equality and copying are modelled.
- `stepHandler.updateRotations()`, which `propagate` calls, is not part of this model. Neither are `rebuild`, `moveSteps`, `getCurrentStepInfo`, `getCurrentStepIndex`, `getCurrentStepHandler`, `totalNumberOfSteps`, `isEmpty`, `containsNonPartSubModels`, `isPart` and `toLDR`. They are parameters or fixed readings, as described above.
- `js/LDRButtons.js` and `js/LDRPLIPreview.js` are not part of this model. They hold DOM buttons, timers, WebGL camera control and floating-point zoom.
- Console logging is left out.
- StepEditors.StepEditor.Propagate: the rotation shown at the cursor (`this.step.rotation`) is a field that `updateCurrentStep` sets. The model does not assume it equals the stored rotation of the step at the cursor. The step at the cursor is the part type's own step (`this.step.original`).
- StepEditors.StepEditor.MakeNormal: the source reads `self.part.steps[stepIndex-1].original.rotation`, where `self.part` is the part type that `getCurrentStepInfo` reports. The model reads the rotation of that part type's step `stepIndex - 1` and takes the step's `.original` to be the step itself, as it does for `this.step.original`.
- StepEditors.Buttons: the placements of the step on screen are taken to be those of the part type's step at the cursor, one for one.
- Registry.Loader.PurgePart: requires an acyclic registry. The source has no cycle guard and would recurse forever on a cycle. The ghost ranking inside `Loader.Valid` makes the recursion terminate.
- Registry.Loader.PurgePart: leaves `fileLines` untouched, as the source does. A purged step's lines may then still mention the purged placements.
- StepHandlers.StepHandler.Remove: merge-left does not move the current step's file lines, as in the source (see `Edits.RemoveMirrored`).
- StepHandlers.StepHandler.Remove: after a purge the emptied part type stays registered with no steps, as in the source.
- StepHandlers.StepHandler.Remove: `countUsages` is computed once, before the step list changes. The handler tree (`tree`) is not rebuilt by the edit, so the value is the same as when the source computes it later.
- StepHandlers.StepHandler.MoveToNewSubModel: requires `newID` not to be registered yet. The source would overwrite such an entry. Its only caller passes the result of `generateNextID`, which `StepEditors.StepEditor.GenerateNextID` proves is unregistered.
- StepHandlers.StepHandler.MoveToNewSubModel: the source assigns the drop step's `fileLines` a single `LDR.Line1` object rather than a list. The model gives the drop step the one-line list `[Line1(pd)]`.
- StepHandlers.StepHandler.MoveToNewSubModel: the new part type is registered once, with its steps already filled in. The source registers the same object first and fills it afterwards, which no reader in between can observe.
- StepHandlers.StepHandler.MoveToNewSubModel: the new drop placement is returned as a ghost out-parameter so that the contract can name it.
- StepHandlers.StepHandler.constructor: the handler tree (`tree`) is fixed when the object is made. Every edit ends with `rebuild()`, which replaces the tree, and `rebuild` is not part of this model. One `StepHandler` object therefore stands for the handler between two rebuilds. An edit after a rebuild is an edit on a `StepHandler` made with the rebuilt tree.
- StepHandlers.CursorValid: nothing ties the cursor an edit is given to the handler tree (`tree`) that `countUsages` walks. The source takes both from the same root handler. The model assumes the caller passes the cursor reached by descending `tree` through the current steps, as `getCurrentStepInfo` does.
- StepHandlers.StepHandler.MoveNext: the ghost case is modelled as written. When the skipped step is the last one, or the step after it places a sub-model, the new step is inserted at `current + 1`, but the ghosted placements still go to `current + 2`, which is the skipped step. See `Edits.MoveNextGhostTarget`.
- StepHandlers.StepHandler.MovePrev: the test `prevStepIdx === part.steps.length` can never hold. When `current - 2` is `-1`, the source reads `steps[-1]` and throws a TypeError. The model ends with `Outcome.Threw` and leaves the registry unchanged, as the throw happens before any write.
