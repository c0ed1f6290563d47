# Bridge builder: verified model of the test session, materials, UI and load dropper

This project models the core of a VR bridge-building game built on the
Wonderland Engine. The player places build pieces under a bridge root,
grabs and moves them with a controller, chooses a material for each piece,
and then starts a test:

1. Every build piece that has a runtime variant is swapped for a
   physics-enabled clone.
2. After a settle delay, a load (passenger, car, truck or plane) is dropped
   from a drop point.
3. The session ends when the bridge collapses or a time limit passes.
4. The session is graded on how many pieces remain: Excellent, Good,
   Partial, Poor or Failure.

The model is written in Dafny, one module per concept:

| module | file | models |
|---|---|---|
| `Scene` | `scene.dfy` | engine objects: poses, user data, build/runtime pieces, the spawner's template table, mesh trees |
| `Structure` | `structure.dfy` | the bridge root's children and the build-to-runtime swap of `startSimulation` |
| `Outcome` | `outcome.dfy` | survival rate, the five tiers, the per-type breakdown |
| `LoadDropping` | `load_dropper.dfy` | `load-dropper.js` |
| `Simulation` | `simulation.dfy` | `simulation-controller.js` |
| `Grabbing` | `grabbing.dfy` | `grabbable-bridge-block.js` |
| `Materials` | `materials.dfy` | `material-manager.js` |
| `Ui` | `ui.dfy` | `ui-manager.js` |

Components whose fields are updated in place are classes:
`SimulationController`, `BridgeRoot`, `LoadDropper`,
`GrabbableBridgeBlock`, `MaterialManager`, `UiManager` and `Object3D`.
Their methods state the new state in full, except where a line under
"Left out" says otherwise. The pure parts are functions
with lemmas beside them:

- the swap's result;
- tiers;
- the breakdown;
- material-name resolution;
- drop height and position.

Modelling conventions:

- **Children of the root.** `BridgeRoot.children` is the sequence of
  pieces under the root. `destroy()` removes a piece from that sequence
  (`BridgeRoot.Destroy`). `clone(bridgeRoot)` appends a new piece carrying
  the next fresh id (`BridgeRoot.CloneUnder`). The root's invariant is
  that ids are distinct and below `nextId`.
- **Clock.** `Date.now()` is a parameter `now`, in milliseconds.
- **Unshown engine calls.** `spawnGhost` and `placeBuild` are never
  executed by the model. Their results are parameters.
- **Undefined values.** JavaScript `undefined`/`null` fields are `Option`
  values. A falsy string is the empty string.
- **Numbers.** Positions and rates are exact reals.

## The asynchronous start, as written

`startSimulation` is an `async` method. It is split at its `await`:

- `SimulationController.StartSimulation` is the part that runs
  immediately: the guards, the snapshot and the swap.
- `SimulationController.ResumeAfterSettle` is the continuation after the
  settle delay: the load drop, `isRunning := true`, and the start time.

The `isRunning` guard at the top of `startSimulation` reads as protection
against a second start, but the flag is set only in the continuation, so:

- A second start issued during the settle delay is not rejected. It takes
  a new snapshot and swaps again: `StartDuringSettleIsNotRejected`.
- Clones copy the user data, including `buildIndex`, so they are
  replaceable again, and a second start swaps them once more.
- A `stopSimulation` issued during the delay does not cancel the drop.
  The session starts running when the continuation resumes:
  `StopDuringSettleDoesNotCancelDrop`.
- A missing load dropper is not fatal. The continuation only warns, and
  the session still starts running without a load.

A second start that finds the root empty sets `initialComponentCount` to
0 before it returns. A pending first continuation then runs a session that
`evaluateResults` grades Failure (`Outcome.NoInitialPiecesIsFailure`).
With the code as written this can only happen if the root was emptied
during the delay.

## Model

| member | source | states |
|---|---|---|
| Scene.Spawner.GetRuntimeTemplate | simulation-controller.js:81-83 | a runtime template is found exactly for the build indices the spawner has one for, and it is that template |
| Structure.BridgeRoot.CloneUnder | simulation-controller.js:89-94 | `clone(bridgeRoot)` appends one new live runtime piece with the next fresh id, the given pose and the copied user data, and advances the fresh id |
| Structure.BridgeRoot.Destroy | simulation-controller.js:97 | `destroy()` removes exactly the pieces with that id from the root's children |
| Structure.RemoveId | simulation-controller.js:97 | the children left after `destroy()` of one piece: no more than before, and none with that id |
| Structure.RemoveIdKeepsOthers | simulation-controller.js:97 | a piece is still a child after `destroy()` of an id exactly when it was a child and has another id |
| Structure.Counterpart | simulation-controller.js:85-94 | a clone is live, is a runtime piece of the template found for the build index, and has the original's world pose and a copy of its user data |
| Structure.Replaceable | simulation-controller.js:77-83 | the swap replaces exactly the pieces that are not destroyed, carry a `buildIndex`, and have a runtime template for it |
| Structure.Replaced | simulation-controller.js:76-83 | the replaced pieces, in snapshot order, no more of them than the snapshot has; which pieces they are is `SnapshotPartition` |
| Structure.Kept | simulation-controller.js:76-83 | the pieces left in place, in snapshot order, no more of them than the snapshot has; which pieces they are is `SnapshotPartition` |
| Structure.Clones | simulation-controller.js:85-98 | the clones appended by the loop are live runtime pieces numbered consecutively from the root's next fresh id, at most one per snapshot piece |
| Structure.Swapped | simulation-controller.js:73-99 | the children after the swap: the kept pieces in their order, followed by the clones in the order they were made (properties: `SwapTracesBack`, `SwapKeepsCount`, `SwapKeepsRootValid`) |
| Structure.SnapshotPartition | simulation-controller.js:76-83 | every piece of the snapshot is either replaced (live, has a `buildIndex`, and a template is found) or kept, never both; the two parts together are the snapshot, as a multiset |
| Structure.ClonesTraceBack | simulation-controller.js:76-98 | the j-th clone is the counterpart of the j-th replaced piece, with id `firstId + j` |
| Structure.SwapKeepsCount | simulation-controller.js:76-98 | the swap replaces pieces one for one: the child count is unchanged and at most all pieces are replaced |
| Structure.SwapTracesBack | simulation-controller.js:76-98 | after the swap, every child is either an untouched non-replaceable original or the counterpart of a replaced original, and no clone reuses an id from the snapshot |
| Structure.SwapLeavesOthersUntouched | simulation-controller.js:77-83 | a destroyed piece, a piece without `buildIndex`, or one without a runtime template stays under the root unchanged |
| Structure.SwapKeepsRootValid | simulation-controller.js:76-98 | the swap keeps the children's ids distinct and below the next fresh id |
| Structure.KeptDistinct | simulation-controller.js:76-98 | the pieces that stay keep distinct ids |
| Structure.SwapToRuntime | simulation-controller.js:73-99 | the loop over the snapshot leaves exactly the swapped children, and `replacedCount` is the number of clones made |
| Simulation.StandingCountZero | simulation-controller.js:180-188 | no piece is standing exactly when the standing count is 0 |
| Simulation.Standing | simulation-controller.js:177-186 | a child stands when it is not destroyed and its world height is above the collapse height -5 |
| Simulation.StandingCount | simulation-controller.js:178-186 | the number of standing children the loop counts (property: `StandingCountZero`) |
| Simulation.ElapsedSeconds | simulation-controller.js:144 | the elapsed seconds are the clock difference in milliseconds over 1000, and not negative when the clock has not gone back |
| Simulation.SimulationController.constructor | simulation-controller.js:7-21 | `init`: the configured collaborators, a settle delay of 0.3 s and a check duration of 8 s by default; not running, start time 0, no load, initial count 0; the controller starts valid |
| Simulation.SimulationController.StartSimulation | simulation-controller.js:31-113 | the load kind defaults to 'car'; the guards in order (already running, no root, no spawner, no components); an early return changes nothing but the initial count; otherwise children become the swap of the snapshot, the initial count is the snapshot's size, and the session is not yet running |
| Simulation.SimulationController.ResumeAfterSettle | simulation-controller.js:121-135 | the load is the dropper's `dropLoad(kind)` when a dropper exists (otherwise the old load stays), and the session runs from `now` |
| Simulation.SimulationController.Update | simulation-controller.js:141-164 | a stopped session does nothing; collapse ends the session before the timer does; the time limit is strict; an ending tick returns the current evaluation |
| Simulation.SimulationController.IsBridgeCompletelyCollapsed | simulation-controller.js:169-189 | true exactly when there is no root, no child, or no child is live and above height -5 |
| Simulation.SimulationController.EvaluateResults | simulation-controller.js:191-238 | a missing root is a Failure with no breakdown; otherwise the tier of current children over initial count, and the per-type breakdown |
| Simulation.SimulationController.LogBridgeStatus | simulation-controller.js:240-256 | the dictionary holds, for every type, the number of live pieces of that type, and its counts add up to the live pieces |
| Simulation.SimulationController.StopSimulation | simulation-controller.js:278-281 | only `isRunning` is cleared |
| Simulation.SimulationController.GetSimulationStatus | simulation-controller.js:284-297 | the status reports the running flag, the elapsed seconds (0 when stopped), the child count (0 without a root) and the initial count |
| Simulation.StartDuringSettleIsNotRejected | simulation-controller.js:31-64 | a second start during the settle delay is accepted and records the same initial count |
| Simulation.StopDuringSettleDoesNotCancelDrop | simulation-controller.js:119-132 | a stop during the delay is overridden by the continuation: the load drops and the session runs |
| Simulation.EndedSessionEvaluatesOnce | simulation-controller.js:141-164 | a session that ended on one tick yields nothing on the next |
| Simulation.StopIsIdempotent | simulation-controller.js:278-281 | stopping twice is stopping once |
| Outcome.SurvivalRate | simulation-controller.js:203-208 | the rate times the initial count is the remaining count, and 0 when the session started empty |
| Outcome.TierFor | simulation-controller.js:219-235 | each tier is exactly its band of survival rates, with inclusive lower bounds 0.8, 0.6, 0.4, 0.2 |
| Outcome.TierMonotone | simulation-controller.js:219-235 | a higher survival rate never gives a worse tier |
| Outcome.RateAtLeast | simulation-controller.js:203-208 | comparing the rate with k/5 is comparing 5 * remaining with k * initial |
| Outcome.TierMatchesCounts | simulation-controller.js:203-235 | the tier computed from the real rate equals an integer cross-multiplication reference |
| Outcome.TierOf | simulation-controller.js:198-235 | the tier of a session as a function of the remaining and initial counts (properties: `TierMatchesCounts`, `TierMonotoneInRemaining`, `NoInitialPiecesIsFailure`) |
| Outcome.TierMonotoneInRemaining | simulation-controller.js:203-235 | with the initial count fixed, more remaining pieces never give a worse tier |
| Outcome.NoInitialPiecesIsFailure | simulation-controller.js:204-208 | a session with initial count 0 is graded Failure |
| Outcome.BoundaryRates | simulation-controller.js:220-235 | exactly 80%, 60%, 40% and 20% fall in the better tier |
| Outcome.TypeName | simulation-controller.js:251 | a piece's type is its component type when one is set and non-empty, 'Unknown' otherwise, and never empty |
| Outcome.Tally | simulation-controller.js:252 | tallying adds exactly that type's key |
| Outcome.TypeCounts | simulation-controller.js:243-253 | the dictionary the breakdown loop builds; every listed type is non-empty and has a positive count (per-type and total counts: `TypeCountsPerType`, `TypeCountsTotal`) |
| Outcome.TotalRemove | simulation-controller.js:243-253 | the total of a dictionary splits into any one entry plus the rest |
| Outcome.TotalTally | simulation-controller.js:252 | one tally adds exactly 1 to the total |
| Outcome.TypeCountsTotal | simulation-controller.js:243-253 | the breakdown's counts sum to the number of live pieces |
| Outcome.TypeCountsPerType | simulation-controller.js:243-253 | the breakdown's count for a type is the number of live pieces of that type, and a type is listed exactly when some live piece has it |
| LoadDropping.TemplateTable | load-dropper.js:15-25 | the table has keys only among passenger, car, truck, plane, and a key exactly when that template is assigned |
| LoadDropping.HeightOffset | load-dropper.js:43 | the custom height whenever one is given, the drop height otherwise |
| LoadDropping.SpawnPosition | load-dropper.js:44-45 | the spawn point is the drop point raised by the offset, with x and z unchanged |
| LoadDropping.ClampDropHeight | load-dropper.js:64 | `max(0.5, height)`: never below 0.5, and the height itself from 0.5 up |
| LoadDropping.LoadDropper.constructor | load-dropper.js:6-13 | the configured drop point, templates and drop height (3.0 by default), with no template table until `start` |
| LoadDropping.LoadDropper.Start | load-dropper.js:15-25 | the template table is built from the four assigned templates |
| LoadDropping.LoadDropper.DropLoad | load-dropper.js:30-60 | no load without a template for the kind or without a drop point; otherwise an active load of that kind's template at the spawn position |
| LoadDropping.LoadDropper.SetDropHeight | load-dropper.js:63-66 | the drop height becomes the clamped height |
| LoadDropping.OnlyKnownKindsDrop | load-dropper.js:16-21 | only passenger, car, truck and plane loads can ever be dropped |
| LoadDropping.ZeroCustomHeightIsHonoured | load-dropper.js:43 | a custom height of 0 is used as 0, below the 0.5 clamp, not replaced by the drop height |
| Grabbing.GrabbableBridgeBlock.constructor | grabbable-bridge-block.js:21-29 | `init`: not grabbed, following nothing, button not pressed |
| Grabbing.GrabbableBridgeBlock.Valid | grabbable-bridge-block.js:81-84 | the grab invariant kept by every method: grabbed exactly when there is a followed object, exactly when there is a grab input, and a grabbed block has seen the button pressed (also lines 121-127, 138-143) |
| Grabbing.GrabbableBridgeBlock.OnDown | grabbable-bridge-block.js:55-98 | no hit object or no input component changes nothing; otherwise the grab starts and the block snaps to the hit object's pose |
| Grabbing.GrabbableBridgeBlock.Update | grabbable-bridge-block.js:103-136 | an ungrabbed block does nothing; lost button data drops it; a release edge drops it without moving; a held button makes it follow the hit object |
| Grabbing.GrabbableBridgeBlock.StopGrab | grabbable-bridge-block.js:138-143 | every grab field is reset and the pose stays |
| Grabbing.GrabHoldRelease | grabbable-bridge-block.js:55-143 | grab, hold and release leaves the block ungrabbed where it was held |
| Materials.SettingsTable | material-manager.js:22-51 | the five entries concrete, steel, timber, ghostConcrete, ghostSteel |
| Materials.OrConcrete | material-manager.js:12 | a non-empty name is kept; an empty one becomes concrete |
| Materials.BaseName | material-manager.js:70-74 | the base name is never empty and is one of the material name, the selection, the default, or concrete |
| Materials.BaseNameIsFirstTruthy | material-manager.js:70-74 | the base name is the first non-empty value of the fallback chain |
| Materials.Capitalize | material-manager.js:77 | same length, first character upper-cased, the rest unchanged |
| Materials.FullName | material-manager.js:78 | a ghost's key is 'ghost' followed by the capitalized base name; a non-ghost's is the base name |
| Materials.ResolveSettings | material-manager.js:80-83 | settings exist exactly when the full name, the base name or concrete is in the table, and the first of them present is used |
| Materials.MaterialManager.SettingsFor | material-manager.js:70-83 | the settings `applyMaterialToInstance` would use: always found once `start` has filled the table, and always one of the table's entries |
| Materials.MaterialManager.MaterialWritten | material-manager.js:86-140 | what a successful application writes: the subtree recoloured with the resolved colour, a bridge block's material, density and capacity, and the user data's material name and ghost flag |
| Materials.ResolutionAlwaysDefined | material-manager.js:80-83 | once the table holds concrete, every material resolves |
| Materials.GhostNames | material-manager.js:77-78 | steel, concrete and timber ghosts look up ghostSteel, ghostConcrete and ghostTimber |
| Materials.TableResolutions | material-manager.js:22-51 | with the started table, a steel ghost gets ghostSteel, a timber ghost falls back to timber, and an unknown name falls back to concrete |
| Materials.RecolorMesh | material-manager.js:150-153 | a mesh whose material has a base colour gets the new colour; any other mesh is unchanged |
| Materials.RecoloredIsColored | material-manager.js:144-175 | after the recursive colour pass, every coloured mesh in the subtree carries the new colour |
| Materials.RecolorIdempotent | material-manager.js:144-175 | applying the same colour a second time changes nothing |
| Materials.ApplyColorRecursive | material-manager.js:144-175 | no object or no colour does nothing; otherwise every mesh of every node of the subtree is recoloured, the tree shape is kept, and every node is visited once |
| Materials.MaterialManager.constructor | material-manager.js:11-14 | `init`: the default selection or concrete, and an empty table |
| Materials.MaterialManager.Start | material-manager.js:16-51 | the selection resets to the default and the table is filled |
| Materials.MaterialManager.SelectMaterial | material-manager.js:54-58 | an empty name is ignored; any other is selected |
| Materials.MaterialManager.ApplyMaterialToInstance | material-manager.js:67-141 | a null root is a no-op; no settings (empty table) throws before any write; otherwise the subtree is recoloured, a bridge block gets the base name, density and capacity, and user data records the base name and ghost flag |
| Materials.MaterialManager.ApplyColorToInstance | material-manager.js:178-181 | no root or no colour does nothing; otherwise only the subtree's colours change |
| Ui.PreviewPosition | ui-manager.js:120 | the given position, else the last one |
| Ui.PreviewRotation | ui-manager.js:121 | the given rotation, else the last one, else the identity rotation |
| Ui.UiManager.constructor | ui-manager.js:12-23 | `init`: component 0, concrete, no collaborators, no ghost, no last pose |
| Ui.UiManager.Valid | ui-manager.js:120-143 | the invariant every method keeps: a last preview position always comes with a last rotation, the selected material is never empty, and every spawned ghost other than the current one is destroyed (also lines 183-196) |
| Ui.UiManager.Start | ui-manager.js:25-67 | the collaborators are recorded and the default material (or concrete) is selected and forwarded |
| Ui.UiManager.PreviewSelectedComponent | ui-manager.js:110-144 | no spawner, or no position and no last position, is a no-op; otherwise the pose used is stored as the last pose; a missing or destroyed ghost is replaced by the newly spawned one, which gets the ghost material (recoloured subtree, bridge block, user data) or throws when the table is empty; a live ghost is only moved, its subtree, bridge block and user data unchanged |
| Ui.UiManager.SelectComponent | ui-manager.js:70-83 | the index is always set; only when a last position exists is the preview refreshed at the last pose, with the same ghost outcomes as the preview |
| Ui.UiManager.SelectMaterial | ui-manager.js:86-104 | an empty name changes nothing; otherwise it is selected and forwarded, and a live ghost takes the material (recoloured subtree, bridge block, user data) or the application throws when the table is empty; a missing or destroyed ghost is untouched |
| Ui.UiManager.PlaceSelectedComponent | ui-manager.js:150-178 | null without a spawner; otherwise the placed piece, carrying the selected material as a non-ghost (recoloured subtree, bridge block, user data) at an unchanged pose; a throw from an empty table returns nothing |
| Ui.UiManager.ClearAllComponents | ui-manager.js:183-196 | a live ghost is destroyed and otherwise left as it was (pose, tree, bridge block, user data); ghost and last pose are cleared, index and material stay |
| Ui.UiManager.StartTest | ui-manager.js:198-209 | nothing without a simulation controller; otherwise the controller's start with the kind, 'car' by default |
| Ui.UiManager.AtMostOneLiveGhost | ui-manager.js:126-143 | of all ghosts ever spawned, at most one, the current one, is alive |
| Ui.PreviewClearPreview | ui-manager.js:110-196 | preview, clear, preview again destroys the first ghost and shows a new one at the last identity-rotated pose |
| Ui.SelectSteelRecolorsGhost | ui-manager.js:86-101 | with the started table, selecting steel recolours every coloured mesh of a live ghost with the ghost-steel colour |

## Left out

- Engine I/O is not modelled: logging, `getComponent` lookups (their results are constructor
  or `Start` parameters), `setTranslationWorld`/`setRotationWorld` beyond the pose they set.
- The `active` flag of the runtime clones is not modelled. Physics, rigid bodies and the mass
  update in `applyMaterialToInstance` are not modelled either.
- `setTimeout` and the settle delay: the model does not enforce that the continuation runs
  `settleDelay` seconds later. It is a separate call. The `try`/`catch` around
  `startSimulation` is not modelled: no statement in the modelled part throws.
- `collectTargetsNow` on the failure detector is not modelled. The failure detector,
  bridge-block and build-placement-controller are not part of this model. Nor are the
  component spawner's internals.
- The `trigger*Effects` hooks are empty in the code and are left out.
- Floating point: positions, rates and heights are exact reals. NaN inputs (for example to
  `Math.max`) and rounding are not modelled; the rounded percentage is not modelled because
  it is only logged.
- `Materials.Capitalize`: `toUpperCase` is modelled for ASCII letters only.
- The colour array is shared between meshes in the code; after recolouring, the model compares
  values only.
- `Materials.MaterialManager.ApplyMaterialToInstance`: the code's lookup would also find keys
  inherited from `Object.prototype` (such as `constructor`). Then `settings.color` is
  undefined and no colour is applied. The model looks only at the table's own keys.
- The same prototype-key quirk applies to the breakdown dictionary in `logBridgeStatus`. The
  model counts every type name as an ordinary key.
- `Scene.UserData`: a `buildIndex` of `null` (as opposed to undefined) is treated as absent.
  The code would pass it to `getRuntimeTemplate`.
- The controller's children are pieces (`Scene.Piece`). The UI's ghosts and placed pieces are
  engine objects (`Scene.Object3D`). The model does not connect the two views.
- The spawner's `clearGhost` call in `clearAllComponents` is left out: its code is not part of
  this model.
- `onDestroy` and `start` of the grabbable block only register and unregister the cursor
  callback. They are left out.
- `index.js`, `select-component-button.js` and `start-test-button.js` only register
  components and forward clicks, and are left out.
- `Ui.UiManager.StartTest`: its contract repeats only the start's first guard and the
  recorded count. The rest follows from `StartSimulation`.
- `LoadDropping.LoadDropper.DropLoad`: the drop point's world position is fixed when the
  dropper is built. The code reads the drop point object's position at each drop, so a
  drop point that moves is not modelled.
- `Ui.UiManager.PreviewSelectedComponent`: the pose of a newly spawned ghost is the
  spawner's doing and is not stated.
