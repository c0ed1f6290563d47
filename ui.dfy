/**
  The build UI (`ui-manager.js`): the selected component and material, the
  preview ghost and its last pose, placing a real piece, clearing the
  preview, and starting a test.

  The component spawner's `spawnGhost` and `placeBuild` are engine calls
  whose code is not part of this model: their results arrive as
  parameters (`spawned`, `placed`).
 */
module Ui {
  import opened Scene
  import opened Materials
  import opened Simulation

  /** `position || lastPreviewPosition`. */
  function PreviewPosition(position: Option<Vec3>, last: Option<Vec3>): (p: Option<Vec3>)
    ensures p.Some? <==> position.Some? || last.Some?
    ensures position.Some? ==> p == position
    ensures position.None? ==> p == last
  {
    if position.Some? then position else last
  }

  /** `rotation || lastPreviewRotation || [0, 0, 0, 1]`. */
  function PreviewRotation(rotation: Option<Quat>, last: Option<Quat>): (q: Quat)
    ensures rotation.Some? ==> q == rotation.value
    ensures rotation.None? && last.Some? ==> q == last.value
    ensures rotation.None? && last.None? ==> q == IdentityRotation
  {
    if rotation.Some? then rotation.value else last.GetOr(IdentityRotation)
  }

  class UiManager {
    /** The `component-spawner` found in `start`, if any. */
    var spawnerComp: Option<Spawner>
    var simControllerComp: SimulationController?
    var materialManager: MaterialManager?

    var selectedComponentIndex: int
    var selectedMaterial: string

    var currentGhost: Object3D?
    var lastPreviewPosition: Option<Vec3>
    var lastPreviewRotation: Option<Quat>

    /** Every ghost this manager has been handed by the spawner. */
    ghost var ghosts: set<Object3D>

    /**
      The selected material is never empty; a last preview position always
      comes with a last rotation; and every ghost other than the current one
      is destroyed.
     */
    ghost predicate Valid()
      reads this, ghosts
    {
      && selectedMaterial != ""
      && (lastPreviewPosition.Some? <==> lastPreviewRotation.Some?)
      && (currentGhost != null ==> currentGhost in ghosts)
      && (forall g :: g in ghosts && g != currentGhost ==> g.destroyed)
    }

    /** `init`: component 0, concrete, no collaborators, no ghost, no last pose. */
    constructor ()
      ensures Valid()
      ensures spawnerComp.None? && simControllerComp == null && materialManager == null
      ensures selectedComponentIndex == 0 && selectedMaterial == Concrete
      ensures currentGhost == null && lastPreviewPosition.None? && lastPreviewRotation.None?
      ensures ghosts == {}
    {
      spawnerComp := None;
      simControllerComp := null;
      materialManager := null;
      selectedComponentIndex := 0;
      selectedMaterial := Concrete;
      currentGhost := null;
      lastPreviewPosition := None;
      lastPreviewRotation := None;
      ghosts := {};
    }

    /**
      `start`: records the collaborators found on the configured objects
      and selects the default material, forwarding it to the material
      manager.
     */
    method Start(spawner: Option<Spawner>, simController: SimulationController?,
                 manager: MaterialManager?, materialSelectionDefault: string)
      requires Valid()
      modifies this, manager
      ensures Valid()
      ensures spawnerComp == spawner && simControllerComp == simController && materialManager == manager
      ensures selectedMaterial == OrConcrete(materialSelectionDefault)
      ensures manager != null ==> manager.selectedMaterial == selectedMaterial &&
                                  manager.materialSettings == old(manager.materialSettings)
      ensures selectedComponentIndex == old(selectedComponentIndex) && currentGhost == old(currentGhost)
      ensures lastPreviewPosition == old(lastPreviewPosition) && lastPreviewRotation == old(lastPreviewRotation)
      ensures ghosts == old(ghosts)
    {
      spawnerComp := spawner;
      simControllerComp := simController;
      materialManager := manager;
      selectedMaterial := OrConcrete(materialSelectionDefault);
      if materialManager != null {
        materialManager.SelectMaterial(selectedMaterial);
      }
    }

    /**
      `previewSelectedComponent(position, rotation)`. `spawned` is what
      `spawnGhost(selectedComponentIndex, pos, rot)` returns, used only when
      a new ghost is needed. `threw` is true when applying the ghost material
      to the new ghost throws (the material table is still empty); the
      exception leaves the handler after the ghost has been recorded.
     */
    method PreviewSelectedComponent(position: Option<Vec3>, rotation: Option<Quat>, spawned: Object3D?)
      returns (threw: bool)
      requires Valid()
      requires spawned != null ==> spawned !in ghosts && !spawned.destroyed
      modifies this, currentGhost, spawned
      ensures Valid()
      ensures spawnerComp == old(spawnerComp) && simControllerComp == old(simControllerComp)
      ensures materialManager == old(materialManager)
      ensures selectedComponentIndex == old(selectedComponentIndex) && selectedMaterial == old(selectedMaterial)
      ensures spawned != null ==> !spawned.destroyed && spawned.pose == old(spawned.pose)
      // No spawner, or no position to use: nothing changes.
      ensures spawnerComp.None? || (position.None? && old(lastPreviewPosition).None?) ==>
              && !threw && unchanged(this)
              && (old(currentGhost) != null ==> unchanged(old(currentGhost)))
              && (spawned != null ==> unchanged(spawned))
      // Otherwise the pose used becomes the last preview pose...
      ensures spawnerComp.Some? && (position.Some? || old(lastPreviewPosition).Some?) ==>
              && lastPreviewPosition == PreviewPosition(position, old(lastPreviewPosition))
              && lastPreviewRotation == Some(PreviewRotation(rotation, old(lastPreviewRotation)))
      // ...a missing or destroyed ghost is replaced by the spawned one, carrying the ghost material...
      ensures spawnerComp.Some? && (position.Some? || old(lastPreviewPosition).Some?) &&
              (old(currentGhost) == null || old(currentGhost.destroyed)) ==>
              && currentGhost == spawned
              && ghosts == old(ghosts) + (if spawned != null then {spawned} else {})
              && (old(currentGhost) != null ==> unchanged(old(currentGhost)))
              && (threw <==> spawned != null && materialManager != null &&
                             materialManager.SettingsFor(selectedMaterial, true).None?)
              && (spawned != null && materialManager != null && !threw ==>
                    materialManager.MaterialWritten(spawned, old(spawned.tree), old(spawned.bridgeBlock),
                                                    old(spawned.userData), selectedMaterial, true))
              && (spawned != null && (materialManager == null || threw) ==> unchanged(spawned))
      // ...and a live ghost is moved to the new pose and nothing else about it changes.
      ensures spawnerComp.Some? && (position.Some? || old(lastPreviewPosition).Some?) &&
              old(currentGhost) != null && !old(currentGhost.destroyed) ==>
              && !threw
              && currentGhost == old(currentGhost) && ghosts == old(ghosts)
              && currentGhost.pose == Pose(PreviewPosition(position, old(lastPreviewPosition)).value,
                                           PreviewRotation(rotation, old(lastPreviewRotation)))
              && !currentGhost.destroyed
              && currentGhost.tree == old(currentGhost.tree)
              && currentGhost.bridgeBlock == old(currentGhost.bridgeBlock)
              && currentGhost.userData == old(currentGhost.userData)
              && (spawned != null ==> unchanged(spawned))
    {
      threw := false;
      if spawnerComp.None? {
        return;
      }
      if position.None? && lastPreviewPosition.None? {
        return;
      }
      var pos := PreviewPosition(position, lastPreviewPosition).value;
      var rot := PreviewRotation(rotation, lastPreviewRotation);
      lastPreviewPosition := Some(pos);
      lastPreviewRotation := Some(rot);
      if currentGhost == null || currentGhost.destroyed {
        currentGhost := spawned;
        if spawned != null {
          ghosts := ghosts + {spawned};
        }
        if currentGhost != null && materialManager != null {
          var applied := materialManager.ApplyMaterialToInstance(currentGhost, selectedMaterial, true);
          threw := !applied;
        }
      } else {
        currentGhost.pose := Pose(pos, rot);
      }
    }

    /**
      `selectComponent(index)`: the index is always recorded; the preview is
      refreshed at the last preview pose when there is one. `threw` is the
      refreshed preview's.
     */
    method SelectComponent(index: int, spawned: Object3D?) returns (threw: bool)
      requires Valid()
      requires spawned != null ==> spawned !in ghosts && !spawned.destroyed
      modifies this, currentGhost, spawned
      ensures Valid()
      ensures selectedComponentIndex == index && selectedMaterial == old(selectedMaterial)
      ensures spawnerComp == old(spawnerComp) && simControllerComp == old(simControllerComp)
      ensures materialManager == old(materialManager)
      ensures lastPreviewPosition == old(lastPreviewPosition) && lastPreviewRotation == old(lastPreviewRotation)
      ensures spawned != null ==> !spawned.destroyed && spawned.pose == old(spawned.pose)
      // No last preview position (or no spawner): only the index changes.
      ensures old(lastPreviewPosition).None? || spawnerComp.None? ==>
              && !threw && currentGhost == old(currentGhost) && ghosts == old(ghosts)
              && (old(currentGhost) != null ==> unchanged(old(currentGhost)))
              && (spawned != null ==> unchanged(spawned))
      // A missing or destroyed ghost is replaced by the spawned one, carrying the ghost material.
      ensures old(lastPreviewPosition).Some? && spawnerComp.Some? &&
              (old(currentGhost) == null || old(currentGhost.destroyed)) ==>
              && currentGhost == spawned
              && ghosts == old(ghosts) + (if spawned != null then {spawned} else {})
              && (old(currentGhost) != null ==> unchanged(old(currentGhost)))
              && (threw <==> spawned != null && materialManager != null &&
                             materialManager.SettingsFor(selectedMaterial, true).None?)
              && (spawned != null && materialManager != null && !threw ==>
                    materialManager.MaterialWritten(spawned, old(spawned.tree), old(spawned.bridgeBlock),
                                                    old(spawned.userData), selectedMaterial, true))
              && (spawned != null && (materialManager == null || threw) ==> unchanged(spawned))
      // A live ghost is moved to the last preview pose and nothing else about it changes.
      ensures old(lastPreviewPosition).Some? && spawnerComp.Some? &&
              old(currentGhost) != null && !old(currentGhost.destroyed) ==>
              && !threw
              && currentGhost == old(currentGhost) && ghosts == old(ghosts)
              && currentGhost.pose == Pose(old(lastPreviewPosition).value, old(lastPreviewRotation).value)
              && !currentGhost.destroyed
              && currentGhost.tree == old(currentGhost.tree)
              && currentGhost.bridgeBlock == old(currentGhost.bridgeBlock)
              && currentGhost.userData == old(currentGhost.userData)
              && (spawned != null ==> unchanged(spawned))
    {
      selectedComponentIndex := index;
      threw := false;
      if lastPreviewPosition.Some? {
        threw := PreviewSelectedComponent(lastPreviewPosition, lastPreviewRotation, spawned);
      }
    }

    /**
      `selectMaterial(name)`: an empty name is ignored; otherwise the name is
      selected, forwarded to the material manager, and applied to a live
      ghost. `threw` is true when that application throws (the material
      table is still empty).
     */
    method SelectMaterial(name: string) returns (threw: bool)
      requires Valid()
      modifies this, materialManager, currentGhost
      ensures Valid()
      ensures currentGhost == old(currentGhost) && ghosts == old(ghosts)
      ensures currentGhost != null ==> currentGhost.destroyed == old(currentGhost.destroyed) &&
                                       currentGhost.pose == old(currentGhost.pose)
      ensures selectedComponentIndex == old(selectedComponentIndex)
      ensures lastPreviewPosition == old(lastPreviewPosition) && lastPreviewRotation == old(lastPreviewRotation)
      ensures spawnerComp == old(spawnerComp) && simControllerComp == old(simControllerComp)
      ensures materialManager == old(materialManager)
      ensures name == "" ==>
              !threw && unchanged(this) && (materialManager != null ==> unchanged(materialManager)) &&
              (currentGhost != null ==> unchanged(currentGhost))
      ensures name != "" ==> selectedMaterial == name
      ensures name != "" && materialManager != null ==>
              materialManager.selectedMaterial == name &&
              materialManager.materialSettings == old(materialManager.materialSettings)
      ensures threw <==> name != "" && materialManager != null && currentGhost != null && !currentGhost.destroyed &&
                         materialManager.SettingsFor(name, true).None?
      // A live ghost takes the new material...
      ensures name != "" && materialManager != null && currentGhost != null && !currentGhost.destroyed && !threw ==>
              && materialManager.MaterialWritten(currentGhost, old(currentGhost.tree), old(currentGhost.bridgeBlock),
                                                 old(currentGhost.userData), name, true)
              && currentGhost.userData.Some?
              && currentGhost.userData.value.materialName == Some(name)
              && currentGhost.userData.value.isGhost == Some(true)
      // ...and is otherwise left alone.
      ensures currentGhost != null && (materialManager == null || currentGhost.destroyed || threw) ==>
              unchanged(currentGhost)
    {
      threw := false;
      if name == "" {
        return;
      }
      selectedMaterial := name;
      if materialManager != null {
        materialManager.SelectMaterial(name);
      }
      if currentGhost != null && !currentGhost.destroyed && materialManager != null {
        var applied := materialManager.ApplyMaterialToInstance(currentGhost, selectedMaterial, true);
        threw := !applied;
      }
    }

    /**
      `placeSelectedComponent()`. `placed` is what
      `placeBuild(selectedComponentIndex)` returns. Without a spawner the
      result is null. `threw` is true when applying the material throws
      (the material table is still empty), in which case nothing is
      returned.
     */
    method PlaceSelectedComponent(placed: Object3D?) returns (r: Object3D?, threw: bool)
      requires Valid()
      modifies placed
      ensures Valid()
      ensures spawnerComp.None? ==> r == null && !threw
      ensures threw <==> spawnerComp.Some? && placed != null && materialManager != null &&
                         materialManager.SettingsFor(selectedMaterial, false).None?
      ensures spawnerComp.Some? && !threw ==> r == placed
      ensures threw ==> r == null
      // The placed piece takes the selected material as a non-ghost...
      ensures r != null && materialManager != null ==>
              && materialManager.MaterialWritten(r, old(r.tree), old(r.bridgeBlock), old(r.userData),
                                                 selectedMaterial, false)
              && r.userData.Some?
              && r.userData.value.materialName == Some(selectedMaterial)
              && r.userData.value.isGhost == Some(false)
      // ...and is otherwise left alone.
      ensures placed != null ==> placed.pose == old(placed.pose) && placed.destroyed == old(placed.destroyed)
      ensures placed != null && (spawnerComp.None? || materialManager == null || threw) ==> unchanged(placed)
    {
      if spawnerComp.None? {
        return null, false;
      }
      if placed != null && materialManager != null {
        var applied := materialManager.ApplyMaterialToInstance(placed, selectedMaterial, false);
        if !applied {
          return null, true;
        }
      }
      return placed, false;
    }

    /**
      `clearAllComponents()`: destroys a live ghost and forgets the ghost
      and the last preview pose. Built pieces, the selected index and the
      selected material are untouched.
     */
    method ClearAllComponents()
      requires Valid()
      modifies this, currentGhost
      ensures Valid()
      ensures currentGhost == null && lastPreviewPosition.None? && lastPreviewRotation.None?
      ensures old(currentGhost) != null ==> old(currentGhost).destroyed
      // The destroyed ghost is otherwise left as it was.
      ensures old(currentGhost) != null ==>
              && old(currentGhost).pose == old(currentGhost.pose)
              && old(currentGhost).tree == old(currentGhost.tree)
              && old(currentGhost).bridgeBlock == old(currentGhost.bridgeBlock)
              && old(currentGhost).userData == old(currentGhost.userData)
      ensures selectedComponentIndex == old(selectedComponentIndex) && selectedMaterial == old(selectedMaterial)
      ensures spawnerComp == old(spawnerComp) && simControllerComp == old(simControllerComp)
      ensures materialManager == old(materialManager) && ghosts == old(ghosts)
    {
      if currentGhost != null && !currentGhost.destroyed {
        currentGhost.destroyed := true;
      }
      currentGhost := null;
      lastPreviewPosition := None;
      lastPreviewRotation := None;
    }

    /** `startTest(loadKind = 'car')`: nothing without a simulation controller. */
    method StartTest(loadKind: string := "car") returns (r: Option<StartOutcome>)
      requires simControllerComp != null ==> simControllerComp.Valid()
      modifies if simControllerComp != null then {simControllerComp, simControllerComp.bridgeRoot} else {}
      ensures r.None? <==> simControllerComp == null
      ensures r.Some? && old(simControllerComp.isRunning) ==> r.value == Rejected(AlreadyRunning)
      ensures r.Some? && r.value.Settling? ==>
              r.value.loadKind == loadKind && simControllerComp.bridgeRoot != null &&
              simControllerComp.initialComponentCount == old(|simControllerComp.bridgeRoot.children|)
    {
      if simControllerComp == null {
        return None;
      }
      var outcome := simControllerComp.StartSimulation(loadKind);
      r := Some(outcome);
    }

    /** At most one ghost handed out by the spawner is alive: the current one. */
    lemma AtMostOneLiveGhost(g: Object3D, h: Object3D)
      requires Valid()
      requires g in ghosts && h in ghosts && !g.destroyed && !h.destroyed
      ensures g == h && g == currentGhost
    {
    }
  }

  /** Previewing, clearing, and previewing again spawns a fresh ghost after the old one is destroyed. */
  method PreviewClearPreview(ui: UiManager, at: Vec3, first: Object3D, second: Object3D)
    requires ui.Valid() && ui.spawnerComp.Some? && ui.currentGhost == null
    requires first !in ui.ghosts && second !in ui.ghosts && first != second
    requires !first.destroyed && !second.destroyed
    modifies ui, first, second
    ensures ui.Valid() && first.destroyed && ui.currentGhost == second && !second.destroyed
    ensures ui.lastPreviewPosition == Some(at) && ui.lastPreviewRotation == Some(IdentityRotation)
  {
    var _ := ui.PreviewSelectedComponent(Some(at), None, first);
    ui.ClearAllComponents();
    var _ := ui.PreviewSelectedComponent(Some(at), None, second);
  }

  /**
    With the material table `start` builds, selecting steel recolours a live
    ghost's whole subtree with the ghost-steel colour.
   */
  method SelectSteelRecolorsGhost(ui: UiManager) returns (threw: bool)
    requires ui.Valid() && ui.materialManager != null && ui.materialManager.materialSettings == SettingsTable()
    requires ui.currentGhost != null && !ui.currentGhost.destroyed
    modifies ui, ui.materialManager, ui.currentGhost
    ensures !threw && ui.currentGhost == old(ui.currentGhost)
    ensures RecoloredFrom(old(ui.currentGhost.tree), ui.currentGhost.tree, SettingsTable()["ghostSteel"].color)
    ensures AllColored(ui.currentGhost.tree, SettingsTable()["ghostSteel"].color)
  {
    GhostNames();
    threw := ui.SelectMaterial("steel");
    RecoloredIsColored(old(ui.currentGhost.tree), ui.currentGhost.tree, SettingsTable()["ghostSteel"].color);
  }
}
