/**
  The material manager (`material-manager.js`): the selected material, the
  table of material settings, how a material name is resolved to settings,
  and what applying a material writes to an object.

  A JavaScript name that is falsy (`''`, `null`, `undefined`) is the empty
  string here.
 */
module Materials {
  import opened Scene

  /** The fallback material name. */
  const Concrete: string := "concrete"

  /** One entry of `materialSettings`. */
  datatype Settings = Settings(color: Color, density: real, capacity: real)

  /** The table `start` builds. There is no `ghostTimber` entry. */
  function SettingsTable(): (t: map<string, Settings>)
    ensures t.Keys == {"concrete", "steel", "timber", "ghostConcrete", "ghostSteel"}
  {
    map[
      "concrete" := Settings(Color(0.5, 0.5, 0.5, 1.0), 2400.0, 200000.0),
      "steel" := Settings(Color(0.7, 0.7, 0.8, 1.0), 7850.0, 800000.0),
      "timber" := Settings(Color(0.6, 0.4, 0.2, 1.0), 600.0, 60000.0),
      "ghostConcrete" := Settings(Color(0.5, 0.5, 0.5, 0.3), 2400.0, 200000.0),
      "ghostSteel" := Settings(Color(0.7, 0.7, 0.8, 0.3), 7850.0, 800000.0)
    ]
  }

  /** `name || 'concrete'`. */
  function OrConcrete(name: string): (r: string)
    ensures r != "" && (name != "" ==> r == name)
  {
    if name != "" then name else Concrete
  }

  /** The first non-empty name of `names`, if any: the value of `a || b || ...`. */
  function FirstTruthy(names: seq<string>): Option<string> {
    if names == [] then None
    else if names[0] != "" then Some(names[0])
    else FirstTruthy(names[1..])
  }

  /** `materialName || selectedMaterial || defaultSelection || 'concrete'`. */
  function BaseName(materialName: string, selected: string, defaultSelection: string): (b: string)
    ensures b != ""
    ensures b in {materialName, selected, defaultSelection, Concrete}
  {
    if materialName != "" then materialName
    else if selected != "" then selected
    else OrConcrete(defaultSelection)
  }

  /** `BaseName` is the first truthy value of the fallback chain. */
  lemma BaseNameIsFirstTruthy(materialName: string, selected: string, defaultSelection: string)
    ensures FirstTruthy([materialName, selected, defaultSelection, Concrete]) ==
            Some(BaseName(materialName, selected, defaultSelection))
  {
    var names := [materialName, selected, defaultSelection, Concrete];
    var tail1, tail2, tail3 := names[1..], names[1..][1..], names[1..][1..][1..];
    assert tail1 == [selected, defaultSelection, Concrete];
    assert tail2 == [defaultSelection, Concrete];
    assert tail3 == [Concrete];
    assert FirstTruthy(tail3) == Some(Concrete);
    assert FirstTruthy(tail2) == Some(OrConcrete(defaultSelection));
    assert FirstTruthy(tail1) == FirstTruthy([selected, defaultSelection, Concrete]);
  }

  /** `String.prototype.toUpperCase` on one character, for ASCII letters. */
  function UpperChar(c: char): char {
    if 'a' <= c <= 'z' then (c as int - 32) as char else c
  }

  /** `s.charAt(0).toUpperCase() + s.slice(1)`. */
  function Capitalize(s: string): (r: string)
    ensures |r| == |s|
    ensures |s| > 0 ==> r[0] == UpperChar(s[0]) && r[1..] == s[1..]
  {
    if s == [] then [] else [UpperChar(s[0])] + s[1..]
  }

  /** The table key for a base name: `'ghost' + Capitalized` for ghosts, the base name otherwise. */
  function FullName(baseName: string, isGhost: bool): (f: string)
    ensures !isGhost ==> f == baseName
    ensures isGhost ==> |f| == 5 + |baseName| && f[..5] == "ghost" && f[5..] == Capitalize(baseName)
  {
    if isGhost then "ghost" + Capitalize(baseName) else baseName
  }

  /** `materialSettings[full] || materialSettings[base] || materialSettings.concrete`. */
  function ResolveSettings(table: map<string, Settings>, fullName: string, baseName: string): (s: Option<Settings>)
    ensures s.Some? <==> fullName in table || baseName in table || Concrete in table
    ensures fullName in table ==> s == Some(table[fullName])
    ensures fullName !in table && baseName in table ==> s == Some(table[baseName])
    ensures fullName !in table && baseName !in table && Concrete in table ==> s == Some(table[Concrete])
  {
    if fullName in table then Some(table[fullName])
    else if baseName in table then Some(table[baseName])
    else if Concrete in table then Some(table[Concrete])
    else None
  }

  /** Once the table holds `concrete`, every name resolves to some settings. */
  lemma ResolutionAlwaysDefined(table: map<string, Settings>, baseName: string, isGhost: bool)
    requires Concrete in table
    ensures ResolveSettings(table, FullName(baseName, isGhost), baseName).Some?
  {
  }

  /** Ghost names of the three table materials. */
  lemma GhostNames()
    ensures FullName("steel", true) == "ghostSteel"
    ensures FullName("concrete", true) == "ghostConcrete"
    ensures FullName("timber", true) == "ghostTimber"
  {
    GhostName("steel", 'S');
    GhostName("concrete", 'C');
    GhostName("timber", 'T');
  }

  lemma GhostName(name: string, upper: char)
    requires |name| > 0 && UpperChar(name[0]) == upper
    ensures FullName(name, true) == "ghost" + [upper] + name[1..]
  {
    assert Capitalize(name) == [upper] + name[1..];
  }

  /**
    With the table `start` builds, a steel ghost gets the ghost-steel entry,
    a timber ghost (no `ghostTimber` entry) falls back to the timber entry,
    and an unknown material falls back to concrete.
   */
  lemma TableResolutions(unknown: string)
    requires unknown !in SettingsTable() && FullName(unknown, true) !in SettingsTable()
    ensures ResolveSettings(SettingsTable(), FullName("steel", true), "steel") == Some(SettingsTable()["ghostSteel"])
    ensures ResolveSettings(SettingsTable(), FullName("timber", true), "timber") == Some(SettingsTable()["timber"])
    ensures ResolveSettings(SettingsTable(), FullName(unknown, true), unknown) == Some(SettingsTable()["concrete"])
  {
    GhostNames();
  }

  // ----- Colour propagation over an object's subtree -----

  /** A mesh with a material that has a base colour gets `color`; any other mesh is left alone. */
  function RecolorMesh(m: Mesh, color: Color): (r: Mesh)
    ensures m.material.Some? && m.material.value.baseColorFactor.Some? ==>
            r == Mesh(Some(Material(m.material.value.name, Some(color))))
    ensures m.material.None? || m.material.value.baseColorFactor.None? ==> r == m
  {
    match m.material
    case Some(mat) => if mat.baseColorFactor.Some? then Mesh(Some(mat.(baseColorFactor := Some(color)))) else m
    case None => m
  }

  /** `after` is `before` with every mesh of every node recoloured, and nothing else changed. */
  ghost predicate RecoloredFrom(before: Node, after: Node, color: Color)
    decreases before
  {
    && |after.meshes| == |before.meshes|
    && (forall i :: 0 <= i < |before.meshes| ==> after.meshes[i] == RecolorMesh(before.meshes[i], color))
    && |after.children| == |before.children|
    && (forall i :: 0 <= i < |before.children| ==> RecoloredFrom(before.children[i], after.children[i], color))
  }

  /** The number of objects in a subtree. */
  function Size(n: Node): nat
    decreases n
  {
    1 + SumSizes(n.children)
  }

  function SumSizes(ns: seq<Node>): nat
    decreases ns
  {
    if ns == [] then 0 else SumSizes(ns[..|ns| - 1]) + Size(ns[|ns| - 1])
  }

  /** Every mesh in the subtree that has a base colour has `color`. */
  ghost predicate AllColored(n: Node, color: Color)
    decreases n
  {
    && (forall i :: (0 <= i < |n.meshes| && n.meshes[i].material.Some? &&
                     n.meshes[i].material.value.baseColorFactor.Some?) ==>
                    n.meshes[i].material.value.baseColorFactor.value == color)
    && (forall i :: 0 <= i < |n.children| ==> AllColored(n.children[i], color))
  }

  /** After a recolouring, the whole subtree carries the colour. */
  lemma {:induction false} RecoloredIsColored(before: Node, after: Node, color: Color)
    requires RecoloredFrom(before, after, color)
    ensures AllColored(after, color)
    decreases before
  {
    forall i | 0 <= i < |before.children| ensures AllColored(after.children[i], color) {
      RecoloredIsColored(before.children[i], after.children[i], color);
    }
  }

  /** Recolouring with the same colour again changes nothing. */
  lemma {:induction false} RecolorIdempotent(before: Node, after: Node, color: Color)
    requires RecoloredFrom(before, after, color)
    ensures RecoloredFrom(after, after, color)
    decreases before
  {
    forall i | 0 <= i < |before.children| ensures RecoloredFrom(after.children[i], after.children[i], color) {
      RecolorIdempotent(before.children[i], after.children[i], color);
    }
  }

  /**
    `_applyColorRecursive(obj, color)`: nothing for a missing object or
    colour; otherwise every mesh of the object is recoloured and every child
    is visited in turn. `visited` counts the objects visited.
   */
  method ApplyColorRecursive(obj: Option<Node>, color: Option<Color>) returns (r: Option<Node>, visited: nat)
    ensures obj.None? || color.None? ==> r == obj && visited == 0
    ensures obj.Some? && color.Some? ==>
            r.Some? && RecoloredFrom(obj.value, r.value, color.value) && visited == Size(obj.value)
    decreases if obj.Some? then Size(obj.value) else 0
  {
    if obj.None? || color.None? {
      return obj, 0;
    }
    var n, c := obj.value, color.value;
    var meshes: seq<Mesh> := [];
    for i := 0 to |n.meshes|
      invariant |meshes| == i
      invariant forall k :: 0 <= k < i ==> meshes[k] == RecolorMesh(n.meshes[k], c)
    {
      meshes := meshes + [RecolorMesh(n.meshes[i], c)];
    }
    var children: seq<Node> := [];
    visited := 1;
    for i := 0 to |n.children|
      invariant |children| == i
      invariant forall k :: 0 <= k < i ==> RecoloredFrom(n.children[k], children[k], c)
      invariant visited == 1 + SumSizes(n.children[..i])
    {
      assert n.children[..i + 1][..i] == n.children[..i];
      SizeOfChild(n, i);
      var child, count := ApplyColorRecursive(Some(n.children[i]), color);
      children := children + [child.value];
      visited := visited + count;
    }
    assert n.children[..|n.children|] == n.children;
    r := Some(Node(meshes, children));
  }

  lemma {:induction false} SumSizesPrefix(ns: seq<Node>, i: nat)
    requires i <= |ns|
    ensures SumSizes(ns[..i]) <= SumSizes(ns)
    decreases |ns| - i
  {
    if i < |ns| {
      SumSizesPrefix(ns, i + 1);
      assert ns[..i + 1][..i] == ns[..i];
    } else {
      assert ns[..i] == ns;
    }
  }

  lemma SizeOfChild(n: Node, i: nat)
    requires i < |n.children|
    ensures Size(n.children[i]) < Size(n)
  {
    SumSizesPrefix(n.children, i + 1);
    assert n.children[..i + 1][..i] == n.children[..i];
  }

  class MaterialManager {
    /** The `defaultSelection` property. */
    const defaultSelection: string
    var selectedMaterial: string
    var materialSettings: map<string, Settings>

    /** `init`: the default selection, and an empty table until `start`. */
    constructor (defaultSelection: string)
      ensures this.defaultSelection == defaultSelection
      ensures selectedMaterial == OrConcrete(defaultSelection) && materialSettings == map[]
    {
      this.defaultSelection := defaultSelection;
      selectedMaterial := OrConcrete(defaultSelection);
      materialSettings := map[];
    }

    /** The table is filled, so every name resolves. */
    ghost predicate Started()
      reads this
    {
      Concrete in materialSettings
    }

    /** `start`: resets the selection to the default and fills the table. */
    method Start()
      modifies this
      ensures Started()
      ensures selectedMaterial == OrConcrete(defaultSelection) && materialSettings == SettingsTable()
    {
      selectedMaterial := OrConcrete(defaultSelection);
      materialSettings := SettingsTable();
    }

    /** `selectMaterial(name)`: an empty name is ignored. */
    method SelectMaterial(name: string)
      modifies this
      ensures selectedMaterial == if name == "" then old(selectedMaterial) else name
      ensures materialSettings == old(materialSettings)
    {
      if name == "" {
        return;
      }
      selectedMaterial := name;
    }

    /** The settings `applyMaterialToInstance(_, materialName, isGhost)` would use. */
    function SettingsFor(materialName: string, isGhost: bool): (s: Option<Settings>)
      reads this
      ensures Started() ==> s.Some?
      ensures s.Some? ==> s.value in materialSettings.Values
    {
      var baseName := BaseName(materialName, selectedMaterial, defaultSelection);
      ResolveSettings(materialSettings, FullName(baseName, isGhost), baseName)
    }

    /**
      `root` carries the material that `materialName` resolves to, written
      over its earlier subtree `tree`, bridge block `block` and user data
      `data`: the subtree is recoloured, a bridge block takes the base name,
      density and capacity, and the user data records the base name and the
      ghost flag.
     */
    ghost predicate MaterialWritten(root: Object3D, tree: Node, block: Option<BlockMaterial>,
                                    data: Option<UserData>, materialName: string, isGhost: bool)
      reads this, root
    {
      var baseName := BaseName(materialName, selectedMaterial, defaultSelection);
      var settings := SettingsFor(materialName, isGhost);
      && settings.Some?
      && RecoloredFrom(tree, root.tree, settings.value.color)
      && root.bridgeBlock == (if block.Some?
                              then Some(BlockMaterial(baseName, settings.value.density, settings.value.capacity))
                              else None)
      && root.userData == Some(data.GetOr(EmptyUserData).(materialName := Some(baseName), isGhost := Some(isGhost)))
    }

    /**
      `applyMaterialToInstance(root, materialName, isGhost)`. Returns whether
      the material was applied. A null root is a no-op. With no settings
      found (the table is empty before `start`), reading `settings.color`
      throws before anything is written; that is the `false` result for a
      non-null root.
     */
    method ApplyMaterialToInstance(root: Object3D?, materialName: string, isGhost: bool) returns (applied: bool)
      modifies root
      ensures root == null ==> !applied
      ensures root != null ==> (applied <==> SettingsFor(materialName, isGhost).Some?)
      ensures root != null && !applied ==> unchanged(root)
      ensures applied ==>
              MaterialWritten(root, old(root.tree), old(root.bridgeBlock), old(root.userData), materialName, isGhost)
      ensures root != null ==> root.pose == old(root.pose) && root.destroyed == old(root.destroyed)
    {
      if root == null {
        return false;
      }
      var baseName := BaseName(materialName, selectedMaterial, defaultSelection);
      var fullMaterialName := FullName(baseName, isGhost);
      var settings := ResolveSettings(materialSettings, fullMaterialName, baseName);
      if settings.None? {
        return false;
      }
      var recolored, _ := ApplyColorRecursive(Some(root.tree), Some(settings.value.color));
      root.tree := recolored.value;
      if root.bridgeBlock.Some? {
        root.bridgeBlock := Some(BlockMaterial(baseName, settings.value.density, settings.value.capacity));
      }
      var ud := root.userData.GetOr(EmptyUserData);
      root.userData := Some(ud.(materialName := Some(baseName), isGhost := Some(isGhost)));
      applied := true;
    }

    /** `applyColorToInstance(root, color)`: a no-op without a root or a colour. */
    method ApplyColorToInstance(root: Object3D?, color: Option<Color>)
      modifies root
      ensures root != null && color.Some? ==> RecoloredFrom(old(root.tree), root.tree, color.value)
      ensures root != null ==> root.pose == old(root.pose) && root.userData == old(root.userData) &&
                               root.bridgeBlock == old(root.bridgeBlock) && root.destroyed == old(root.destroyed)
      ensures root != null && color.None? ==> unchanged(root)
    {
      if root == null || color.None? {
        return;
      }
      var recolored, _ := ApplyColorRecursive(Some(root.tree), color);
      root.tree := recolored.value;
    }
  }
}
