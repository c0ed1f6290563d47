/**
  Values and engine objects shared by the components of the bridge builder:
  poses, the `userData` record pieces carry, the pieces under the bridge root,
  the component spawner's runtime-template table, and the scene objects whose
  fields the UI and the material manager update in place.
 */
module Scene {

  datatype Option<+T> = None | Some(value: T) {
    /** The wrapped value, or `default` when there is none (JavaScript `a || b`). */
    function GetOr(default: T): T {
      match this
      case Some(v) => v
      case None => default
    }
  }

  /** A world-space translation. Only `y` is ever inspected (collapse height). */
  datatype Vec3 = Vec3(x: real, y: real, z: real)

  /** A world-space rotation quaternion, copied around opaquely. */
  datatype Quat = Quat(x: real, y: real, z: real, w: real)

  /** The rotation `[0, 0, 0, 1]` used when no rotation was ever supplied. */
  const IdentityRotation: Quat := Quat(0.0, 0.0, 0.0, 1.0)

  datatype Pose = Pose(position: Vec3, rotation: Quat)

  /** Identity of a prefab object that can be cloned. */
  type TemplateId = nat

  /**
    The keys of an object's `userData` that the core reads or writes. A key
    that is absent (or `undefined`) is `None`.
   */
  datatype UserData = UserData(
    buildIndex: Option<int>,
    componentType: Option<string>,
    materialName: Option<string>,
    isGhost: Option<bool>)

  /** `{}`: the user data of an object that has none. */
  const EmptyUserData: UserData := UserData(None, None, None, None)

  /** Whether a piece is an editable build piece or a clone of a runtime template. */
  datatype PieceKind = Build | Runtime(template: TemplateId)

  /** A direct child of the bridge root. `id` is the engine's object identity. */
  datatype Piece = Piece(id: nat, kind: PieceKind, userData: UserData, destroyed: bool, pose: Pose)

  /**
    The component spawner, seen through the one query the test session makes
    of it: `getRuntimeTemplate(buildIndex)`, a partial map that is idempotent
    and free of side effects.
   */
  datatype Spawner = Spawner(runtimeTemplates: map<int, TemplateId>) {
    function GetRuntimeTemplate(buildIndex: int): (r: Option<TemplateId>)
      ensures r.Some? <==> buildIndex in runtimeTemplates
      ensures r.Some? ==> r.value == runtimeTemplates[buildIndex]
    {
      if buildIndex in runtimeTemplates then Some(runtimeTemplates[buildIndex]) else None
    }
  }

  /** An RGBA colour factor; opaque data. */
  datatype Color = Color(r: real, g: real, b: real, a: real)

  /** A material; only its base colour factor (present or not) is modelled. */
  datatype Material = Material(name: string, baseColorFactor: Option<Color>)

  /** A mesh component; `material` is `None` when the mesh has none. */
  datatype Mesh = Mesh(material: Option<Material>)

  /** An object of the scene graph: its mesh components and its child objects. */
  datatype Node = Node(meshes: seq<Mesh>, children: seq<Node>)

  /** The material fields of a `bridge-block` component. */
  datatype BlockMaterial = BlockMaterial(materialType: string, density: real, capacity: real)

  /**
    A scene object that the UI and the material manager hold by reference:
    a ghost preview, or a freshly placed build piece.
   */
  class Object3D {
    var pose: Pose
    var destroyed: bool
    var userData: Option<UserData>
    /** `Some` when the object carries a `bridge-block` component. */
    var bridgeBlock: Option<BlockMaterial>
    /** The object's own meshes and the subtree beneath it. */
    var tree: Node

    constructor (pose: Pose, userData: Option<UserData>, bridgeBlock: Option<BlockMaterial>, tree: Node)
      ensures this.pose == pose && !destroyed && this.userData == userData
      ensures this.bridgeBlock == bridgeBlock && this.tree == tree
    {
      this.pose := pose;
      this.destroyed := false;
      this.userData := userData;
      this.bridgeBlock := bridgeBlock;
      this.tree := tree;
    }
  }
}
