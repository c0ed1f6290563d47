/**
  The load dropper (`load-dropper.js`): spawns a test load of a named kind
  above a drop point.
 */
module LoadDropping {
  import opened Scene

  /** `Math.max(0.5, height)`: the smallest height `setDropHeight` accepts. */
  const MinDropHeight: real := 0.5

  /** The default of the `dropHeight` property. */
  const DefaultDropHeight: real := 3.0

  /** The kinds of load the dropper knows a template property for. */
  const LoadKinds: set<string> := {"passenger", "car", "truck", "plane"}

  /** A spawned, activated clone of a load template. */
  datatype Load = Load(kind: string, template: TemplateId, position: Vec3, active: bool)

  /**
    The `templates` dictionary `start` builds; kinds whose template property
    is unassigned (falsy) have no entry.
   */
  function TemplateTable(passenger: Option<TemplateId>, car: Option<TemplateId>,
                         truck: Option<TemplateId>, plane: Option<TemplateId>): (t: map<string, TemplateId>)
    ensures t.Keys <= LoadKinds
    ensures ("passenger" in t <==> passenger.Some?) && ("car" in t <==> car.Some?)
    ensures ("truck" in t <==> truck.Some?) && ("plane" in t <==> plane.Some?)
    ensures forall k :: k in t ==> t[k] == (if k == "passenger" then passenger.value
                                             else if k == "car" then car.value
                                             else if k == "truck" then truck.value
                                             else plane.value)
  {
    var t0: map<string, TemplateId> := map[];
    var t1 := if passenger.Some? then t0["passenger" := passenger.value] else t0;
    var t2 := if car.Some? then t1["car" := car.value] else t1;
    var t3 := if truck.Some? then t2["truck" := truck.value] else t2;
    if plane.Some? then t3["plane" := plane.value] else t3
  }

  /**
    The height offset of a drop: the custom height whenever one is given
    (the test is `!== null`, so 0 and values under the minimum are honoured),
    the configured drop height otherwise.
   */
  function HeightOffset(customHeight: Option<real>, dropHeight: real): (h: real)
    ensures customHeight.Some? ==> h == customHeight.value
    ensures customHeight.None? ==> h == dropHeight
  {
    customHeight.GetOr(dropHeight)
  }

  /** The point `h` above `dropPos`: only the vertical coordinate moves. */
  function SpawnPosition(dropPos: Vec3, h: real): (p: Vec3)
    ensures p.x == dropPos.x && p.z == dropPos.z
    ensures p.y - dropPos.y == h
  {
    Vec3(dropPos.x, dropPos.y + h, dropPos.z)
  }

  /** The drop height `setDropHeight` stores for a requested height. */
  function ClampDropHeight(height: real): (r: real)
    ensures r >= MinDropHeight
    ensures height >= MinDropHeight ==> r == height
    ensures height < MinDropHeight ==> r == MinDropHeight
  {
    if MinDropHeight >= height then MinDropHeight else height
  }

  class LoadDropper {
    /** World position of the `dropPoint` object; `None` when unassigned. */
    const dropPoint: Option<Vec3>
    const passengerTemplate: Option<TemplateId>
    const carTemplate: Option<TemplateId>
    const truckTemplate: Option<TemplateId>
    const planeTemplate: Option<TemplateId>

    /** Empty until `start` runs (a lookup then fails as if the kind were unknown). */
    var templates: map<string, TemplateId>
    var dropHeight: real

    constructor (dropPoint: Option<Vec3>, passenger: Option<TemplateId>, car: Option<TemplateId>,
                 truck: Option<TemplateId>, plane: Option<TemplateId>, dropHeight: real := DefaultDropHeight)
      ensures this.dropPoint == dropPoint && templates == map[] && this.dropHeight == dropHeight
      ensures passengerTemplate == passenger && carTemplate == car
      ensures truckTemplate == truck && planeTemplate == plane
    {
      this.dropPoint := dropPoint;
      passengerTemplate := passenger;
      carTemplate := car;
      truckTemplate := truck;
      planeTemplate := plane;
      templates := map[];
      this.dropHeight := dropHeight;
    }

    /** `start`: builds the kind-to-template dictionary. */
    method Start()
      modifies this
      ensures templates == TemplateTable(passengerTemplate, carTemplate, truckTemplate, planeTemplate)
      ensures dropHeight == old(dropHeight)
    {
      templates := TemplateTable(passengerTemplate, carTemplate, truckTemplate, planeTemplate);
    }

    /**
      `dropLoad(kind, customHeight)`: the load spawned, or `None` when the kind
      has no template or no drop point is assigned.
     */
    function DropLoad(kind: string, customHeight: Option<real> := None): (r: Option<Load>)
      reads this
      ensures kind !in templates ==> r.None?
      ensures dropPoint.None? ==> r.None?
      ensures r.Some? <==> kind in templates && dropPoint.Some?
      ensures r.Some? ==> r.value.kind == kind && r.value.template == templates[kind] && r.value.active
      ensures r.Some? ==> r.value.position == SpawnPosition(dropPoint.value, HeightOffset(customHeight, dropHeight))
    {
      if kind !in templates then None
      else if dropPoint.None? then None
      else
        var heightOffset := HeightOffset(customHeight, dropHeight);
        Some(Load(kind, templates[kind], SpawnPosition(dropPoint.value, heightOffset), true))
    }

    /** `setDropHeight(height)`: stores the height, raised to at least 0.5. */
    method SetDropHeight(height: real)
      modifies this
      ensures dropHeight == ClampDropHeight(height)
      ensures dropHeight >= MinDropHeight
      ensures templates == old(templates)
    {
      dropHeight := ClampDropHeight(height);
    }
  }

  /** Once started, the dropper only ever spawns the four known kinds. */
  lemma OnlyKnownKindsDrop(d: LoadDropper, kind: string, customHeight: Option<real>)
    requires d.templates == TemplateTable(d.passengerTemplate, d.carTemplate, d.truckTemplate, d.planeTemplate)
    ensures d.DropLoad(kind, customHeight).Some? ==> kind in LoadKinds
  {
  }

  /** A custom height of 0 is honoured: the load spawns at the drop point itself. */
  lemma ZeroCustomHeightIsHonoured(dropPos: Vec3, dropHeight: real)
    ensures SpawnPosition(dropPos, HeightOffset(Some(0.0), dropHeight)) == dropPos
  {
  }
}
