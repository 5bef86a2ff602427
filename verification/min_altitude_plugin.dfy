/**
 * `MinAltitudeDetectionPlugin`: a registry of query shapes keyed by mesh,
 * each with the lowest altitude seen so far, and an `update-after` handler
 * that resets that altitude and visits every loaded model. The scan of a
 * model is still an empty stub, so nothing ever lowers the altitude and
 * `onDetected` is never called.
 */
module MinAltitudeDetection {
  import opened Wrappers
  import opened ExtendedReals
  import opened Geometry
  import JsMap

  const PluginName := "MIN_ALTITUDE_DETECTION_PLUGIN"
  const PluginPriority := -1000

  /** The message of the error `updateShape` throws for a mesh that is not registered. */
  const UnknownShapeMessage := "TileFlatteningPlugin: Shape is already used."

  /** The record `addShape` stores under a mesh key. */
  datatype MinInfo = MinInfo(shape: Scene, direction: Vec3, sphere: Sphere, lowestAltitude: ExtReal)

  type MinShapeMap = JsMap.OrderedMap<MeshRef, MinInfo>

  /** The record with its lowest altitude back at `Infinity`, everything else kept. */
  function ResetLowest(info: MinInfo): (r: MinInfo)
    ensures r.lowestAltitude == PosInf
    ensures r.shape == info.shape && r.direction == info.direction && r.sphere == info.sphere
  {
    info.(lowestAltitude := PosInf)
  }

  /**
   * What one `update-after` pass leaves in the registry: every record reset
   * when `needsUpdate` is set, the registry untouched otherwise.
   */
  function MinPass(needsUpdate: bool, shapes: MinShapeMap): (r: MinShapeMap)
    requires JsMap.Valid(shapes)
    ensures JsMap.Valid(r) && r.keys == shapes.keys
    ensures forall k :: k in r.entries <==> k in shapes.entries
    ensures !needsUpdate ==> r == shapes
    ensures needsUpdate ==> forall k :: k in r.entries ==> r.entries[k] == ResetLowest(shapes.entries[k])
  {
    if needsUpdate then JsMap.MapValues(shapes, ResetLowest) else shapes
  }

  /** A pass after a pass leaves the registry as the first one did. */
  lemma MinPassIdempotent(needsUpdate: bool, shapes: MinShapeMap)
    requires JsMap.Valid(shapes)
    ensures MinPass(needsUpdate, MinPass(needsUpdate, shapes)) == MinPass(needsUpdate, shapes)
  {
    var once := MinPass(needsUpdate, shapes);
    assert MinPass(needsUpdate, once).entries == once.entries;
  }

  /** A pass forgets the altitudes stored before it: registries that differ only there end equal. */
  lemma MinPassForgetsLowest(a: MinShapeMap, b: MinShapeMap)
    requires JsMap.Valid(a) && JsMap.Valid(b) && a.keys == b.keys
    requires forall k :: k in a.entries ==> k in b.entries && a.entries[k].(lowestAltitude := PosInf) == b.entries[k].(lowestAltitude := PosInf)
    ensures MinPass(true, a) == MinPass(true, b)
  {
    assert MinPass(true, a).entries == MinPass(true, b).entries;
  }

  class MinAltitudeDetectionPlugin {
    /** `calculateSphere`: the bounding sphere of a mesh's oriented box. */
    const bound: Scene -> Sphere
    /** Whether an `onDetected` callback was supplied; it is stored and never called. */
    const notify: bool
    var shapes: MinShapeMap
    var needsUpdate: bool

    ghost predicate Valid()
      reads this
    {
      JsMap.Valid(shapes)
    }

    constructor (bound: Scene -> Sphere, notify: bool)
      ensures Valid() && this.bound == bound && this.notify == notify
      ensures shapes == JsMap.Empty() && needsUpdate
    {
      this.bound := bound;
      this.notify := notify;
      shapes := JsMap.Empty();
      needsUpdate := true;
    }

    /** `hasShape( mesh )`: whether the mesh is registered. */
    method HasShape(mesh: MeshRef) returns (present: bool)
      ensures present <==> mesh in shapes.entries
    {
      present := mesh in shapes.entries;
    }

    /**
     * `addShape( mesh, direction )`: register a clone of the mesh with its
     * bounding sphere, a copy of the direction (default `(0, 0, -1)`) and a
     * lowest altitude of `Infinity`, replacing any earlier record.
     */
    method AddShape(mesh: MeshRef, content: Scene, direction: Option<Vec3>)
      requires Valid()
      modifies this
      ensures Valid() && needsUpdate
      ensures shapes == JsMap.Set(old(shapes), mesh,
        MinInfo(content, if direction.Some? then direction.value else DefaultDirection, bound(content), PosInf))
      ensures JsMap.Size(shapes) == JsMap.Size(old(shapes)) + (if mesh in old(shapes.entries) then 0 else 1)
    {
      var dir := if direction.Some? then direction.value else DefaultDirection;
      shapes := JsMap.Set(shapes, mesh, MinInfo(content, dir, bound(content), PosInf));
      needsUpdate := true;
    }

    /**
     * `updateShape( mesh )`: throw for a mesh that is not registered;
     * otherwise recompute the sphere and the clone in the existing record,
     * keeping its direction and lowest altitude.
     */
    method UpdateShape(mesh: MeshRef, content: Scene) returns (r: Outcome<string>)
      requires Valid()
      modifies this
      ensures Valid()
      ensures mesh !in old(shapes.entries) ==> r == Fail(UnknownShapeMessage) && shapes == old(shapes) && needsUpdate == old(needsUpdate)
      ensures mesh in old(shapes.entries) ==> r == Pass && needsUpdate
      ensures mesh in old(shapes.entries) ==> shapes == JsMap.Set(old(shapes), mesh,
        old(shapes.entries[mesh]).(shape := content, sphere := bound(content)))
    {
      var present := HasShape(mesh);
      if !present {
        return Fail(UnknownShapeMessage);
      }
      var info := shapes.entries[mesh];
      info := info.(sphere := bound(content));
      info := info.(shape := content);
      shapes := JsMap.Set(shapes, mesh, info);
      needsUpdate := true;
      r := Pass;
    }

    /** `deleteShape( mesh )`: unregister the mesh and report whether it was registered. */
    method DeleteShape(mesh: MeshRef) returns (existed: bool)
      requires Valid()
      modifies this
      ensures Valid() && needsUpdate
      ensures existed <==> mesh in old(shapes.entries)
      ensures shapes == JsMap.Delete(old(shapes), mesh)
    {
      needsUpdate := true;
      existed := mesh in shapes.entries;
      shapes := JsMap.Delete(shapes, mesh);
    }

    /** `clearShapes()`: nothing at all when the registry is empty; otherwise empty it. */
    method ClearShapes()
      requires Valid()
      modifies this
      ensures Valid()
      ensures JsMap.Size(old(shapes)) == 0 ==> shapes == old(shapes) && needsUpdate == old(needsUpdate)
      ensures JsMap.Size(old(shapes)) != 0 ==> shapes == JsMap.Empty() && needsUpdate
    {
      if JsMap.Size(shapes) == 0 {
        return;
      }
      shapes := JsMap.Empty();
      needsUpdate := true;
    }

    /**
     * `_checkScene( scene )`: for every shape (`shapes.forEach`), visit
     * every object of the model (`scene.traverse`) and do nothing with it;
     * the two loops mirror the stub's two empty callbacks.
     */
    method CheckScene(scene: Scene)
      requires Valid()
      ensures Valid()
    {
      var keys := shapes.keys;
      var i := 0;
      while i < |keys|
        invariant 0 <= i <= |keys|
      {
        var j := 0;
        while j < |scene.nodes|
          invariant 0 <= j <= |scene.nodes|
        {
          j := j + 1;
        }
        i := i + 1;
      }
    }

    /**
     * The `update-after` handler: when `needsUpdate` is set, set every
     * record's lowest altitude to `Infinity`, then check every loaded
     * model. The flag is never cleared.
     */
    method OnUpdateAfter(loaded: seq<Scene>)
      requires Valid()
      modifies this
      ensures Valid()
      ensures shapes == MinPass(old(needsUpdate), old(shapes)) && needsUpdate == old(needsUpdate)
    {
      if !needsUpdate {
        return;
      }
      var keys := shapes.keys;
      var i := 0;
      while i < |keys|
        invariant 0 <= i <= |keys|
        invariant shapes.keys == keys
        invariant forall k :: k in shapes.entries <==> k in old(shapes.entries)
        invariant forall k :: k in shapes.entries ==>
          shapes.entries[k] == if k in keys[..i] then ResetLowest(old(shapes.entries[k])) else old(shapes.entries[k])
        invariant needsUpdate
      {
        var key := keys[i];
        assert key !in keys[..i];
        shapes := JsMap.OrderedMap(keys, shapes.entries[key := shapes.entries[key].(lowestAltitude := PosInf)]);
        i := i + 1;
      }
      assert keys[..i] == keys;
      assert shapes.entries == MinPass(true, old(shapes)).entries;
      var t := 0;
      while t < |loaded|
        invariant 0 <= t <= |loaded|
        invariant shapes == MinPass(true, old(shapes)) && needsUpdate
      {
        CheckScene(loaded[t]);
        t := t + 1;
      }
    }
  }
}
