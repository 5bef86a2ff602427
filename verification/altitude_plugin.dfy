/**
 * `AltitudeDetectionPlugin`: a registry of query shapes keyed by mesh, a
 * snapshot of every tile's model, and the `update-after` handler that
 * rescans the snapshots when `needsUpdate` is set.
 */
module AltitudeDetection {
  import opened Wrappers
  import opened ExtendedReals
  import opened Geometry
  import opened AltitudeScan
  import JsMap

  const PluginName := "MIN_ALTITUDE_DETECTION_PLUGIN"
  const PluginPriority := -1000

  /** The message of the error `updateShape` throws for a mesh that is not registered. */
  const UnknownShapeMessage := "TileFlatteningPlugin: Shape is already used."

  class AltitudeDetectionPlugin {
    /** The geometry collaborators, the callback option and which behaviour is modelled. */
    const config: Config
    var shapes: ShapeMap
    var originalMeshes: map<TileRef, Scene>
    var needsUpdate: bool
    /** The calls made to `onAltitudeChange`, oldest first. */
    var events: seq<AltitudeEvent>

    ghost predicate Valid()
      reads this
    {
      JsMap.Valid(shapes)
    }

    constructor (config: Config)
      ensures Valid() && this.config == config
      ensures shapes == JsMap.Empty() && originalMeshes == map[]
      ensures needsUpdate && events == []
    {
      this.config := config;
      shapes := JsMap.Empty();
      originalMeshes := map[];
      needsUpdate := true;
      events := [];
    }

    /**
     * `processTileModel( scene, tile )`: keep a clone of the tile's model.
     * The code leaves `needsUpdate` alone; the `Intended` behaviour, which
     * clears the flag after a completed pass, sets it here so that the next
     * pass scans the new tile.
     */
    method ProcessTileModel(scene: Scene, tile: TileRef)
      requires Valid()
      modifies this
      ensures Valid()
      ensures originalMeshes == old(originalMeshes)[tile := scene]
      ensures needsUpdate == (old(needsUpdate) || config.behaviour.Intended?)
      ensures shapes == old(shapes) && events == old(events)
    {
      originalMeshes := originalMeshes[tile := scene];
      if config.behaviour.Intended? {
        needsUpdate := true;
      }
    }

    /**
     * `disposeTile( tile )`: forget the tile's snapshot. As for
     * `ProcessTileModel`, only the `Intended` behaviour sets `needsUpdate`,
     * so that the next pass no longer counts the tile's hits.
     */
    method DisposeTile(tile: TileRef)
      requires Valid()
      modifies this
      ensures Valid()
      ensures tile !in originalMeshes
      ensures forall t :: t != tile ==> (t in originalMeshes <==> t in old(originalMeshes))
      ensures forall t :: t != tile && t in old(originalMeshes) ==> originalMeshes[t] == old(originalMeshes)[t]
      ensures needsUpdate == (old(needsUpdate) || config.behaviour.Intended?)
      ensures shapes == old(shapes) && events == old(events)
    {
      originalMeshes := originalMeshes - {tile};
      if config.behaviour.Intended? {
        needsUpdate := true;
      }
    }

    /** `hasShape( mesh )`: whether the mesh is registered. */
    method HasShape(mesh: MeshRef) returns (present: bool)
      ensures present <==> mesh in shapes.entries
    {
      present := mesh in shapes.entries;
    }

    /**
     * `addShape( mesh, direction )`: register a clone of the mesh with its
     * bounding sphere, a copy of the direction (default `(0, 0, -1)`) and
     * the sentinel extremes, replacing any earlier record for the mesh.
     */
    method AddShape(mesh: MeshRef, content: Scene, direction: Option<Vec3>)
      requires Valid()
      modifies this
      ensures Valid() && needsUpdate
      ensures mesh in shapes.entries
      ensures shapes.entries[mesh] == Info(content, if direction.Some? then direction.value else DefaultDirection,
                                           config.geometry.shapeBound(content), PosInf, NegInf)
      ensures shapes == JsMap.Set(old(shapes), mesh, shapes.entries[mesh])
      ensures JsMap.Size(shapes) == JsMap.Size(old(shapes)) + (if mesh in old(shapes.entries) then 0 else 1)
      ensures originalMeshes == old(originalMeshes) && events == old(events)
    {
      var sphere := config.geometry.shapeBound(content);
      var dir := if direction.Some? then direction.value else DefaultDirection;
      shapes := JsMap.Set(shapes, mesh, Info(content, dir, sphere, PosInf, NegInf));
      needsUpdate := true;
    }

    /**
     * `updateShape( mesh )`: throw for a mesh that is not registered;
     * otherwise recompute the sphere and the clone of the mesh in the
     * existing record, keeping its direction and extremes.
     */
    method UpdateShape(mesh: MeshRef, content: Scene) returns (r: Outcome<string>)
      requires Valid()
      modifies this
      ensures Valid()
      ensures mesh !in old(shapes.entries) ==> r == Fail(UnknownShapeMessage) && shapes == old(shapes) && needsUpdate == old(needsUpdate)
      ensures mesh in old(shapes.entries) ==> r == Pass && needsUpdate
      ensures mesh in old(shapes.entries) ==> shapes == JsMap.Set(old(shapes), mesh,
        old(shapes.entries[mesh]).(shape := content, sphere := config.geometry.shapeBound(content)))
      ensures originalMeshes == old(originalMeshes) && events == old(events)
    {
      var present := HasShape(mesh);
      if !present {
        return Fail(UnknownShapeMessage);
      }
      var info := shapes.entries[mesh];
      info := info.(sphere := config.geometry.shapeBound(content));
      info := info.(shape := content);
      shapes := JsMap.Set(shapes, mesh, info);
      needsUpdate := true;
      r := Pass;
    }

    /** `deleteShape( mesh )`: unregister the mesh and report whether it was registered. */
    method DeleteShape(mesh: MeshRef) returns (existed: bool)
      requires Valid()
      modifies this
      ensures Valid() && needsUpdate
      ensures existed <==> mesh in old(shapes.entries)
      ensures shapes == JsMap.Delete(old(shapes), mesh)
      ensures originalMeshes == old(originalMeshes) && events == old(events)
    {
      needsUpdate := true;
      existed := mesh in shapes.entries;
      shapes := JsMap.Delete(shapes, mesh);
    }

    /** `clearShapes()`: nothing at all when the registry is empty; otherwise empty it. */
    method ClearShapes()
      requires Valid()
      modifies this
      ensures Valid()
      ensures JsMap.Size(old(shapes)) == 0 ==> shapes == old(shapes) && needsUpdate == old(needsUpdate)
      ensures JsMap.Size(old(shapes)) != 0 ==> shapes == JsMap.Empty() && needsUpdate
      ensures originalMeshes == old(originalMeshes) && events == old(events)
    {
      if JsMap.Size(shapes) == 0 {
        return;
      }
      shapes := JsMap.Empty();
      needsUpdate := true;
    }

    /** The first half of a pass: every record's extremes back to the sentinels. */
    method ResetExtremes()
      requires Valid()
      modifies this
      ensures Valid()
      ensures shapes == ResetAll(old(shapes))
      ensures originalMeshes == old(originalMeshes) && needsUpdate == old(needsUpdate) && events == old(events)
    {
      var keys := shapes.keys;
      var i := 0;
      while i < |keys|
        invariant 0 <= i <= |keys|
        invariant shapes.keys == keys
        invariant forall k :: k in shapes.entries <==> k in old(shapes.entries)
        invariant forall k :: k in shapes.entries ==>
          shapes.entries[k] == if k in keys[..i] then Reset(old(shapes.entries[k])) else old(shapes.entries[k])
        invariant originalMeshes == old(originalMeshes) && needsUpdate == old(needsUpdate) && events == old(events)
      {
        var key := keys[i];
        assert key !in keys[..i];
        var info := shapes.entries[key];
        info := info.(minAltitude := PosInf, maxAltitude := NegInf);
        shapes := JsMap.OrderedMap(keys, shapes.entries[key := info]);
        i := i + 1;
      }
      assert keys[..i] == keys;
    }

    /**
     * `_checkScene( tile )`: scan the tile's snapshot against every shape,
     * calling back as it goes. This is the per-tile view of the scan;
     * `CheckLoadedTiles` runs the same scan over each tile through
     * `ScanTiles`, whose result is `SceneStep` of each snapshot in turn.
     */
    method CheckScene(tile: TileRef)
      requires Valid() && tile in originalMeshes
      modifies this
      ensures Valid() && shapes.keys == old(shapes.keys)
      ensures var s := SceneStep(config, old(originalMeshes[tile]).nodes, old(shapes.keys), old(shapes.entries));
        shapes.entries == s.shapes && events == old(events) + s.events
      ensures originalMeshes == old(originalMeshes) && needsUpdate == old(needsUpdate)
    {
      var s := ScanScene(config, originalMeshes[tile].nodes, shapes.keys, shapes.entries);
      shapes := JsMap.OrderedMap(shapes.keys, s.shapes);
      events := events + s.events;
    }

    /**
     * `tiles.forEachLoadedModel( ( scene, tile ) => this._checkScene( tile ) )`:
     * `loaded` lists the tiles whose models are loaded, in visiting order;
     * `completed` is false when `_checkScene` throws at a loaded tile that has
     * no snapshot, which ends the loop there.
     */
    method CheckLoadedTiles(loaded: seq<TileRef>) returns (completed: bool)
      requires Valid()
      modifies this
      ensures Valid() && shapes.keys == old(shapes.keys)
      ensures completed <==> ScannedTiles(originalMeshes, loaded) == |loaded|
      ensures var s := TilesStep(config, old(originalMeshes), loaded[..ScannedTiles(old(originalMeshes), loaded)],
                                 old(shapes.keys), old(shapes.entries));
        shapes.entries == s.shapes && events == old(events) + s.events
      ensures originalMeshes == old(originalMeshes) && needsUpdate == old(needsUpdate)
    {
      var s, scanned := ScanTiles(config, originalMeshes, loaded, shapes.keys, shapes.entries);
      shapes := JsMap.OrderedMap(shapes.keys, s.shapes);
      events := events + s.events;
      completed := scanned == |loaded|;
    }

    /**
     * The `update-after` handler: when `needsUpdate` is set, reset every
     * shape's extremes and scan every loaded tile. The code never clears
     * the flag; the `Intended` behaviour clears it after a completed pass.
     */
    method OnUpdateAfter(loaded: seq<TileRef>) returns (completed: bool)
      requires Valid()
      modifies this
      ensures Valid()
      ensures var p := UpdatePass(config, old(originalMeshes), loaded, old(needsUpdate), old(shapes));
        shapes == p.shapes && events == old(events) + p.events && needsUpdate == p.needsUpdate && completed == p.completed
      ensures originalMeshes == old(originalMeshes)
    {
      completed := true;
      if !needsUpdate {
        return;
      }
      ResetExtremes();
      completed := CheckLoadedTiles(loaded);
      if completed && config.behaviour.Intended? {
        needsUpdate := false;
      }
    }
  }
}
