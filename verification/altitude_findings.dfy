/**
 * What one `update-after` pass of `AltitudeDetectionPlugin` leaves in each
 * record and reports through `onAltitudeChange`, for the code as written
 * (`AsWritten`) and for the corrected behaviour (`Intended`).
 */
module AltitudeFindings {
  import opened Wrappers
  import opened ExtendedReals
  import opened Geometry
  import opened TriangleIndices
  import opened AltitudeScan
  import JsMap

  // ----- The fold of extended reals -----

  lemma MinMaxAssoc(a: ExtReal, b: ExtReal, c: ExtReal)
    ensures Min(Min(a, b), c) == Min(a, Min(b, c))
    ensures Max(Max(a, b), c) == Max(a, Max(b, c))
  {
  }

  /** `Math.min(...s, y)` is `Math.min(Math.min(...s), y)`, and so for `Math.max`. */
  lemma MathMinMaxSnoc(s: seq<ExtReal>, y: ExtReal)
    ensures MathMin(s + [y]) == Min(MathMin(s), y)
    ensures MathMax(s + [y]) == Max(MathMax(s), y)
  {
    assert (s + [y])[..|s|] == s;
  }

  /** The least and greatest of a concatenation are those of its two parts combined. */
  lemma {:induction false} MathMinMaxConcat(s: seq<ExtReal>, t: seq<ExtReal>)
    ensures MathMin(s + t) == Min(MathMin(s), MathMin(t))
    ensures MathMax(s + t) == Max(MathMax(s), MathMax(t))
    decreases |t|
  {
    if t == [] {
      assert s + t == s;
    } else {
      var init, y := t[..|t| - 1], t[|t| - 1];
      assert t == init + [y];
      assert s + t == (s + init) + [y];
      MathMinMaxConcat(s, init);
      MathMinMaxSnoc(s + init, y);
      MathMinMaxSnoc(init, y);
      MinMaxAssoc(MathMin(s), MathMin(init), y);
      MinMaxAssoc(MathMax(s), MathMax(init), y);
    }
  }

  /** `Math.min( a, b )` and `Math.max( a, b )` as variadic calls. */
  lemma MathMinMaxPair(a: ExtReal, b: ExtReal)
    ensures MathMin([a, b]) == Min(a, b) && MathMax([a, b]) == Max(a, b)
  {
    assert [a, b] == [a] + [b] && [a] == [] + [a];
    MathMinMaxSnoc([a], b);
    MathMinMaxSnoc([], a);
  }

  // ----- The hits a shape collects over a pass -----

  /** The hits one shape collects from one object with geometry: none unless the spheres overlap. */
  function OverlapHits(g: GeometryOracle, node: SceneNode, geom: BufferGeometry, info: Info): seq<ExtReal> {
    if Overlaps(g, node, info) then MeshHits(g, node, geom, info) else []
  }

  /** The hits one shape collects from one object visited by `traverse`. */
  function NodeHits(g: GeometryOracle, node: SceneNode, info: Info): seq<ExtReal> {
    match node.geometry
    case None => []
    case Some(geom) => OverlapHits(g, node, geom, info)
  }

  /** The hits one shape collects from a whole snapshot, object by object. */
  function SceneHits(g: GeometryOracle, nodes: seq<SceneNode>, info: Info): seq<ExtReal>
    decreases |nodes|
  {
    if nodes == [] then []
    else SceneHits(g, nodes[..|nodes| - 1], info) + NodeHits(g, nodes[|nodes| - 1], info)
  }

  /** The hits one shape collects from the snapshots of `tiles`, tile by tile. */
  function TilesHits(g: GeometryOracle, snapshots: map<TileRef, Scene>, tiles: seq<TileRef>, info: Info): seq<ExtReal>
    decreases |tiles|
  {
    if tiles == [] then []
    else
      var rest := TilesHits(g, snapshots, tiles[..|tiles| - 1], info);
      var t := tiles[|tiles| - 1];
      if t in snapshots then rest + SceneHits(g, snapshots[t].nodes, info) else rest
  }

  /** The hits depend on the shape, its direction and its sphere, never on the stored extremes. */
  lemma {:induction false} HitsIgnoreExtremes(g: GeometryOracle, node: SceneNode, a: Info, b: Info, tris: seq<Tri>)
    requires SameShape(a, b)
    ensures Hits(g, node, a, tris) == Hits(g, node, b, tris)
    decreases |tris|
  {
    if tris != [] {
      HitsIgnoreExtremes(g, node, a, b, tris[..|tris| - 1]);
    }
  }

  lemma OverlapHitsIgnoreExtremes(g: GeometryOracle, node: SceneNode, geom: BufferGeometry, a: Info, b: Info)
    requires SameShape(a, b)
    ensures OverlapHits(g, node, geom, a) == OverlapHits(g, node, geom, b)
  {
    HitsIgnoreExtremes(g, node, a, b, Triangles(geom));
  }

  lemma {:induction false} SceneHitsIgnoreExtremes(g: GeometryOracle, nodes: seq<SceneNode>, a: Info, b: Info)
    requires SameShape(a, b)
    ensures SceneHits(g, nodes, a) == SceneHits(g, nodes, b)
    decreases |nodes|
  {
    if nodes != [] {
      SceneHitsIgnoreExtremes(g, nodes[..|nodes| - 1], a, b);
      var node := nodes[|nodes| - 1];
      if node.geometry.Some? {
        OverlapHitsIgnoreExtremes(g, node, node.geometry.value, a, b);
      }
    }
  }

  lemma {:induction false} TilesHitsIgnoreExtremes(g: GeometryOracle, snapshots: map<TileRef, Scene>, tiles: seq<TileRef>, a: Info, b: Info)
    requires SameShape(a, b)
    ensures TilesHits(g, snapshots, tiles, a) == TilesHits(g, snapshots, tiles, b)
    decreases |tiles|
  {
    if tiles != [] {
      TilesHitsIgnoreExtremes(g, snapshots, tiles[..|tiles| - 1], a, b);
      var t := tiles[|tiles| - 1];
      if t in snapshots {
        SceneHitsIgnoreExtremes(g, snapshots[t].nodes, a, b);
      }
    }
  }

  // ----- The corrected behaviour: a pass finds the extremes -----

  /** `r` holds the extremes of `info` widened by the hits `hs`, and nothing else differs. */
  predicate Widened(info: Info, hs: seq<ExtReal>, r: Info) {
    SameShape(info, r)
    && r.minAltitude == Min(info.minAltitude, MathMin(hs))
    && r.maxAltitude == Max(info.maxAltitude, MathMax(hs))
  }

  /** Widening by `before` and then by `here` is widening by both at once. */
  lemma WidenedTwice(info: Info, before: seq<ExtReal>, mid: Info, here: seq<ExtReal>, r: Info)
    requires Widened(info, before, mid) && Widened(mid, here, r)
    ensures Widened(info, before + here, r)
  {
    MathMinMaxConcat(before, here);
    MinMaxAssoc(info.minAltitude, MathMin(before), MathMin(here));
    MinMaxAssoc(info.maxAltitude, MathMax(before), MathMax(here));
  }

  /** With the corrected store, one (mesh, shape) pair widens the record by the pair's hits. */
  lemma IntendedShapeStepWidens(cfg: Config, node: SceneNode, geom: BufferGeometry, info: Info)
    requires cfg.behaviour.Intended?
    ensures Widened(info, OverlapHits(cfg.geometry, node, geom, info), ShapeStep(cfg, node, geom, info).info)
  {
    var g := cfg.geometry;
    if Overlaps(g, node, info) {
      var hs := MeshHits(g, node, geom, info);
      MathMinMaxPair(info.minAltitude, MathMin(hs));
      MathMinMaxPair(info.maxAltitude, MathMax(hs));
    }
  }

  /** `shapes.forEach` for one object: every listed shape is widened by its own hits, the others are untouched. */
  lemma {:induction false} IntendedNodeStepWidens(cfg: Config, node: SceneNode, geom: BufferGeometry, keys: seq<MeshRef>, m: map<MeshRef, Info>)
    requires cfg.behaviour.Intended? && forall k :: k in keys ==> k in m
    ensures var r := NodeStep(cfg, node, geom, keys, m);
      forall k :: k in m ==>
        if k in keys then Widened(m[k], OverlapHits(cfg.geometry, node, geom, m[k]), r.shapes[k]) else r.shapes[k] == m[k]
    decreases |keys|
  {
    if keys != [] {
      var g := cfg.geometry;
      var init, key := keys[..|keys| - 1], keys[|keys| - 1];
      assert keys == init + [key];
      IntendedNodeStepWidens(cfg, node, geom, init, m);
      var mid := NodeStep(cfg, node, geom, init, m);
      var r := NodeStep(cfg, node, geom, keys, m);
      IntendedShapeStepWidens(cfg, node, geom, mid.shapes[key]);
      OverlapHitsIgnoreExtremes(g, node, geom, m[key], mid.shapes[key]);
      var hs := OverlapHits(g, node, geom, m[key]);
      MinMaxAssoc(m[key].minAltitude, MathMin(hs), MathMin(hs));
      MinMaxAssoc(m[key].maxAltitude, MathMax(hs), MathMax(hs));
      assert Widened(m[key], hs, r.shapes[key]);
    }
  }

  /** `scene.traverse` in `_checkScene`: a listed shape is widened by the hits of the whole snapshot. */
  lemma {:induction false} IntendedSceneStepWidens(cfg: Config, nodes: seq<SceneNode>, keys: seq<MeshRef>, m: map<MeshRef, Info>, k: MeshRef)
    requires cfg.behaviour.Intended? && forall j :: j in keys ==> j in m
    requires k in keys
    ensures Widened(m[k], SceneHits(cfg.geometry, nodes, m[k]), SceneStep(cfg, nodes, keys, m).shapes[k])
    decreases |nodes|
  {
    var g := cfg.geometry;
    if nodes != [] {
      var init, node := nodes[..|nodes| - 1], nodes[|nodes| - 1];
      IntendedSceneStepWidens(cfg, init, keys, m, k);
      var mid := SceneStep(cfg, init, keys, m);
      var before := SceneHits(g, init, m[k]);
      if node.geometry.Some? {
        var geom := node.geometry.value;
        var r := NodeStep(cfg, node, geom, keys, mid.shapes);
        IntendedNodeStepWidens(cfg, node, geom, keys, mid.shapes);
        OverlapHitsIgnoreExtremes(g, node, geom, m[k], mid.shapes[k]);
        WidenedTwice(m[k], before, mid.shapes[k], OverlapHits(g, node, geom, m[k]), r.shapes[k]);
      } else {
        assert SceneHits(g, nodes, m[k]) == before + [] == before;
        assert SceneStep(cfg, nodes, keys, m) == mid;
      }
    }
  }

  /** `forEachLoadedModel`: a listed shape is widened by the hits of every tile scanned. */
  lemma {:induction false} IntendedTilesStepWidens(cfg: Config, snapshots: map<TileRef, Scene>, tiles: seq<TileRef>, keys: seq<MeshRef>, m: map<MeshRef, Info>, k: MeshRef)
    requires cfg.behaviour.Intended?
    requires forall t :: t in tiles ==> t in snapshots
    requires forall j :: j in keys ==> j in m
    requires k in keys
    ensures Widened(m[k], TilesHits(cfg.geometry, snapshots, tiles, m[k]), TilesStep(cfg, snapshots, tiles, keys, m).shapes[k])
    decreases |tiles|
  {
    var g := cfg.geometry;
    if tiles != [] {
      var init, t := tiles[..|tiles| - 1], tiles[|tiles| - 1];
      assert forall u :: u in init ==> u in tiles;
      IntendedTilesStepWidens(cfg, snapshots, init, keys, m, k);
      var mid := TilesStep(cfg, snapshots, init, keys, m);
      var nodes := snapshots[t].nodes;
      IntendedSceneStepWidens(cfg, nodes, keys, mid.shapes, k);
      SceneHitsIgnoreExtremes(g, nodes, m[k], mid.shapes[k]);
      WidenedTwice(m[k], TilesHits(g, snapshots, init, m[k]), mid.shapes[k], SceneHits(g, nodes, m[k]),
                   TilesStep(cfg, snapshots, tiles, keys, m).shapes[k]);
    }
  }

  /**
   * With the corrected store, a pass leaves in every record the lowest and
   * the highest hit altitude of that shape over every object of every
   * scanned tile whose sphere overlaps the shape's, and the sentinels when
   * there is no such hit.
   */
  lemma IntendedPassFindsExtremes(cfg: Config, snapshots: map<TileRef, Scene>, loaded: seq<TileRef>, shapes: ShapeMap)
    requires cfg.behaviour.Intended? && JsMap.Valid(shapes)
    ensures var p := UpdatePass(cfg, snapshots, loaded, true, shapes);
      var scanned := loaded[..ScannedTiles(snapshots, loaded)];
      forall k :: k in shapes.entries ==>
        k in p.shapes.entries
        && SameShape(shapes.entries[k], p.shapes.entries[k])
        && p.shapes.entries[k].minAltitude == MathMin(TilesHits(cfg.geometry, snapshots, scanned, shapes.entries[k]))
        && p.shapes.entries[k].maxAltitude == MathMax(TilesHits(cfg.geometry, snapshots, scanned, shapes.entries[k]))
  {
    var reset := ResetAll(shapes);
    var n := ScannedTiles(snapshots, loaded);
    var scanned := loaded[..n];
    assert forall t :: t in scanned ==> t in snapshots;
    var r := TilesStep(cfg, snapshots, scanned, reset.keys, reset.entries);
    assert UpdatePass(cfg, snapshots, loaded, true, shapes).shapes.entries == r.shapes;
    forall k | k in shapes.entries
      ensures k in r.shapes && SameShape(shapes.entries[k], r.shapes[k])
      ensures r.shapes[k].minAltitude == MathMin(TilesHits(cfg.geometry, snapshots, scanned, shapes.entries[k]))
      ensures r.shapes[k].maxAltitude == MathMax(TilesHits(cfg.geometry, snapshots, scanned, shapes.entries[k]))
    {
      IntendedTilesStepWidens(cfg, snapshots, scanned, reset.keys, reset.entries, k);
      TilesHitsIgnoreExtremes(cfg.geometry, snapshots, scanned, reset.entries[k], shapes.entries[k]);
    }
  }

  /** With the corrected flag, the frame after a completed pass changes nothing and calls nothing. */
  lemma IntendedPassSettles(cfg: Config, snapshots: map<TileRef, Scene>, loaded: seq<TileRef>, needsUpdate: bool, shapes: ShapeMap)
    requires cfg.behaviour.Intended? && JsMap.Valid(shapes)
    ensures var p := UpdatePass(cfg, snapshots, loaded, needsUpdate, shapes);
      p.completed ==> UpdatePass(cfg, snapshots, loaded, p.needsUpdate, p.shapes) == PassResult(p.shapes, [], false, true)
  {
  }

  /** The extremes over several tiles bound the extremes over any one of them. */
  lemma {:induction false} TilesHitsCoverTile(g: GeometryOracle, snapshots: map<TileRef, Scene>, tiles: seq<TileRef>, info: Info, i: nat)
    requires i < |tiles| && tiles[i] in snapshots
    ensures Le(MathMin(TilesHits(g, snapshots, tiles, info)), MathMin(SceneHits(g, snapshots[tiles[i]].nodes, info)))
    ensures Le(MathMax(SceneHits(g, snapshots[tiles[i]].nodes, info)), MathMax(TilesHits(g, snapshots, tiles, info)))
    decreases |tiles|
  {
    var init, last := tiles[..|tiles| - 1], tiles[|tiles| - 1];
    var before := TilesHits(g, snapshots, init, info);
    if last in snapshots {
      MathMinMaxConcat(before, SceneHits(g, snapshots[last].nodes, info));
    }
    if i < |tiles| - 1 {
      assert init[i] == tiles[i];
      TilesHitsCoverTile(g, snapshots, init, info, i);
    }
  }

  /**
   * With the corrected flag, `processTileModel` sets `needsUpdate`, and the
   * pass that follows, once every loaded tile has a snapshot, completes and
   * takes the new tile's hits into every shape's extremes.
   */
  lemma IntendedPassSeesNewTile(cfg: Config, snapshots: map<TileRef, Scene>, loaded: seq<TileRef>, shapes: ShapeMap, t: TileRef, scene: Scene)
    requires cfg.behaviour.Intended? && JsMap.Valid(shapes) && t in loaded
    requires forall u :: u in loaded ==> u in snapshots[t := scene]
    ensures var p := UpdatePass(cfg, snapshots[t := scene], loaded, true, shapes);
      p.completed && !p.needsUpdate
      && forall k :: k in shapes.entries ==>
        k in p.shapes.entries
        && Le(p.shapes.entries[k].minAltitude, MathMin(SceneHits(cfg.geometry, scene.nodes, shapes.entries[k])))
        && Le(MathMax(SceneHits(cfg.geometry, scene.nodes, shapes.entries[k])), p.shapes.entries[k].maxAltitude)
  {
    var now := snapshots[t := scene];
    IntendedPassFindsExtremes(cfg, now, loaded, shapes);
    assert forall j :: 0 <= j < |loaded| ==> loaded[j] in loaded;
    assert ScannedTiles(now, loaded) == |loaded|;
    assert loaded[..|loaded|] == loaded;
    var i :| 0 <= i < |loaded| && loaded[i] == t;
    forall k | k in shapes.entries
      ensures Le(MathMin(TilesHits(cfg.geometry, now, loaded, shapes.entries[k])), MathMin(SceneHits(cfg.geometry, scene.nodes, shapes.entries[k])))
      ensures Le(MathMax(SceneHits(cfg.geometry, scene.nodes, shapes.entries[k])), MathMax(TilesHits(cfg.geometry, now, loaded, shapes.entries[k])))
    {
      TilesHitsCoverTile(cfg.geometry, now, loaded, shapes.entries[k], i);
    }
  }

  // ----- The code as written: nothing is stored, every frame calls back -----

  /** Every record is at the sentinels `Infinity` / `-Infinity`. */
  ghost predicate AtSentinels(m: map<MeshRef, Info>) {
    forall k :: k in m ==> m[k].minAltitude == PosInf && m[k].maxAltitude == NegInf
  }

  /** Every callback reports the sentinels. */
  predicate SentinelEvents(events: seq<AltitudeEvent>) {
    forall i :: 0 <= i < |events| ==> events[i].minAltitude == PosInf && events[i].maxAltitude == NegInf
  }

  /**
   * As written, a pair whose spheres overlap and whose mesh yields a hit
   * keeps the stored sentinels and calls back with them, though the local
   * minimum is a finite altitude.
   */
  lemma AsWrittenStepDropsHits(cfg: Config, node: SceneNode, geom: BufferGeometry, info: Info)
    requires cfg.behaviour.AsWritten? && cfg.notify
    requires info.minAltitude == PosInf && info.maxAltitude == NegInf
    requires Overlaps(cfg.geometry, node, info) && MeshHits(cfg.geometry, node, geom, info) != []
    ensures MathMin(MeshHits(cfg.geometry, node, geom, info)).Fin?
    ensures ShapeStep(cfg, node, geom, info) == Step(info, [AltitudeChange(PosInf, NegInf, info.shape)])
  {
    LocalExtremesOrdered(MeshHits(cfg.geometry, node, geom, info));
  }

  lemma {:induction false} AsWrittenNodeStep(cfg: Config, node: SceneNode, geom: BufferGeometry, keys: seq<MeshRef>, m: map<MeshRef, Info>)
    requires cfg.behaviour.AsWritten? && AtSentinels(m) && forall k :: k in keys ==> k in m
    ensures var r := NodeStep(cfg, node, geom, keys, m);
      r.shapes == m && SentinelEvents(r.events)
    decreases |keys|
  {
    if keys != [] {
      var init := keys[..|keys| - 1];
      AsWrittenNodeStep(cfg, node, geom, init, m);
      var mid := NodeStep(cfg, node, geom, init, m);
      var key := keys[|keys| - 1];
      var step := ShapeStep(cfg, node, geom, m[key]);
      assert step.info == m[key] && SentinelEvents(step.events);
      assert mid.shapes[key := step.info] == m;
      assert SentinelEvents(mid.events + step.events);
    }
  }

  lemma {:induction false} AsWrittenSceneStep(cfg: Config, nodes: seq<SceneNode>, keys: seq<MeshRef>, m: map<MeshRef, Info>)
    requires cfg.behaviour.AsWritten? && AtSentinels(m) && forall k :: k in keys ==> k in m
    ensures var r := SceneStep(cfg, nodes, keys, m);
      r.shapes == m && SentinelEvents(r.events)
    decreases |nodes|
  {
    if nodes != [] {
      AsWrittenSceneStep(cfg, nodes[..|nodes| - 1], keys, m);
      var node := nodes[|nodes| - 1];
      if node.geometry.Some? {
        AsWrittenNodeStep(cfg, node, node.geometry.value, keys, m);
      }
    }
  }

  lemma {:induction false} AsWrittenTilesStep(cfg: Config, snapshots: map<TileRef, Scene>, tiles: seq<TileRef>, keys: seq<MeshRef>, m: map<MeshRef, Info>)
    requires cfg.behaviour.AsWritten? && AtSentinels(m)
    requires forall t :: t in tiles ==> t in snapshots
    requires forall k :: k in keys ==> k in m
    ensures var r := TilesStep(cfg, snapshots, tiles, keys, m);
      r.shapes == m && SentinelEvents(r.events)
    decreases |tiles|
  {
    if tiles != [] {
      var init := tiles[..|tiles| - 1];
      assert forall u :: u in init ==> u in tiles;
      AsWrittenTilesStep(cfg, snapshots, init, keys, m);
      AsWrittenSceneStep(cfg, snapshots[tiles[|tiles| - 1]].nodes, keys, m);
    }
  }

  /**
   * As written, a pass leaves every record at the sentinels whatever the
   * hits, keeps `needsUpdate` set, and every callback reports the sentinels.
   */
  lemma AsWrittenPassKeepsSentinels(cfg: Config, snapshots: map<TileRef, Scene>, loaded: seq<TileRef>, shapes: ShapeMap)
    requires cfg.behaviour.AsWritten? && JsMap.Valid(shapes)
    ensures var p := UpdatePass(cfg, snapshots, loaded, true, shapes);
      p.shapes == ResetAll(shapes) && p.needsUpdate && SentinelEvents(p.events)
  {
    var reset := ResetAll(shapes);
    var n := ScannedTiles(snapshots, loaded);
    assert forall t :: t in loaded[..n] ==> t in snapshots;
    AsWrittenTilesStep(cfg, snapshots, loaded[..n], reset.keys, reset.entries);
  }

  /** Resetting twice is resetting once. */
  lemma ResetAllIdempotent(shapes: ShapeMap)
    requires JsMap.Valid(shapes)
    ensures ResetAll(ResetAll(shapes)) == ResetAll(shapes)
  {
    var once := ResetAll(shapes);
    assert ResetAll(once).entries == once.entries;
  }

  /**
   * As written, the frame after a pass runs the same pass again: the same
   * records, the same callbacks, and the flag still set, frame after frame.
   */
  lemma AsWrittenPassRepeats(cfg: Config, snapshots: map<TileRef, Scene>, loaded: seq<TileRef>, shapes: ShapeMap)
    requires cfg.behaviour.AsWritten? && JsMap.Valid(shapes)
    ensures var p := UpdatePass(cfg, snapshots, loaded, true, shapes);
      p.needsUpdate && UpdatePass(cfg, snapshots, loaded, p.needsUpdate, p.shapes) == p
  {
    AsWrittenPassKeepsSentinels(cfg, snapshots, loaded, shapes);
    ResetAllIdempotent(shapes);
  }

  /** A pass that runs does not depend on the extremes stored before it. */
  lemma PassForgetsPreviousExtremes(cfg: Config, snapshots: map<TileRef, Scene>, loaded: seq<TileRef>, a: ShapeMap, b: ShapeMap)
    requires JsMap.Valid(a) && JsMap.Valid(b) && a.keys == b.keys
    requires forall k :: k in a.entries ==> k in b.entries && SameShape(a.entries[k], b.entries[k])
    ensures UpdatePass(cfg, snapshots, loaded, true, a) == UpdatePass(cfg, snapshots, loaded, true, b)
  {
    assert ResetAll(a).entries == ResetAll(b).entries;
  }

  // ----- One mesh, one shape, one hit -----

  const ExampleSphere := Sphere(Vec3(0.0, 0.0, 0.0), 1.0)

  /** Spheres always overlap, no triangle is a skirt, and every ray hits at altitude 5. */
  const ExampleOracle := GeometryOracle(
    (s: Scene) => ExampleSphere,
    (n: SceneNode) => ExampleSphere,
    (a: Sphere, b: Sphere, d: Vec3) => true,
    (n: SceneNode, t: Tri, d: Vec3) => false,
    (n: SceneNode, t: Tri, d: Vec3, s: Scene) => Some(5.0))

  /** A mesh of one non-indexed triangle. */
  const ExampleGeometry := BufferGeometry(None, 3)
  const ExampleMesh := SceneNode(0, Some(ExampleGeometry))

  /** A freshly reset record. */
  const ExampleShape := Info(Scene([]), DefaultDirection, ExampleSphere, PosInf, NegInf)

  /**
   * The single hit at altitude 5 is lost as written, and the callback
   * reports `Infinity, -Infinity`; the corrected store keeps 5 as both
   * extremes and reports them.
   */
  lemma ExampleHitLostAsWritten()
    ensures MeshHits(ExampleOracle, ExampleMesh, ExampleGeometry, ExampleShape) == [Fin(5.0)]
    ensures ShapeStep(Config(ExampleOracle, true, AsWritten), ExampleMesh, ExampleGeometry, ExampleShape)
      == Step(ExampleShape, [AltitudeChange(PosInf, NegInf, ExampleShape.shape)])
    ensures ShapeStep(Config(ExampleOracle, true, Intended), ExampleMesh, ExampleGeometry, ExampleShape)
      == Step(ExampleShape.(minAltitude := Fin(5.0), maxAltitude := Fin(5.0)), [AltitudeChange(Fin(5.0), Fin(5.0), ExampleShape.shape)])
  {
    var tris := Triangles(ExampleGeometry);
    assert |tris| == 1;
    assert tris[..0] == [];
    MathMinMaxPair(PosInf, Fin(5.0));
    MathMinMaxPair(NegInf, Fin(5.0));
  }
}
