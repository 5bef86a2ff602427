/**
 * The altitude scan of `AltitudeDetectionPlugin` as functions: the hits of
 * one shape against one mesh, the local extremes folded from them, the
 * stored update and callback of one (mesh, shape) pair, and the whole
 * `update-after` pass over every loaded tile.
 */
module AltitudeScan {
  import opened Wrappers
  import opened ExtendedReals
  import opened Geometry
  import opened TriangleIndices
  import JsMap

  /** The record `addShape` stores under a mesh key. */
  datatype Info = Info(shape: Scene, direction: Vec3, sphere: Sphere, minAltitude: ExtReal, maxAltitude: ExtReal)

  /** One call `onAltitudeChange( minAltitude, maxAltitude, shape )`. */
  datatype AltitudeEvent = AltitudeChange(minAltitude: ExtReal, maxAltitude: ExtReal, shape: Scene)

  /**
   * The floating-point geometry the scan consults and the model does not
   * compute: the bounding spheres of a shape and of a mesh, the sphere
   * overlap test along a direction, the skirt test of a triangle, and the
   * altitude of the ray hit on the shape cast for a triangle, if any.
   */
  datatype GeometryOracle = GeometryOracle(
    shapeBound: Scene -> Sphere,
    nodeBound: SceneNode -> Sphere,
    overlaps: (Sphere, Sphere, Vec3) -> bool,
    isSkirt: (SceneNode, Tri, Vec3) -> bool,
    rayHit: (SceneNode, Tri, Vec3, Scene) -> Option<real>)

  /**
   * `AsWritten` follows the code: `Math.min`/`Math.max` with one argument
   * store nothing, and `needsUpdate` is never cleared. `Intended` stores the
   * lesser and greater of the old and local extremes, and clears the flag
   * once a pass has scanned every loaded tile.
   */
  datatype Behaviour = AsWritten | Intended

  /** `notify` says whether an `onAltitudeChange` callback was supplied. */
  datatype Config = Config(geometry: GeometryOracle, notify: bool, behaviour: Behaviour)

  type ShapeMap = JsMap.OrderedMap<MeshRef, Info>

  /** The fields a scan never writes. */
  predicate SameShape(a: Info, b: Info) {
    a.shape == b.shape && a.direction == b.direction && a.sphere == b.sphere
  }

  /** The record with its extremes set back to the sentinels. */
  function Reset(info: Info): (r: Info)
    ensures SameShape(info, r) && r.minAltitude == PosInf && r.maxAltitude == NegInf
  {
    info.(minAltitude := PosInf, maxAltitude := NegInf)
  }

  /** Every record of the registry reset, keys and order kept. */
  function ResetAll(shapes: ShapeMap): (r: ShapeMap)
    requires JsMap.Valid(shapes)
    ensures JsMap.Valid(r) && r.keys == shapes.keys
    ensures forall k :: k in r.entries <==> k in shapes.entries
    ensures forall k :: k in r.entries ==> r.entries[k] == Reset(shapes.entries[k])
  {
    JsMap.MapValues(shapes, Reset)
  }

  /**
   * The altitudes of the ray hits of one shape over the triangles `tris`
   * of a mesh, in triangle order: skirt triangles and misses contribute
   * nothing.
   */
  function Hits(g: GeometryOracle, node: SceneNode, info: Info, tris: seq<Tri>): (hs: seq<ExtReal>)
    ensures |hs| <= |tris|
    ensures forall i :: 0 <= i < |hs| ==> hs[i].Fin?
    decreases |tris|
  {
    if tris == [] then []
    else
      var rest := Hits(g, node, info, tris[..|tris| - 1]);
      var t := tris[|tris| - 1];
      if g.isSkirt(node, t, info.direction) then rest
      else match g.rayHit(node, t, info.direction, info.shape)
        case None => rest
        case Some(a) => rest + [Fin(a)]
  }

  /** The hits of one shape over every triangle of the mesh. */
  function MeshHits(g: GeometryOracle, node: SceneNode, geom: BufferGeometry, info: Info): seq<ExtReal> {
    Hits(g, node, info, Triangles(geom))
  }

  /** The bounding spheres of the mesh and of the shape overlap across the shape's direction. */
  predicate Overlaps(g: GeometryOracle, node: SceneNode, info: Info) {
    g.overlaps(g.nodeBound(node), info.sphere, info.direction)
  }

  /** Once a hit has been folded in, the local minimum is finite and at most the local maximum. */
  lemma {:induction false} LocalExtremesOrdered(hs: seq<ExtReal>)
    requires hs != [] && forall i :: 0 <= i < |hs| ==> hs[i].Fin?
    ensures MathMin(hs).Fin? && MathMax(hs).Fin?
    ensures Le(MathMin(hs), MathMax(hs))
  {
    var lo, hi := MathMin(hs), MathMax(hs);
    assert Le(lo, hs[0]) && Le(hs[0], hi);
  }

  /** Scanning one more triangle adds at most its own hit. */
  lemma HitsExtend(g: GeometryOracle, node: SceneNode, info: Info, tris: seq<Tri>, k: nat)
    requires k < |tris|
    ensures var t := tris[k];
      Hits(g, node, info, tris[..k + 1]) ==
        if g.isSkirt(node, t, info.direction) || g.rayHit(node, t, info.direction, info.shape).None? then Hits(g, node, info, tris[..k])
        else Hits(g, node, info, tris[..k]) + [Fin(g.rayHit(node, t, info.direction, info.shape).value)]
  {
    assert tris[..k + 1][..k] == tris[..k];
  }

  /** Folding one more value in with a two-argument `Math.min`/`Math.max` extends the fold. */
  lemma MathMinMaxExtend(s: seq<ExtReal>, x: ExtReal)
    ensures MathMin(s + [x]) == MathMin([MathMin(s), x])
    ensures MathMax(s + [x]) == MathMax([MathMax(s), x])
  {
    assert (s + [x])[..|s|] == s;
    assert [MathMin(s), x][..1] == [MathMin(s)];
    assert [MathMax(s), x][..1] == [MathMax(s)];
  }

  /**
   * The local fold of one shape over one mesh: `minAltitude` and
   * `maxAltitude` start at the sentinels and take in each hit with
   * `Math.min`/`Math.max`.
   */
  method ScanShape(g: GeometryOracle, node: SceneNode, geom: BufferGeometry, info: Info)
    returns (minAltitude: ExtReal, maxAltitude: ExtReal)
    ensures minAltitude == MathMin(MeshHits(g, node, geom, info))
    ensures maxAltitude == MathMax(MeshHits(g, node, geom, info))
    ensures MeshHits(g, node, geom, info) == [] ==> minAltitude == PosInf && maxAltitude == NegInf
    ensures MeshHits(g, node, geom, info) != [] ==> minAltitude.Fin? && maxAltitude.Fin? && Le(minAltitude, maxAltitude)
  {
    var tris := ForEachTriangleIndices(geom);
    minAltitude, maxAltitude := PosInf, NegInf;
    var k := 0;
    while k < |tris|
      invariant 0 <= k <= |tris|
      invariant minAltitude == MathMin(Hits(g, node, info, tris[..k]))
      invariant maxAltitude == MathMax(Hits(g, node, info, tris[..k]))
    {
      var t := tris[k];
      HitsExtend(g, node, info, tris, k);
      if !g.isSkirt(node, t, info.direction) {
        var hit := g.rayHit(node, t, info.direction, info.shape);
        if hit.Some? {
          var altitude := Fin(hit.value);
          MathMinMaxExtend(Hits(g, node, info, tris[..k]), altitude);
          minAltitude := MathMin([minAltitude, altitude]);
          maxAltitude := MathMax([maxAltitude, altitude]);
        }
      }
      k := k + 1;
    }
    assert tris[..|tris|] == tris;
    var hs := MeshHits(g, node, geom, info);
    if hs != [] {
      LocalExtremesOrdered(hs);
    }
  }

  /** The record as written back by lines 191-192: `Math.min`/`Math.max` of the stored value alone. */
  function StoreAsWritten(info: Info, lo: ExtReal, hi: ExtReal): (r: Info)
    ensures r == info
  {
    info.(minAltitude := MathMin([info.minAltitude]), maxAltitude := MathMax([info.maxAltitude]))
  }

  /** The record with the local extremes taken in, as the comparison on line 189 intends. */
  function StoreIntended(info: Info, lo: ExtReal, hi: ExtReal): (r: Info)
    ensures SameShape(info, r)
    ensures Le(r.minAltitude, info.minAltitude) && Le(r.minAltitude, lo)
    ensures r.minAltitude == info.minAltitude || r.minAltitude == lo
    ensures Le(info.maxAltitude, r.maxAltitude) && Le(hi, r.maxAltitude)
    ensures r.maxAltitude == info.maxAltitude || r.maxAltitude == hi
  {
    assert [info.minAltitude, lo][1] == lo && [info.maxAltitude, hi][1] == hi;
    info.(minAltitude := MathMin([info.minAltitude, lo]), maxAltitude := MathMax([info.maxAltitude, hi]))
  }

  function Store(b: Behaviour, info: Info, lo: ExtReal, hi: ExtReal): Info {
    match b
    case AsWritten => StoreAsWritten(info, lo, hi)
    case Intended => StoreIntended(info, lo, hi)
  }

  /** The local extremes beat the stored ones (line 189). */
  predicate Beats(lo: ExtReal, hi: ExtReal, info: Info) {
    Lt(lo, info.minAltitude) || Lt(info.maxAltitude, hi)
  }

  /** The outcome of one (mesh, shape) pair: the record afterwards and the callbacks made. */
  datatype Step = Step(info: Info, events: seq<AltitudeEvent>)

  /**
   * One pass of the inner `shapes.forEach` body for a mesh with geometry:
   * skip the shape unless the spheres overlap; fold the hits; when they beat
   * the stored extremes, store and call back with the stored values.
   */
  function ShapeStep(cfg: Config, node: SceneNode, geom: BufferGeometry, info: Info): (r: Step)
    ensures SameShape(info, r.info)
    ensures |r.events| <= 1
    ensures r.events != [] ==> cfg.notify && r.events[0] == AltitudeChange(r.info.minAltitude, r.info.maxAltitude, info.shape)
    ensures cfg.behaviour.AsWritten? ==> r.info == info
  {
    var g := cfg.geometry;
    if !Overlaps(g, node, info) then Step(info, [])
    else
      var hs := MeshHits(g, node, geom, info);
      var lo := MathMin(hs);
      var hi := MathMax(hs);
      if !Beats(lo, hi, info) then Step(info, [])
      else
        var stored := Store(cfg.behaviour, info, lo, hi);
        Step(stored, if cfg.notify then [AltitudeChange(stored.minAltitude, stored.maxAltitude, info.shape)] else [])
  }

  /**
   * A pair changes the record or calls back only when the spheres overlap
   * and the local extremes beat the stored ones; with no hit at all it does
   * neither.
   */
  lemma ShapeStepOnlyWhenBeaten(cfg: Config, node: SceneNode, geom: BufferGeometry, info: Info)
    ensures var r := ShapeStep(cfg, node, geom, info);
      var hs := MeshHits(cfg.geometry, node, geom, info);
      (r.info != info || r.events != [] ==> Overlaps(cfg.geometry, node, info) && Beats(MathMin(hs), MathMax(hs), info))
      && (hs == [] ==> r == Step(info, []))
  {
  }

  /**
   * The body of the inner `shapes.forEach` as code: the sphere test, the
   * local fold, the comparison with the stored extremes, the store and the
   * callback.
   */
  method CheckShape(cfg: Config, node: SceneNode, geom: BufferGeometry, info: Info) returns (r: Step)
    ensures r == ShapeStep(cfg, node, geom, info)
  {
    r := Step(info, []);
    var g := cfg.geometry;
    if !Overlaps(g, node, info) {
      return;
    }
    var minAltitude, maxAltitude := ScanShape(g, node, geom, info);
    if Lt(minAltitude, info.minAltitude) || Lt(info.maxAltitude, maxAltitude) {
      var stored := Store(cfg.behaviour, info, minAltitude, maxAltitude);
      r := Step(stored, if cfg.notify then [AltitudeChange(stored.minAltitude, stored.maxAltitude, info.shape)] else []);
    }
  }

  /** The registry and the callbacks made while scanning. */
  datatype ScanState = ScanState(shapes: map<MeshRef, Info>, events: seq<AltitudeEvent>)

  /** Every record keeps its key and the fields a scan never writes. */
  ghost predicate SameShapes(m: map<MeshRef, Info>, m': map<MeshRef, Info>) {
    m'.Keys == m.Keys && forall k :: k in m ==> SameShape(m[k], m'[k])
  }

  /** `shapes.forEach` for one mesh with geometry, over the shapes `keys` in order. */
  function NodeStep(cfg: Config, node: SceneNode, geom: BufferGeometry, keys: seq<MeshRef>, m: map<MeshRef, Info>): (r: ScanState)
    requires forall k :: k in keys ==> k in m
    ensures SameShapes(m, r.shapes)
    decreases |keys|
  {
    if keys == [] then ScanState(m, [])
    else
      var mid := NodeStep(cfg, node, geom, keys[..|keys| - 1], m);
      var k := keys[|keys| - 1];
      var step := ShapeStep(cfg, node, geom, mid.shapes[k]);
      ScanState(mid.shapes[k := step.info], mid.events + step.events)
  }

  /** Scanning one more shape extends the scan of the shapes before it. */
  lemma NodeStepExtend(cfg: Config, node: SceneNode, geom: BufferGeometry, keys: seq<MeshRef>, j: nat, m: map<MeshRef, Info>)
    requires j < |keys| && forall k :: k in keys ==> k in m
    ensures var before := NodeStep(cfg, node, geom, keys[..j], m);
      var step := ShapeStep(cfg, node, geom, before.shapes[keys[j]]);
      NodeStep(cfg, node, geom, keys[..j + 1], m) == ScanState(before.shapes[keys[j] := step.info], before.events + step.events)
  {
    assert keys[..j + 1][..j] == keys[..j];
  }

  /** `scene.traverse` in `_checkScene`: each object with a geometry in turn. */
  function SceneStep(cfg: Config, nodes: seq<SceneNode>, keys: seq<MeshRef>, m: map<MeshRef, Info>): (r: ScanState)
    requires forall k :: k in keys ==> k in m
    ensures SameShapes(m, r.shapes)
    decreases |nodes|
  {
    if nodes == [] then ScanState(m, [])
    else
      var mid := SceneStep(cfg, nodes[..|nodes| - 1], keys, m);
      var node := nodes[|nodes| - 1];
      match node.geometry
      case None => mid
      case Some(geom) =>
        var s := NodeStep(cfg, node, geom, keys, mid.shapes);
        ScanState(s.shapes, mid.events + s.events)
  }

  /** `forEachLoadedModel` calling `_checkScene( tile )` for each tile in turn. */
  function TilesStep(cfg: Config, snapshots: map<TileRef, Scene>, tiles: seq<TileRef>, keys: seq<MeshRef>, m: map<MeshRef, Info>): (r: ScanState)
    requires forall t :: t in tiles ==> t in snapshots
    requires forall k :: k in keys ==> k in m
    ensures SameShapes(m, r.shapes)
    decreases |tiles|
  {
    if tiles == [] then ScanState(m, [])
    else
      var mid := TilesStep(cfg, snapshots, tiles[..|tiles| - 1], keys, m);
      var s := SceneStep(cfg, snapshots[tiles[|tiles| - 1]].nodes, keys, mid.shapes);
      ScanState(s.shapes, mid.events + s.events)
  }

  /** Scanning one more object extends the scan of the objects before it. */
  lemma SceneStepExtend(cfg: Config, nodes: seq<SceneNode>, i: nat, keys: seq<MeshRef>, m: map<MeshRef, Info>)
    requires i < |nodes| && forall k :: k in keys ==> k in m
    ensures var before := SceneStep(cfg, nodes[..i], keys, m);
      SceneStep(cfg, nodes[..i + 1], keys, m) ==
        match nodes[i].geometry
        case None => before
        case Some(geom) =>
          var s := NodeStep(cfg, nodes[i], geom, keys, before.shapes);
          ScanState(s.shapes, before.events + s.events)
  {
    assert nodes[..i + 1][..i] == nodes[..i];
  }

  /** Scanning one more tile extends the scan of the tiles before it. */
  lemma TilesStepExtend(cfg: Config, snapshots: map<TileRef, Scene>, tiles: seq<TileRef>, i: nat, keys: seq<MeshRef>, m: map<MeshRef, Info>)
    requires i < |tiles| && forall t :: t in tiles[..i + 1] ==> t in snapshots
    requires forall k :: k in keys ==> k in m
    ensures var before := TilesStep(cfg, snapshots, tiles[..i], keys, m);
      var s := SceneStep(cfg, snapshots[tiles[i]].nodes, keys, before.shapes);
      TilesStep(cfg, snapshots, tiles[..i + 1], keys, m) == ScanState(s.shapes, before.events + s.events)
  {
    assert tiles[..i + 1][..i] == tiles[..i];
  }

  /** The inner `shapes.forEach` of `_checkScene` for one object with a geometry, as a loop. */
  method ScanNode(cfg: Config, node: SceneNode, geom: BufferGeometry, keys: seq<MeshRef>, m: map<MeshRef, Info>)
    returns (r: ScanState)
    requires forall k :: k in keys ==> k in m
    ensures r == NodeStep(cfg, node, geom, keys, m)
  {
    var shapes := m;
    var fired: seq<AltitudeEvent> := [];
    var j := 0;
    while j < |keys|
      invariant 0 <= j <= |keys|
      invariant ScanState(shapes, fired) == NodeStep(cfg, node, geom, keys[..j], m)
    {
      var key := keys[j];
      var step := CheckShape(cfg, node, geom, shapes[key]);
      NodeStepExtend(cfg, node, geom, keys, j, m);
      shapes := shapes[key := step.info];
      fired := fired + step.events;
      j := j + 1;
    }
    assert keys[..j] == keys;
    r := ScanState(shapes, fired);
  }

  /** `scene.traverse` in `_checkScene`, as a loop over the objects. */
  method ScanScene(cfg: Config, nodes: seq<SceneNode>, keys: seq<MeshRef>, m: map<MeshRef, Info>)
    returns (r: ScanState)
    requires forall k :: k in keys ==> k in m
    ensures r == SceneStep(cfg, nodes, keys, m)
  {
    var shapes := m;
    var fired: seq<AltitudeEvent> := [];
    var i := 0;
    while i < |nodes|
      invariant 0 <= i <= |nodes|
      invariant ScanState(shapes, fired) == SceneStep(cfg, nodes[..i], keys, m)
    {
      SceneStepExtend(cfg, nodes, i, keys, m);
      var node := nodes[i];
      if node.geometry.Some? {
        var s := ScanNode(cfg, node, node.geometry.value, keys, shapes);
        shapes := s.shapes;
        fired := fired + s.events;
      }
      i := i + 1;
    }
    assert nodes[..i] == nodes;
    r := ScanState(shapes, fired);
  }

  /**
   * How many loaded tiles a pass scans: all of them, or those before the
   * first tile without a snapshot, where `originalMeshes.get( tile )` is
   * `undefined` and the handler throws.
   */
  function ScannedTiles(snapshots: map<TileRef, Scene>, loaded: seq<TileRef>): (n: nat)
    ensures n <= |loaded|
    ensures forall i :: 0 <= i < n ==> loaded[i] in snapshots
    ensures n < |loaded| ==> loaded[n] !in snapshots
    decreases |loaded|
  {
    if loaded == [] || loaded[0] !in snapshots then 0
    else 1 + ScannedTiles(snapshots, loaded[1..])
  }

  /**
   * `tiles.forEachLoadedModel( ( scene, tile ) => this._checkScene( tile ) )`
   * as a loop: scan the tiles in order and stop at the first one without a
   * snapshot; `scanned` is how many were scanned.
   */
  method ScanTiles(cfg: Config, snapshots: map<TileRef, Scene>, loaded: seq<TileRef>, keys: seq<MeshRef>, m: map<MeshRef, Info>)
    returns (r: ScanState, scanned: nat)
    requires forall k :: k in keys ==> k in m
    ensures scanned == ScannedTiles(snapshots, loaded)
    ensures r == TilesStep(cfg, snapshots, loaded[..scanned], keys, m)
  {
    r := ScanState(m, []);
    scanned := 0;
    while scanned < |loaded| && loaded[scanned] in snapshots
      invariant 0 <= scanned <= ScannedTiles(snapshots, loaded)
      invariant r == TilesStep(cfg, snapshots, loaded[..scanned], keys, m)
    {
      TilesStepExtend(cfg, snapshots, loaded, scanned, keys, m);
      var s := ScanScene(cfg, snapshots[loaded[scanned]].nodes, keys, r.shapes);
      r := ScanState(s.shapes, r.events + s.events);
      scanned := scanned + 1;
    }
  }

  /** What an `update-after` pass leaves behind, and whether it ran to the end. */
  datatype PassResult = PassResult(shapes: ShapeMap, events: seq<AltitudeEvent>, needsUpdate: bool, completed: bool)

  /**
   * `_onUpdateAfter`: when `needsUpdate` is set, reset every record to the
   * sentinels, then scan every loaded tile's snapshot against every shape.
   */
  function UpdatePass(cfg: Config, snapshots: map<TileRef, Scene>, loaded: seq<TileRef>, needsUpdate: bool, shapes: ShapeMap): (p: PassResult)
    requires JsMap.Valid(shapes)
    ensures JsMap.Valid(p.shapes) && p.shapes.keys == shapes.keys
    ensures !needsUpdate ==> p == PassResult(shapes, [], false, true)
    ensures p.completed <==> !needsUpdate || forall t :: t in loaded ==> t in snapshots
    ensures p.needsUpdate <==> needsUpdate && (cfg.behaviour.AsWritten? || !p.completed)
  {
    if !needsUpdate then PassResult(shapes, [], false, true)
    else
      var reset := ResetAll(shapes);
      var n := ScannedTiles(snapshots, loaded);
      var s := TilesStep(cfg, snapshots, loaded[..n], reset.keys, reset.entries);
      var completed := n == |loaded|;
      PassResult(JsMap.OrderedMap(shapes.keys, s.shapes), s.events, !(completed && cfg.behaviour.Intended?), completed)
  }
}
