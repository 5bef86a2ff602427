# Lowest-point detection for 3D Tiles, modelled in Dafny

The repository provides two plugins for a 3D Tiles renderer. Each keeps a
registry of user "shapes" (meshes) and scans the loaded tiles to find where
each shape would rest on the terrain.

- **`AltitudeDetectionPlugin`** (`src/three/AltitudeDetectionPlugin.js`)
  - Keeps a registry of shapes keyed by mesh. Each record holds a clone of
    the mesh, a direction, a bounding sphere and the lowest and highest
    altitude found so far.
  - Keeps a clone of every tile's model (`processTileModel`, `disposeTile`).
  - Keeps a `needsUpdate` flag. `addShape`, `updateShape` on a registered
    mesh, `deleteShape` and `clearShapes` on a non-empty registry set it;
    `hasShape` leaves it alone.
  - On each `update-after` event while the flag is set, it resets every
    record's extremes to `Infinity` / `-Infinity`. It then scans every
    loaded tile, object by object and shape by shape:
    - the bounding-sphere overlap test;
    - every triangle of the object's geometry (`forEachTriangleIndices`),
      with skirts skipped;
    - one ray cast per triangle;
    - a local minimum and maximum folded from the hit altitudes;
    - when these beat the stored extremes, a store and an
      `onAltitudeChange( min, max, shape )` callback.
- **`MinAltitudeDetectionPlugin`** (`src/three/MinAltitudeDetectionPlugin.js`)
  - Has the same registry with a single `lowestAltitude`.
  - Its handler resets that altitude and visits every loaded model through
    `_checkScene`, which is still an empty stub.

The model has these modules:

- `ExtendedReals`: JavaScript numbers as finite reals plus the two
  infinities. It includes `Math.min` / `Math.max` with any number of
  arguments, so a call with one argument means what it means in
  JavaScript.
- `JsMap`: a JavaScript `Map` as an insertion-ordered map, with `set`,
  `delete`, `size` and value mapping.
- `Geometry`: opaque stand-ins for the three.js values involved: vectors,
  spheres, buffer geometries, scene objects flattened in `traverse` order,
  and mesh and tile identities.
- `TriangleIndices`: `forEachTriangleIndices` as a loop, proved against
  the sequence of triangles it visits.
- `AltitudeScan`: the scan as functions (hits, local fold, store and
  callback, one pass over all tiles) and the loops that compute them.
- `AltitudeDetection`: the first plugin as a class whose methods update its
  registry, snapshots, flag and callback log in place.
- `AltitudeFindings`: what a whole pass stores and reports, for the code as
  written and for the corrected behaviour.
- `MinAltitudeDetection`: the second plugin as a class.

The floating-point geometry is a parameter of the model, a
`GeometryOracle`. It supplies the bounding spheres (`calculateSphere` plus
the world matrix), the sphere-overlap test across the shape's direction,
the skirt test and the altitude of a ray hit. The
`Behaviour` parameter chooses between `AsWritten`, which follows the code,
and `Intended`, which applies the two corrections listed under Findings
and sets the flag when a tile is processed or disposed.

The model follows the code in these behaviours, which a reader might not
expect:

- `updateShape` changes the existing record in place: it keeps the
  direction and the extremes, and replaces the clone and the sphere.
- As written, `processTileModel` and `disposeTile` do not set
  `needsUpdate`. The `Intended` behaviour clears the flag after a completed
  pass, so it must also set the flag in these two operations; otherwise a
  tile that streams in later would never be scanned.
- There is no debounce and no deferred dispatch. The handler runs on every
  `update-after` event while the flag is set.
- `needsUpdate` is never cleared. This is a Findings row.
- Many names in the code are never declared or imported. Taken literally,
  the code throws a `ReferenceError` wherever it reaches one of them. The
  model assumes each name is what its use evidently means: for most, a
  module-level scratch object like the declared `_matrix` and `_normal`.
  - In `AltitudeDetectionPlugin.js`:
    - `Raycaster` on line 4 is not imported, so as written the module
      fails when it loads. The ray cast belongs to the geometry oracle.
    - `_box` on line 24 belongs to `calculateSphere`.
    - `tiles` on line 123 and `_invMatrix` on line 127 belong to the world
      matrices; line 127 is reached for every object with geometry.
    - `_sphere` on line 130 and `_vec` on line 141 belong to the
      sphere-overlap test.
    - `i` on line 174 is the index of the ray's origin vertex. The oracle
      receives the whole triangle.
    - `tile` in `disposeTile` on line 92: the model deletes the snapshot of
      the tile passed in.
    - `_doubleSidedMaterial` on lines 224 and 258 is reached by `addShape`
      and `updateShape` for any mesh with a material. Material
      replacement is left out.
  - In `MinAltitudeDetectionPlugin.js`:
    - `_obb` on lines 8 and 19-26 and `_vec` on line 20 belong to
      `calculateSphere`, which every `addShape` and `updateShape` reaches.
      This is the model's `bound`.
    - `_doubleSidedMaterial` on lines 124 and 157 is reached the same way
      as in the other plugin.
- A loaded tile without a snapshot makes `originalMeshes.get( tile )`
  undefined, and `_checkScene` throws. The model stops the pass at that
  tile and reports it as not completed.
- `forEachTriangleIndices` divides the count by 3 as a real number. A count
  that is not a multiple of 3 gives one last, partial triangle:
  - with an index buffer, its corners past the end of the buffer are
    `undefined` (`None`);
  - without one, they are the positions `3i+1` and `3i+2`, which lie at or
    beyond `position.count`.

## Model

| member | source | states |
|---|---|---|
| ExtendedReals.MathMin | src/three/AltitudeDetectionPlugin.js:182 | `Math.min(...args)` is a lower bound of every argument. It equals one of them, and it is `Infinity` exactly when every argument is `Infinity` (so also for no arguments). |
| ExtendedReals.MathMax | src/three/AltitudeDetectionPlugin.js:183 | `Math.max(...args)` is an upper bound of every argument. It equals one of them, and it is `-Infinity` exactly when every argument is `-Infinity`. |
| ExtendedReals.Min | src/three/AltitudeDetectionPlugin.js:182 | the two-argument minimum is below both arguments and is one of them |
| ExtendedReals.Max | src/three/AltitudeDetectionPlugin.js:183 | the two-argument maximum is above both arguments and is one of them |
| TriangleIndices.ForEachTriangleIndices | src/three/AltitudeDetectionPlugin.js:291-313 | the loop makes exactly the calls in `Triangles(g)`, in order |
| TriangleIndices.TriangleCountMatchesRealBound | src/three/AltitudeDetectionPlugin.js:295-296 | the loop index `i` passes the guard `i < count / 3` (real division) exactly when `i` is below the number of triangles |
| TriangleIndices.NonIndexedTriangles | src/three/AltitudeDetectionPlugin.js:295-300 | with no index buffer and a position count that is a multiple of 3, there are `count/3` calls, and call `i` gets `(3i, 3i+1, 3i+2)` |
| TriangleIndices.IndexedTriangles | src/three/AltitudeDetectionPlugin.js:301-307 | with an index buffer whose length is a multiple of 3, there are `length/3` calls, and call `i` gets `(index[3i], index[3i+1], index[3i+2])` |
| TriangleIndices.AllCornersDefinedIffWholeTriangles | src/three/AltitudeDetectionPlugin.js:295-309 | every corner of every call is defined (an existing index entry, or with no index buffer a position below `position.count`) exactly when the count is a multiple of 3 |
| AltitudeScan.Reset | src/three/AltitudeDetectionPlugin.js:64-65 | a reset record has the sentinels `Infinity` / `-Infinity` and keeps its shape, direction and sphere |
| AltitudeScan.ResetAll | src/three/AltitudeDetectionPlugin.js:62-68 | the reset loop keeps every key and the key order, and resets every record |
| AltitudeScan.Hits | src/three/AltitudeDetectionPlugin.js:159-185 | the hits of one shape over a mesh number at most the triangles, and every hit is a finite altitude |
| AltitudeScan.LocalExtremesOrdered | src/three/AltitudeDetectionPlugin.js:157-187 | once one hit has been folded in, the local minimum and maximum are finite and the minimum is at most the maximum |
| AltitudeScan.ScanShape | src/three/AltitudeDetectionPlugin.js:157-187 | the triangle loop leaves the least and greatest hit altitudes in `minAltitude` / `maxAltitude`. With no hit they stay at the sentinels; otherwise they are finite and ordered. |
| AltitudeScan.StoreAsWritten | src/three/AltitudeDetectionPlugin.js:191-192 | storing `Math.min( info.minAltitude )` and `Math.max( info.maxAltitude )` leaves the record unchanged |
| AltitudeScan.StoreIntended | src/three/AltitudeDetectionPlugin.js:189-192 | the corrected store keeps the shape and lowers (raises) the stored extreme to the lesser (greater) of the old value and the local one |
| AltitudeScan.ShapeStep | src/three/AltitudeDetectionPlugin.js:132-200 | one (mesh, shape) pair keeps the shape, direction and sphere, and makes at most one callback. Its arguments are the stored extremes after the store and the shape. As written, the record never changes. |
| AltitudeScan.ShapeStepOnlyWhenBeaten | src/three/AltitudeDetectionPlugin.js:145-198 | a pair changes the record or calls back only when the spheres overlap and the local extremes beat the stored ones; a mesh without hits does neither |
| AltitudeScan.CheckShape | src/three/AltitudeDetectionPlugin.js:132-200 | the body of the inner `shapes.forEach`, as code, computes `ShapeStep` |
| AltitudeScan.NodeStep | src/three/AltitudeDetectionPlugin.js:132-202 | `shapes.forEach` for one object keeps every key and every shape, direction and sphere |
| AltitudeScan.SceneStep | src/three/AltitudeDetectionPlugin.js:109-204 | `traverse` over a snapshot skips objects without geometry and keeps every key and every shape, direction and sphere |
| AltitudeScan.TilesStep | src/three/AltitudeDetectionPlugin.js:70-74 | scanning tiles in turn keeps every key and every shape, direction and sphere |
| AltitudeScan.ScanNode | src/three/AltitudeDetectionPlugin.js:132-202 | the `shapes.forEach` loop computes `NodeStep` |
| AltitudeScan.ScanScene | src/three/AltitudeDetectionPlugin.js:109-204 | the `traverse` loop computes `SceneStep` |
| AltitudeScan.ScannedTiles | src/three/AltitudeDetectionPlugin.js:70-74 | a pass scans the loaded tiles up to the first one without a snapshot, where `_checkScene` throws (line 107) |
| AltitudeScan.ScanTiles | src/three/AltitudeDetectionPlugin.js:70-74 | the `forEachLoadedModel` loop scans exactly `ScannedTiles` tiles and computes `TilesStep` over them |
| AltitudeScan.UpdatePass | src/three/AltitudeDetectionPlugin.js:59-78 | with the flag clear, a pass changes nothing and calls nothing. Otherwise it keeps the keys and completes exactly when every loaded tile has a snapshot. The flag stays set as written; with `Intended` it is cleared after a completed pass. |
| AltitudeDetection.AltitudeDetectionPlugin.constructor | src/three/AltitudeDetectionPlugin.js:34-53 | empty registry, no snapshots, `needsUpdate` set, no callbacks |
| AltitudeDetection.AltitudeDetectionPlugin.ProcessTileModel | src/three/AltitudeDetectionPlugin.js:84-88 | the tile's snapshot is the given model, and registry and callbacks are unchanged. The flag is kept as written, and set with `Intended`. |
| AltitudeDetection.AltitudeDetectionPlugin.DisposeTile | src/three/AltitudeDetectionPlugin.js:90-94 | the tile's snapshot is gone and every other snapshot is kept. Registry and callbacks are unchanged. The flag is kept as written, and set with `Intended`. |
| AltitudeDetection.AltitudeDetectionPlugin.HasShape | src/three/AltitudeDetectionPlugin.js:209-213 | true exactly when the mesh is registered; nothing changes |
| AltitudeDetection.AltitudeDetectionPlugin.AddShape | src/three/AltitudeDetectionPlugin.js:215-240 | the mesh maps to a record with its clone, the direction (default `(0,0,-1)`), its sphere and the sentinels. Other records are kept. Re-adding does not grow the registry. The flag is set. |
| AltitudeDetection.AltitudeDetectionPlugin.UpdateShape | src/three/AltitudeDetectionPlugin.js:242-266 | an unregistered mesh gives the error and changes nothing, the flag included. Otherwise only the clone and sphere are replaced; direction and extremes are kept, and the flag is set. |
| AltitudeDetection.AltitudeDetectionPlugin.DeleteShape | src/three/AltitudeDetectionPlugin.js:268-273 | returns whether the mesh was registered, removes it, and sets the flag either way |
| AltitudeDetection.AltitudeDetectionPlugin.ClearShapes | src/three/AltitudeDetectionPlugin.js:275-287 | on an empty registry nothing changes, the flag included; otherwise the registry is emptied and the flag set |
| AltitudeDetection.AltitudeDetectionPlugin.ResetExtremes | src/three/AltitudeDetectionPlugin.js:62-68 | the reset loop leaves `ResetAll` of the registry |
| AltitudeDetection.AltitudeDetectionPlugin.CheckScene | src/three/AltitudeDetectionPlugin.js:103-206 | `_checkScene( tile )` updates the registry and appends the callbacks exactly as `SceneStep` over the tile's snapshot |
| AltitudeDetection.AltitudeDetectionPlugin.CheckLoadedTiles | src/three/AltitudeDetectionPlugin.js:70-74 | the tile loop scans the tiles up to the first one without a snapshot, as `TilesStep`, and reports whether it reached the end |
| AltitudeDetection.AltitudeDetectionPlugin.OnUpdateAfter | src/three/AltitudeDetectionPlugin.js:59-78 | the handler leaves the registry, flag and callbacks of `UpdatePass` |
| AltitudeFindings.MathMinMaxConcat | src/three/AltitudeDetectionPlugin.js:182-183 | folding `Math.min` / `Math.max` over two runs of hits combines the two runs' extremes |
| AltitudeFindings.HitsIgnoreExtremes | src/three/AltitudeDetectionPlugin.js:134-138 | the hits depend on the shape, direction and sphere, never on the stored extremes |
| AltitudeFindings.IntendedShapeStepWidens | src/three/AltitudeDetectionPlugin.js:189-192 | with the corrected store, a pair widens the stored extremes by exactly the pair's hits (none when the spheres do not overlap) |
| AltitudeFindings.IntendedNodeStepWidens | src/three/AltitudeDetectionPlugin.js:132-202 | for one object, every listed shape is widened by its own hits, and the others are untouched |
| AltitudeFindings.IntendedSceneStepWidens | src/three/AltitudeDetectionPlugin.js:109-204 | for one snapshot, every shape is widened by its hits from every object |
| AltitudeFindings.IntendedTilesStepWidens | src/three/AltitudeDetectionPlugin.js:70-74 | over the scanned tiles, every shape is widened by its hits from every tile |
| AltitudeFindings.IntendedPassFindsExtremes | src/three/AltitudeDetectionPlugin.js:59-78 | with the corrected store, a pass leaves each shape's lowest and highest hit over every overlapping object of every scanned tile (the sentinels when there is none) |
| AltitudeFindings.IntendedPassSettles | src/three/AltitudeDetectionPlugin.js:59-78 | with the flag cleared, the event after a completed pass changes nothing and calls nothing |
| AltitudeFindings.TilesHitsCoverTile | src/three/AltitudeDetectionPlugin.js:70-74 | the extremes over all scanned tiles bound the extremes over any one of them |
| AltitudeFindings.IntendedPassSeesNewTile | src/three/AltitudeDetectionPlugin.js:84-88 | with the flag set on `processTileModel`, the following pass completes once every loaded tile has a snapshot. It clears the flag, and every shape's stored extremes take in the new tile's hits. |
| AltitudeFindings.AsWrittenStepDropsHits | src/three/AltitudeDetectionPlugin.js:189-198 | as written, a reset record whose mesh overlaps and yields a hit keeps the sentinels, and the callback reports `Infinity, -Infinity` although the local minimum is finite |
| AltitudeFindings.AsWrittenNodeStep | src/three/AltitudeDetectionPlugin.js:132-202 | as written, a registry at the sentinels is left unchanged by one object, and every callback reports the sentinels |
| AltitudeFindings.AsWrittenSceneStep | src/three/AltitudeDetectionPlugin.js:109-204 | as written, the same holds for a whole snapshot |
| AltitudeFindings.AsWrittenTilesStep | src/three/AltitudeDetectionPlugin.js:70-74 | as written, the same holds for all scanned tiles |
| AltitudeFindings.AsWrittenPassKeepsSentinels | src/three/AltitudeDetectionPlugin.js:59-78 | as written, a pass leaves exactly the reset registry, keeps the flag set, and every callback reports the sentinels |
| AltitudeFindings.ResetAllIdempotent | src/three/AltitudeDetectionPlugin.js:62-68 | resetting twice is resetting once |
| AltitudeFindings.AsWrittenPassRepeats | src/three/AltitudeDetectionPlugin.js:59-78 | as written, the event after a pass runs the same pass again, with the same registry and callbacks, and the flag still set |
| AltitudeFindings.PassForgetsPreviousExtremes | src/three/AltitudeDetectionPlugin.js:62-68 | registries that differ only in their stored extremes give the same pass |
| AltitudeFindings.ExampleHitLostAsWritten | src/three/AltitudeDetectionPlugin.js:182-196 | for one triangle hit at altitude 5, the code as written stores and reports `Infinity, -Infinity`; the corrected store keeps and reports `5, 5` |
| MinAltitudeDetection.ResetLowest | src/three/MinAltitudeDetectionPlugin.js:64 | a reset record has `lowestAltitude` `Infinity` and keeps its shape, direction and sphere |
| MinAltitudeDetection.MinPass | src/three/MinAltitudeDetectionPlugin.js:58-76 | with the flag clear a pass changes nothing; otherwise it keeps the keys and their order, and every record's lowest altitude is `Infinity` afterwards |
| MinAltitudeDetection.MinPassIdempotent | src/three/MinAltitudeDetectionPlugin.js:58-76 | a pass after a pass leaves the registry as the first one did |
| MinAltitudeDetection.MinPassForgetsLowest | src/three/MinAltitudeDetectionPlugin.js:62-66 | registries that differ only in their lowest altitudes give the same pass |
| MinAltitudeDetection.MinAltitudeDetectionPlugin.constructor | src/three/MinAltitudeDetectionPlugin.js:34-52 | empty registry, `needsUpdate` set |
| MinAltitudeDetection.MinAltitudeDetectionPlugin.HasShape | src/three/MinAltitudeDetectionPlugin.js:109-113 | true exactly when the mesh is registered; nothing changes |
| MinAltitudeDetection.MinAltitudeDetectionPlugin.AddShape | src/three/MinAltitudeDetectionPlugin.js:115-139 | the mesh maps to a record with its clone, the direction (default `(0,0,-1)`), its sphere and `lowestAltitude` `Infinity`. Other records are kept. Re-adding does not grow the registry. The flag is set. |
| MinAltitudeDetection.MinAltitudeDetectionPlugin.UpdateShape | src/three/MinAltitudeDetectionPlugin.js:141-165 | an unregistered mesh gives the error and changes nothing, the flag included. Otherwise only the clone and sphere are replaced; direction and lowest altitude are kept, and the flag is set. |
| MinAltitudeDetection.MinAltitudeDetectionPlugin.DeleteShape | src/three/MinAltitudeDetectionPlugin.js:167-172 | returns whether the mesh was registered, removes it, and sets the flag either way |
| MinAltitudeDetection.MinAltitudeDetectionPlugin.ClearShapes | src/three/MinAltitudeDetectionPlugin.js:174-186 | on an empty registry nothing changes, the flag included; otherwise the registry is emptied and the flag set |
| MinAltitudeDetection.MinAltitudeDetectionPlugin.CheckScene | src/three/MinAltitudeDetectionPlugin.js:89-106 | the stub visits every shape and object and changes nothing |
| MinAltitudeDetection.MinAltitudeDetectionPlugin.OnUpdateAfter | src/three/MinAltitudeDetectionPlugin.js:58-76 | the handler leaves the registry of `MinPass` and keeps the flag as it was |

## Left out

- The floating-point geometry is left out. This covers `calculateSphere`
  in both files (bounding box, oriented box, sphere) and the world and
  inverse matrices. It also covers the projected sphere-overlap test, the
  triangle normal, the 0.1 skirt threshold, the ray origin at
  `RAYCAST_DISTANCE`, `Raycaster.intersectObject` and the hit's dot
  product. All of these are parameters of the model (`GeometryOracle`,
  `bound`), never computed.
- Cloning meshes and scenes, `updateMatrixWorld`, and replacing materials
  with the double-sided material are left out. These are scene-graph
  library calls; shapes and snapshots are opaque values, and a clone is the
  same value.
- `init` and `dispose` are left out: they register and unregister the
  listener, and `dispose` uses the undefined name `tiles`. The handler is
  modelled as the method `OnUpdateAfter`. The set of loaded tiles or models
  is its parameter.
- The order `traverse` visits a scene in is the order of `Scene.nodes`. The
  tree shape of a scene is not modelled.
- The `name` and `priority` fields are constants of each module.
- Exceptions other than the `updateShape` error are left out, with one
  exception: the missing-snapshot case stops the pass and is reported as
  not completed.
- The React wrapper, the example application and the build configuration
  are not part of this model.
- MinAltitudeDetection.MinAltitudeDetectionPlugin.CheckScene: the stub
  destructures an undefined `threshold`. The model has no such field,
  because nothing reads it.

## Findings

| source | as written | input that shows it | evidently intended | confidence | as-written member | corrected member |
|---|---|---|---|---|---|---|
| src/three/AltitudeDetectionPlugin.js:191-192 | `Math.min( info.minAltitude )` and `Math.max( info.maxAltitude )` take one argument, so they store the old values back and discard the local extremes | a reset shape and one mesh of one triangle, spheres overlapping, hit at altitude 5: the record stays at `Infinity` / `-Infinity` and the callback reports `Infinity, -Infinity` | store `Math.min( info.minAltitude, minAltitude )` and `Math.max( info.maxAltitude, maxAltitude )`, so a pass finds each shape's lowest and highest hit | high; not executed | AltitudeFindings.ExampleHitLostAsWritten | AltitudeFindings.IntendedPassFindsExtremes |
| src/three/AltitudeDetectionPlugin.js:59-78 | `needsUpdate` is set by the registry operations that change the registry and is never cleared, so every `update-after` event reruns the full scan | any registry and any loaded tiles: the event after a pass runs the same pass and repeats every callback | clear the flag once a pass has scanned every loaded tile, and set it again when a tile is processed or disposed (`IntendedPassSeesNewTile`) | medium; not executed | AltitudeFindings.AsWrittenPassRepeats | AltitudeFindings.IntendedPassSettles |
