/**
 * The three.js values the plugins handle, kept opaque: the plugins only
 * store, clone and pass them on to geometric tests. A clone is the same
 * value; object identity lives in `MeshRef` and `TileRef`.
 */
module Geometry {
  import opened Wrappers

  datatype Vec3 = Vec3(x: real, y: real, z: real)

  datatype Sphere = Sphere(center: Vec3, radius: real)

  /**
   * A `BufferGeometry` as `forEachTriangleIndices` sees it: the optional
   * index buffer and the number of entries in the position attribute.
   */
  datatype BufferGeometry = BufferGeometry(index: Option<seq<nat>>, positionCount: nat)

  /** One object visited by `traverse`; `id` stands for its transform and vertex data. */
  datatype SceneNode = SceneNode(id: nat, geometry: Option<BufferGeometry>)

  /** An object tree, flattened in `traverse` order. */
  datatype Scene = Scene(nodes: seq<SceneNode>)

  /** The identity of a user mesh, the key of the shape registry. */
  datatype MeshRef = MeshRef(id: nat)

  /** The identity of a tile, the key of the snapshot map. */
  datatype TileRef = TileRef(id: nat)

  /** `new Vector3( 0, 0, - 1 )`, the default direction of `addShape`. */
  const DefaultDirection := Vec3(0.0, 0.0, -1.0)
}
