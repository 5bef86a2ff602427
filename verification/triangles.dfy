/**
 * `forEachTriangleIndices`: the vertex indices of each triangle of a
 * geometry, read from the index buffer when there is one.
 */
module TriangleIndices {
  import opened Wrappers
  import opened Geometry

  /**
   * The three indices handed to one callback. `None` is JavaScript
   * `undefined`, read past the end of the index buffer.
   */
  datatype Tri = Tri(i0: Option<nat>, i1: Option<nat>, i2: Option<nat>)

  /** `index.count` when there is an index buffer, `position.count` otherwise. */
  function Count(g: BufferGeometry): nat {
    if g.index.Some? then |g.index.value| else g.positionCount
  }

  /** `index.getX(k)`: the entry, or `undefined` past the end. */
  function GetX(index: seq<nat>, k: nat): Option<nat> {
    if k < |index| then Some(index[k]) else None
  }

  /** The vertex index for corner number `k` of the flattened triangle list. */
  function Corner(g: BufferGeometry, k: nat): Option<nat> {
    match g.index
    case None => Some(k)
    case Some(index) => GetX(index, k)
  }

  /**
   * The number of callbacks: the loop runs while `i < triCount` with
   * `triCount = count / 3` in real division, i.e. the count rounded up.
   */
  function TriangleCount(g: BufferGeometry): nat {
    (Count(g) + 2) / 3
  }

  /** The callbacks of `forEachTriangleIndices(g, callback)`, in call order. */
  function Triangles(g: BufferGeometry): seq<Tri> {
    seq(TriangleCount(g), i requires 0 <= i => Tri(Corner(g, 3 * i), Corner(g, 3 * i + 1), Corner(g, 3 * i + 2)))
  }

  /** Iteration `i` happens exactly when `i < count / 3` holds in real arithmetic. */
  lemma TriangleCountMatchesRealBound(g: BufferGeometry, i: nat)
    ensures i < TriangleCount(g) <==> (i as real) < (Count(g) as real) / 3.0
  {
    var c := Count(g);
    var n := (c + 2) / 3;
    assert 3 * n <= c + 2 < 3 * n + 3;
    assert (i as real) < (c as real) / 3.0 <==> 3 * i < c;
  }

  /** Loops over the triangles, handing each one's indices to the callback. */
  method ForEachTriangleIndices(g: BufferGeometry) returns (calls: seq<Tri>)
    ensures calls == Triangles(g)
  {
    var triCount: real := (Count(g) as real) / 3.0;
    calls := [];
    var i: nat := 0;
    while (i as real) < triCount
      invariant i <= TriangleCount(g)
      invariant calls == Triangles(g)[..i]
      decreases Count(g) - 3 * i
    {
      TriangleCountMatchesRealBound(g, i);
      var i0, i1, i2 := Some(3 * i + 0), Some(3 * i + 1), Some(3 * i + 2);
      if g.index.Some? {
        i0 := GetX(g.index.value, 3 * i + 0);
        i1 := GetX(g.index.value, 3 * i + 1);
        i2 := GetX(g.index.value, 3 * i + 2);
      }
      calls := calls + [Tri(i0, i1, i2)];
      i := i + 1;
    }
    TriangleCountMatchesRealBound(g, i);
  }

  /** Without an index buffer and with a whole number of triangles, call `i` gets `(3i, 3i+1, 3i+2)`. */
  lemma NonIndexedTriangles(g: BufferGeometry, i: nat)
    requires g.index.None? && g.positionCount % 3 == 0 && i < g.positionCount / 3
    ensures |Triangles(g)| == g.positionCount / 3
    ensures Triangles(g)[i] == Tri(Some(3 * i), Some(3 * i + 1), Some(3 * i + 2))
  {
  }

  /** With an index buffer of whole triangles, call `i` gets `(index[3i], index[3i+1], index[3i+2])`. */
  lemma IndexedTriangles(g: BufferGeometry, i: nat)
    requires g.index.Some? && |g.index.value| % 3 == 0 && i < |g.index.value| / 3
    ensures |Triangles(g)| == |g.index.value| / 3
    ensures Triangles(g)[i] == Tri(Some(g.index.value[3 * i]), Some(g.index.value[3 * i + 1]), Some(g.index.value[3 * i + 2]))
  {
  }

  /** A corner reads a real vertex: a defined index entry, or a position below `position.count`. */
  predicate CornerDefined(g: BufferGeometry, c: Option<nat>) {
    c.Some? && (g.index.None? ==> c.value < g.positionCount)
  }

  predicate TriDefined(g: BufferGeometry, t: Tri) {
    CornerDefined(g, t.i0) && CornerDefined(g, t.i1) && CornerDefined(g, t.i2)
  }

  /**
   * Every callback reads only real vertices exactly when the count is a
   * multiple of 3; otherwise the rounded-up loop makes one last call with
   * indices past the end.
   */
  lemma AllCornersDefinedIffWholeTriangles(g: BufferGeometry)
    ensures (forall i :: 0 <= i < |Triangles(g)| ==> TriDefined(g, Triangles(g)[i])) <==> Count(g) % 3 == 0
  {
    var ts := Triangles(g);
    var c := Count(g);
    if c % 3 == 0 {
      forall i | 0 <= i < |ts| ensures TriDefined(g, ts[i]) {
        assert 3 * i + 2 < c;
      }
    } else {
      var last := |ts| - 1;
      assert 3 * last + 2 >= c;
      assert !CornerDefined(g, Corner(g, 3 * last + 2));
      assert !TriDefined(g, ts[last]);
    }
  }
}
