/**
 * The triangle mesh that the cloth and the tree write into (the `Mesh` type of
 * the `ike` engine): an ordered vertex buffer and an index buffer of `u32`
 * values, three per triangle. Only the two buffers are modelled; the dirty
 * flags and the GPU upload belong to the renderer.
 */
module Meshes {
  import opened Vectors

  /** An RGBA colour (`Color`). */
  datatype Color = Color(r: real, g: real, b: real, a: real)

  /** `Color::rgb`: an opaque colour. */
  function Rgb(r: real, g: real, b: real): Color {
    Color(r, g, b, 1.0)
  }

  datatype Vertex = Vertex(position: Vec3, normal: Vec3, uv: Vec2, color: Color)

  /**
   * `a` and `b` agree in everything but the normal. The engine's
   * `calculate_normals` recomputes normals after a mesh is built or moved.
   */
  predicate SameButNormal(a: Vertex, b: Vertex) {
    a.position == b.position && a.uv == b.uv && a.color == b.color
  }

  const U32Modulus: nat := 0x1_0000_0000

  /**
   * The `as u32` cast of a `usize` (or a wrapping `u32` addition): keeps the
   * low 32 bits. It never increases a value and is the identity below 2^32.
   */
  function U32(v: nat): (r: nat)
    ensures r < U32Modulus
    ensures r <= v
    ensures v < U32Modulus ==> r == v
  {
    v % U32Modulus
  }

  /** The indices `start .. start + n`, in order (what a run of pushes returns). */
  function Range(start: nat, n: nat): (r: seq<nat>)
    ensures |r| == n
    ensures forall k :: 0 <= k < n ==> r[k] == start + k
  {
    seq(n, k => start + k)
  }

  /** Every index of `indices` names a vertex of a buffer of `count` vertices. */
  ghost predicate IndicesBelow(indices: seq<nat>, count: nat) {
    forall k :: 0 <= k < |indices| ==> indices[k] < count
  }

  /** Two index lists below `count` together stay below `count`. */
  lemma IndicesBelowConcat(a: seq<nat>, b: seq<nat>, count: nat)
    requires IndicesBelow(a, count) && IndicesBelow(b, count)
    ensures IndicesBelow(a + b, count)
  {
    forall k | 0 <= k < |a + b| ensures (a + b)[k] < count {
      if k >= |a| { assert (a + b)[k] == b[k - |a|]; }
    }
  }

  /** Indices of existing vertices stay valid when vertices are added. */
  lemma IndicesBelowGrow(indices: seq<nat>, count: nat, count': nat)
    requires IndicesBelow(indices, count) && count <= count'
    ensures IndicesBelow(indices, count')
  {
  }

  /** Appending to a buffer in two steps is appending the two parts at once. */
  lemma AppendAssoc<T>(a: seq<T>, b: seq<T>, c: seq<T>)
    ensures (a + b) + c == a + (b + c)
  {
  }

  class Mesh {
    var vertices: seq<Vertex>
    var indices: seq<nat>

    /** The mesh invariant: every index refers to an existing vertex. */
    ghost predicate WellFormed()
      reads this
    {
      IndicesBelow(indices, |vertices|)
    }

    /** `Mesh::default()`: both buffers empty. */
    constructor ()
      ensures vertices == [] && indices == []
      ensures WellFormed()
    {
      vertices := [];
      indices := [];
    }
  }
}
