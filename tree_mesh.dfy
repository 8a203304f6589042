/**
 * The mesh-building helpers of the procedural tree: rings of vertices, a
 * branch segment (a ring placed at the end of a rotated stick and bridged to
 * the ring below it), the triangle strip between two rings, and the leaf
 * sphere. Each helper appends to the vertex and index buffers of a `Mesh`.
 *
 * Trigonometry (`cos`, `sin`, `acos`) and the quaternion built from a branch's
 * Euler angles are not modelled: they are supplied as functions in a `Trig`
 * value, so every statement below holds whatever those functions compute.
 */
module TreeMesh {
  import opened Vectors
  import opened Meshes

  /** `std::f32::consts::TAU` (2π rounded to `f32`). */
  const Tau: real := 6.2831855

  /**
   * The numeric functions the mesh builders call. `rotate(euler, v)` is the
   * rotation of `v` by the quaternion `euler_rot(euler)`.
   */
  datatype Trig = Trig(
    cos: real -> real,
    sin: real -> real,
    acos: real -> real,
    rotate: (Vec3, Vec3) -> Vec3)

  function Abs(x: real): real {
    if x < 0.0 then -x else x
  }

  // ---------------------------------------------------------------------
  // Rings
  // ---------------------------------------------------------------------

  /** Vertex `i` of a ring of `res` vertices: a point on a horizontal circle. */
  function RingVertex(color: Color, radius: real, res: nat, i: nat, trig: Trig): Vertex
    requires i < res
  {
    var a := i as real / res as real * Tau;
    Vertex(Scale(Vec3(trig.cos(a), 0.0, trig.sin(a)), radius), Zero3, Zero2, color)
  }

  /** The first `n` vertices of a ring of `res` vertices. */
  function RingVertices(color: Color, radius: real, res: nat, n: nat, trig: Trig): (r: seq<Vertex>)
    requires n <= res
    ensures |r| == n
    ensures forall i :: 0 <= i < n ==> r[i].color == color && r[i].position.y == 0.0
  {
    seq(n, i requires 0 <= i < n => RingVertex(color, radius, res, i, trig))
  }

  /** `Ring`: a loop of vertices that is moved into place and then inserted into a mesh. */
  class Ring {
    var vertices: seq<Vertex>

    /** `Ring::new`: `res` vertices evenly spaced on a circle of `radius` in the XZ plane. */
    constructor (color: Color, radius: real, res: nat, trig: Trig)
      ensures vertices == RingVertices(color, radius, res, res, trig)
    {
      var built: seq<Vertex> := [];
      for i := 0 to res
        invariant built == RingVertices(color, radius, res, i, trig)
      {
        built := built + [RingVertex(color, radius, res, i, trig)];
      }
      vertices := built;
    }

    /** `Ring::rotate`: rotates every position; nothing else about a vertex changes. */
    method Rotate(euler: Vec3, trig: Trig)
      modifies this
      ensures |vertices| == |old(vertices)|
      ensures forall i :: 0 <= i < |vertices| ==>
        vertices[i] == old(vertices[i]).(position := trig.rotate(euler, old(vertices[i]).position))
    {
      for i := 0 to |vertices|
        invariant |vertices| == |old(vertices)|
        invariant forall k :: 0 <= k < i ==>
          vertices[k] == old(vertices[k]).(position := trig.rotate(euler, old(vertices[k]).position))
        invariant forall k :: i <= k < |vertices| ==> vertices[k] == old(vertices[k])
      {
        vertices := vertices[i := vertices[i].(position := trig.rotate(euler, vertices[i].position))];
      }
    }

    /** `Ring::translate`: shifts every position by `t`; nothing else about a vertex changes. */
    method Translate(t: Vec3)
      modifies this
      ensures |vertices| == |old(vertices)|
      ensures forall i :: 0 <= i < |vertices| ==>
        vertices[i] == old(vertices[i]).(position := Add(old(vertices[i]).position, t))
    {
      for i := 0 to |vertices|
        invariant |vertices| == |old(vertices)|
        invariant forall k :: 0 <= k < i ==>
          vertices[k] == old(vertices[k]).(position := Add(old(vertices[k]).position, t))
        invariant forall k :: i <= k < |vertices| ==> vertices[k] == old(vertices[k])
      {
        vertices := vertices[i := vertices[i].(position := Add(vertices[i].position, t))];
      }
    }

    /**
     * `Ring::insert`: appends the ring's vertices to the mesh in order and
     * returns the index each one received. Earlier vertices and the index
     * buffer are untouched.
     */
    method Insert(mesh: Mesh) returns (indices: seq<nat>)
      modifies mesh
      ensures mesh.vertices == old(mesh.vertices) + vertices
      ensures mesh.indices == old(mesh.indices)
      ensures indices == Range(|old(mesh.vertices)|, |vertices|)
    {
      indices := [];
      for k := 0 to |vertices|
        invariant mesh.vertices == old(mesh.vertices) + vertices[..k]
        invariant mesh.indices == old(mesh.indices)
        invariant indices == Range(|old(mesh.vertices)|, k)
      {
        var index := |mesh.vertices|;
        mesh.vertices := mesh.vertices + [vertices[k]];
        indices := indices + [index];
        assert vertices[..k + 1] == vertices[..k] + [vertices[k]];
      }
      assert vertices[..|vertices|] == vertices;
    }
  }

  // ---------------------------------------------------------------------
  // Bridging two rings
  // ---------------------------------------------------------------------

  /**
   * The two triangles between edge `i` of ring `from` and edge `i` of ring
   * `to`; the edge runs from vertex `i` to its neighbour `(i + 1) % n`, so the
   * last quad closes the loop. Indices are cast to `u32`.
   */
  function BridgeQuad(from: seq<nat>, to: seq<nat>, i: nat): (r: seq<nat>)
    requires |from| == |to| && i < |from|
    ensures |r| == 6
  {
    var j := (i + 1) % |from|;
    [U32(from[i]), U32(to[i]), U32(from[j]), U32(from[j]), U32(to[i]), U32(to[j])]
  }

  /** The indices `bridge_loops` appends after its first `n` iterations. */
  function BridgeIndices(from: seq<nat>, to: seq<nat>, n: nat): (r: seq<nat>)
    requires |from| == |to| && n <= |from|
    ensures |r| == 6 * n
  {
    if n == 0 then [] else BridgeIndices(from, to, n - 1) + BridgeQuad(from, to, n - 1)
  }

  /** Entry `c` of quad `i` sits at position `6 * i + c`, whatever the later quads. */
  lemma {:induction false} BridgeIndicesAt(from: seq<nat>, to: seq<nat>, n: nat, i: nat, c: nat)
    requires |from| == |to| && i < n <= |from| && c < 6
    ensures BridgeIndices(from, to, n)[6 * i + c] == BridgeQuad(from, to, i)[c]
  {
    if i < n - 1 {
      BridgeIndicesAt(from, to, n - 1, i, c);
    }
  }

  /** Bridging two rings of vertices below `count` yields indices below `count`. */
  lemma {:induction false} BridgeBelow(from: seq<nat>, to: seq<nat>, n: nat, count: nat)
    requires |from| == |to| && n <= |from|
    requires IndicesBelow(from, count) && IndicesBelow(to, count)
    ensures IndicesBelow(BridgeIndices(from, to, n), count)
  {
    if n > 0 {
      BridgeBelow(from, to, n - 1, count);
      var j := (n - 1 + 1) % |from|;
      assert from[j] < count && to[j] < count;
    }
  }

  /**
   * `bridge_loops`: joins two rings of equal size with two triangles per
   * edge, `6 * n` indices in all, and adds no vertex. (Rings of different
   * sizes make the source panic.)
   */
  method BridgeLoops(mesh: Mesh, from: seq<nat>, to: seq<nat>)
    requires |from| == |to|
    modifies mesh
    ensures mesh.vertices == old(mesh.vertices)
    ensures mesh.indices == old(mesh.indices) + BridgeIndices(from, to, |from|)
  {
    for i := 0 to |from|
      invariant mesh.vertices == old(mesh.vertices)
      invariant mesh.indices == old(mesh.indices) + BridgeIndices(from, to, i)
    {
      PushQuad(mesh, from, to, i);
      AppendAssoc(old(mesh.indices), BridgeIndices(from, to, i), BridgeQuad(from, to, i));
    }
  }

  /** One pass of the bridging loop: the two triangles between loop positions `i` and `i + 1`. */
  method PushQuad(mesh: Mesh, from: seq<nat>, to: seq<nat>, i: nat)
    requires |from| == |to| && i < |from|
    modifies mesh
    ensures mesh.vertices == old(mesh.vertices)
    ensures mesh.indices == old(mesh.indices) + BridgeQuad(from, to, i)
  {
    var j := (i + 1) % |from|;
    mesh.indices := mesh.indices + [U32(from[i])];
    mesh.indices := mesh.indices + [U32(to[i])];
    mesh.indices := mesh.indices + [U32(from[j])];
    mesh.indices := mesh.indices + [U32(from[j])];
    mesh.indices := mesh.indices + [U32(to[i])];
    mesh.indices := mesh.indices + [U32(to[j])];
  }

  // ---------------------------------------------------------------------
  // Branch segments
  // ---------------------------------------------------------------------

  /** `BranchBase`: the ring a branch grows from, where it sits and how it is turned. */
  datatype BranchBase = BranchBase(indices: seq<nat>, position: Vec3, rotation: Vec3)

  /** `Branch`: one straight segment of trunk or branch. */
  datatype Branch = Branch(position: Vec3, rotation: Vec3, res: nat, color: Color, radius: real, length: real)
  {
    /** The end of the segment: `length` along the rotated +Y axis from its start. */
    function Tip(trig: Trig): Vec3 {
      Add(position, Scale(trig.rotate(rotation, UnitY), length))
    }

    /** The ring at the end of the segment: a ring rotated by the branch's angles and moved to the tip. */
    function EndRing(trig: Trig): (r: seq<Vertex>)
      ensures |r| == res
    {
      seq(res, i requires 0 <= i < res =>
        var v := RingVertex(color, radius, res, i, trig);
        v.(position := Add(trig.rotate(rotation, v.position), Tip(trig))))
    }

    /**
     * `Branch::generate`: appends the end ring (`res` vertices), bridges it to
     * the ring `base` below (`6 * res` indices), and returns the new ring as
     * the base of the next segment, at the tip and with this segment's angles.
     */
    method Generate(mesh: Mesh, base: seq<nat>, trig: Trig) returns (b: BranchBase)
      requires |base| == res
      modifies mesh
      ensures b == BranchBase(Range(|old(mesh.vertices)|, res), Tip(trig), rotation)
      ensures mesh.vertices == old(mesh.vertices) + EndRing(trig)
      ensures mesh.indices == old(mesh.indices) + BridgeIndices(base, b.indices, res)
    {
      var ring := new Ring(color, radius, res, trig);
      ring.Rotate(rotation, trig);
      var direction := trig.rotate(rotation, UnitY);
      var tip := Add(position, Scale(direction, length));
      ring.Translate(tip);
      assert ring.vertices == EndRing(trig);
      var indices := ring.Insert(mesh);
      BridgeLoops(mesh, base, indices);
      b := BranchBase(indices, tip, rotation);
    }
  }

  // ---------------------------------------------------------------------
  // Leaf spheres
  // ---------------------------------------------------------------------

  /** Vertex `j` of latitude band `i` of a sphere: six bands of six vertices from bottom to top. */
  function SphereVertex(center: Vec3, radius: real, color: Color, i: nat, j: nat, trig: Trig): Vertex {
    var h := i as real / 2.5 - 1.0;
    var t := trig.sin(trig.acos(Abs(h)));
    var a := j as real / 6.0 * Tau;
    Vertex(Add(center, Scale(Vec3(trig.cos(a) * t, h, trig.sin(a) * t), radius)), Zero3, Zero2, color)
  }

  /** The first `n` vertices of band `i`. */
  function SphereBand(center: Vec3, radius: real, color: Color, i: nat, n: nat, trig: Trig): (r: seq<Vertex>)
    ensures |r| == n
  {
    seq(n, j requires 0 <= j => SphereVertex(center, radius, color, i, j, trig))
  }

  /** The vertices of the first `bands` bands; band `i` sits at height `i / 2.5 - 1` of the radius. */
  function SphereVertices(center: Vec3, radius: real, color: Color, bands: nat, trig: Trig): (r: seq<Vertex>)
    ensures |r| == 6 * bands
    ensures forall k :: 0 <= k < |r| ==> r[k].color == color
  {
    if bands == 0 then []
    else SphereVertices(center, radius, color, bands - 1, trig) + SphereBand(center, radius, color, bands - 1, 6, trig)
  }

  /**
   * The two triangles between vertex `j` of band `i`, its neighbour in the
   * band and the two vertices above them, as offsets from the sphere's first
   * vertex `v` (a `u32`; the additions wrap).
   */
  function SphereQuad(v: nat, i: nat, j: nat): (r: seq<nat>)
    ensures |r| == 6
  {
    var i0 := i * 6 + j;
    var i1 := i * 6 + (j + 1) % 6;
    var j0 := i0 + 6;
    var j1 := i1 + 6;
    [U32(v + i0), U32(v + j0), U32(v + i1), U32(v + i1), U32(v + j0), U32(v + j1)]
  }

  /** The indices pushed for the first `n` vertices of band `i`; the top band pushes none. */
  function SphereBandIndices(v: nat, i: nat, n: nat): seq<nat> {
    if n == 0 then []
    else SphereBandIndices(v, i, n - 1) + (if i < 5 then SphereQuad(v, i, n - 1) else [])
  }

  /** The indices pushed for the first `bands` bands. */
  function SphereIndices(v: nat, bands: nat): seq<nat> {
    if bands == 0 then [] else SphereIndices(v, bands - 1) + SphereBandIndices(v, bands - 1, 6)
  }

  /**
   * One of the five lower bands contributes `6 * n` indices for `n`
   * vertices, each between the band's first vertex and the top of the band
   * above.
   */
  lemma {:induction false} SphereBandShape(v: nat, i: nat, n: nat)
    requires i < 5 && n <= 6
    ensures |SphereBandIndices(v, i, n)| == 6 * n
    ensures v + 36 <= U32Modulus ==>
      forall k :: 0 <= k < 6 * n ==> v + 6 * i <= SphereBandIndices(v, i, n)[k] < v + 6 * i + 12
  {
    if n > 0 {
      SphereBandShape(v, i, n - 1);
    }
  }

  /** The top band closes the sphere and contributes no triangles. */
  lemma {:induction false} TopBandEmpty(v: nat, n: nat)
    ensures SphereBandIndices(v, 5, n) == []
  {
    if n > 0 {
      TopBandEmpty(v, n - 1);
    }
  }

  /** Every index of a partial band stays below the end of the sphere's vertices. */
  lemma {:induction false} SphereBandBelow(v: nat, i: nat, n: nat)
    requires i < 6 && n <= 6
    ensures IndicesBelow(SphereBandIndices(v, i, n), v + 36)
  {
    if n > 0 {
      SphereBandBelow(v, i, n - 1);
    }
  }

  /**
   * The whole sphere: 36 vertices and 180 indices (five bands of six quads);
   * every index lies in `[v, v + 36)` when those values fit in a `u32`, and
   * below `v + 36` in any case.
   */
  lemma {:induction false} SphereShape(v: nat, bands: nat)
    requires bands <= 6
    ensures |SphereIndices(v, bands)| == 36 * (if bands == 6 then 5 else bands)
    ensures IndicesBelow(SphereIndices(v, bands), v + 36)
    ensures v + 36 <= U32Modulus ==>
      forall k :: 0 <= k < |SphereIndices(v, bands)| ==> v <= SphereIndices(v, bands)[k] < v + 36
  {
    if bands > 0 {
      SphereShape(v, bands - 1);
      SphereBandBelow(v, bands - 1, 6);
      if bands - 1 < 5 {
        SphereBandShape(v, bands - 1, 6);
      } else {
        TopBandEmpty(v, 6);
      }
    }
  }

  /**
   * `sphere`: appends the 36 vertices of a six-by-six latitude/longitude
   * sphere around `center` and the 180 indices of its triangles, numbered
   * from the vertex count before the call.
   */
  method Sphere(mesh: Mesh, center: Vec3, radius: real, color: Color, trig: Trig)
    modifies mesh
    ensures mesh.vertices == old(mesh.vertices) + SphereVertices(center, radius, color, 6, trig)
    ensures mesh.indices == old(mesh.indices) + SphereIndices(U32(|old(mesh.vertices)|), 6)
  {
    var v := U32(|mesh.vertices|);
    for i := 0 to 6
      invariant mesh.vertices == old(mesh.vertices) + SphereVertices(center, radius, color, i, trig)
      invariant mesh.indices == old(mesh.indices) + SphereIndices(v, i)
    {
      SphereBandPush(mesh, center, radius, color, trig, v, i);
      AppendAssoc(old(mesh.vertices), SphereVertices(center, radius, color, i, trig), SphereBand(center, radius, color, i, 6, trig));
      AppendAssoc(old(mesh.indices), SphereIndices(v, i), SphereBandIndices(v, i, 6));
    }
  }

  /** The inner loop of `sphere`: the six vertices of band `i` and, below the top band, their quads. */
  method SphereBandPush(mesh: Mesh, center: Vec3, radius: real, color: Color, trig: Trig, v: nat, i: nat)
    modifies mesh
    ensures mesh.vertices == old(mesh.vertices) + SphereBand(center, radius, color, i, 6, trig)
    ensures mesh.indices == old(mesh.indices) + SphereBandIndices(v, i, 6)
  {
    for j := 0 to 6
      invariant mesh.vertices == old(mesh.vertices) + SphereBand(center, radius, color, i, j, trig)
      invariant mesh.indices == old(mesh.indices) + SphereBandIndices(v, i, j)
    {
      var vertex := SphereVertex(center, radius, color, i, j, trig);
      mesh.vertices := mesh.vertices + [vertex];
      AppendAssoc(old(mesh.vertices), SphereBand(center, radius, color, i, j, trig), [vertex]);
      assert SphereBand(center, radius, color, i, j + 1, trig) == SphereBand(center, radius, color, i, j, trig) + [vertex];
      if i < 5 {
        var quad := SphereQuad(v, i, j);
        mesh.indices := mesh.indices + quad;
        AppendAssoc(old(mesh.indices), SphereBandIndices(v, i, j), quad);
      }
    }
  }
}
