/**
 * The cloth state and its time step (src/cloth.rs): `Cloth::generate` lays out
 * the grid, `Cloth::update` integrates every free node, relaxes every
 * constraint twelve times over and copies the node positions into the mesh.
 *
 * `Vec3::normalize` is the parameter `normalize` and is left uninterpreted;
 * the iteration order of the constraint `HashMap` is the parameter `order`,
 * which must list every constraint exactly once.
 */
module ClothStep {
  import opened Vectors
  import opened Meshes
  import opened GridArith
  import opened ClothSim

  // ---------------------------------------------------------------------------
  // Integration.
  // ---------------------------------------------------------------------------

  /** The implicit velocity of a Verlet node: how far it moved in the last step. */
  function Velocity(n: Node): Vec3 {
    Sub(n.position, n.prevPosition)
  }

  /**
   * One node of the integration loop of `update`: a free node keeps its
   * velocity, gains gravity and wind, and remembers where it was; a node of
   * the flicker column is then pinned to the flicker point in x and z. A
   * locked node does not move.
   */
  function IntegrateNode(n: Node, flickering: bool, dt: real, wind: Vec3, flicker: Vec2): (r: Node)
    ensures r.locked == n.locked
    ensures n.locked ==> r == n
    ensures !n.locked ==> r.prevPosition == n.position
    ensures !n.locked ==>
      r.position.y - r.prevPosition.y == Velocity(n).y - Gravity * dt * dt + wind.y * dt
    ensures !n.locked && !flickering ==>
      Velocity(r) == Add(Add(Velocity(n), Scale(UnitY, -Gravity * dt * dt)), Scale(wind, dt))
    ensures !n.locked && flickering ==> r.position.x == flicker.x && r.position.z == flicker.y
  {
    if n.locked then n
    else
      var moved := Add(Add(Add(n.position, Velocity(n)), Scale(UnitY, -Gravity * dt * dt)), Scale(wind, dt));
      var pinned := if flickering then Vec3(flicker.x, moved.y, flicker.y) else moved;
      Node(pinned, n.position, false)
  }

  /** The first loop of `update`, over every node. */
  function Integrated(nodes: seq<Node>, flicker: set<nat>, dt: real, wind: Vec3, fl: Vec2): (r: seq<Node>)
    ensures |r| == |nodes|
    ensures forall i :: 0 <= i < |nodes| ==> r[i] == IntegrateNode(nodes[i], i in flicker, dt, wind, fl)
  {
    seq(|nodes|, i requires 0 <= i < |nodes| => IntegrateNode(nodes[i], i in flicker, dt, wind, fl))
  }

  /**
   * `b` is `a` after a step that moved free nodes only: same length, same
   * locks, and every locked node exactly where it was.
   */
  ghost predicate LocksHeld(a: seq<Node>, b: seq<Node>) {
    |a| == |b|
    && forall i :: 0 <= i < |a| ==> b[i].locked == a[i].locked && (a[i].locked ==> b[i] == a[i])
  }

  /** `b` is `a` after relaxation: locks held and no node's previous position changed. */
  ghost predicate Relaxation(a: seq<Node>, b: seq<Node>) {
    LocksHeld(a, b) && forall i :: 0 <= i < |a| ==> b[i].prevPosition == a[i].prevPosition
  }

  lemma IntegratedHoldsLocks(nodes: seq<Node>, flicker: set<nat>, dt: real, wind: Vec3, fl: Vec2)
    ensures LocksHeld(nodes, Integrated(nodes, flicker, dt, wind, fl))
  {
  }

  // ---------------------------------------------------------------------------
  // Relaxation.
  // ---------------------------------------------------------------------------

  /** Every entry of `order` is a constraint of `connections` between two of `n` nodes. */
  ghost predicate InBounds(order: seq<Edge>, connections: map<Edge, real>, n: nat) {
    forall k :: 0 <= k < |order| ==> order[k] in connections && order[k].0 < n && order[k].1 < n
  }

  /** `order` lists every key of `connections` exactly once (an iteration order of the map). */
  ghost predicate Enumerates(order: seq<Edge>, connections: map<Edge, real>) {
    Distinct(order) && forall e :: e in order <==> e in connections
  }

  /** The midpoint of two positions (`(a + b) / 2.0`). */
  function Midpoint(a: Vec3, b: Vec3): Vec3 {
    Scale(Add(a, b), 1.0 / 2.0)
  }

  /**
   * One constraint of a relaxation pass: both ends are moved, about their
   * common midpoint, to `length` apart along `normalize(a - b)`; a locked end
   * stays put. The midpoint and direction are taken before either end moves.
   */
  function RelaxPair(nodes: seq<Node>, e: Edge, length: real, normalize: Vec3 -> Vec3): (r: seq<Node>)
    requires e.0 < |nodes| && e.1 < |nodes|
    ensures Relaxation(nodes, r)
    ensures forall i :: 0 <= i < |nodes| && i != e.0 && i != e.1 ==> r[i] == nodes[i]
    ensures e.0 != e.1 && !nodes[e.0].locked && !nodes[e.1].locked ==>
      Add(r[e.0].position, r[e.1].position) == Add(nodes[e.0].position, nodes[e.1].position)
      && Sub(r[e.0].position, r[e.1].position)
         == Scale(normalize(Sub(nodes[e.0].position, nodes[e.1].position)), length)
  {
    var a := nodes[e.0].position;
    var b := nodes[e.1].position;
    var center := Midpoint(a, b);
    var dir := normalize(Sub(a, b));
    var first := if nodes[e.0].locked then nodes
      else nodes[e.0 := nodes[e.0].(position := Add(center, Scale(dir, length / 2.0)))];
    if first[e.1].locked then first
    else first[e.1 := first[e.1].(position := Sub(center, Scale(dir, length / 2.0)))]
  }

  /** `i` is not an end of any constraint in `order`. */
  ghost predicate Untouched(order: seq<Edge>, i: nat) {
    forall k :: 0 <= k < |order| ==> order[k].0 != i && order[k].1 != i
  }

  /** One relaxation pass: every constraint of `order`, in turn, on the positions the previous ones left. */
  function Sweep(nodes: seq<Node>, order: seq<Edge>, connections: map<Edge, real>, normalize: Vec3 -> Vec3): (r: seq<Node>)
    requires InBounds(order, connections, |nodes|)
    ensures Relaxation(nodes, r)
    ensures forall i: nat :: i < |nodes| && Untouched(order, i) ==> r[i] == nodes[i]
    decreases |order|
  {
    if order == [] then nodes
    else
      var last := order[|order| - 1];
      var before := Sweep(nodes, order[..|order| - 1], connections, normalize);
      RelaxPair(before, last, connections[last], normalize)
  }

  /** `passes` relaxation passes, all in the same order. */
  function Relaxed(nodes: seq<Node>, passes: nat, order: seq<Edge>, connections: map<Edge, real>, normalize: Vec3 -> Vec3): (r: seq<Node>)
    requires InBounds(order, connections, |nodes|)
    ensures Relaxation(nodes, r)
    ensures forall i: nat :: i < |nodes| && Untouched(order, i) ==> r[i] == nodes[i]
  {
    if passes == 0 then nodes
    else Sweep(Relaxed(nodes, passes - 1, order, connections, normalize), order, connections, normalize)
  }

  /** The node state after one `update`. */
  function Step(nodes: seq<Node>, flicker: set<nat>, connections: map<Edge, real>, order: seq<Edge>,
                dt: real, wind: Vec3, fl: Vec2, normalize: Vec3 -> Vec3): (r: seq<Node>)
    requires InBounds(order, connections, |nodes|)
    ensures LocksHeld(nodes, r)
  {
    IntegratedHoldsLocks(nodes, flicker, dt, wind, fl);
    Relaxed(Integrated(nodes, flicker, dt, wind, fl), RelaxPasses, order, connections, normalize)
  }

  /** What changes from one `update` to the next: the time step, wind, flicker point and map order. */
  datatype StepInput = StepInput(dt: real, wind: Vec3, flicker: Vec2, order: seq<Edge>)

  ghost predicate InputsInBounds(inputs: seq<StepInput>, connections: map<Edge, real>, n: nat) {
    forall k :: 0 <= k < |inputs| ==> InBounds(inputs[k].order, connections, n)
  }

  /** The node state after a run of `update`s. */
  function Run(nodes: seq<Node>, flicker: set<nat>, connections: map<Edge, real>,
               inputs: seq<StepInput>, normalize: Vec3 -> Vec3): (r: seq<Node>)
    requires InputsInBounds(inputs, connections, |nodes|)
    ensures |r| == |nodes|
    decreases |inputs|
  {
    if inputs == [] then nodes
    else
      var last := inputs[|inputs| - 1];
      var before := Run(nodes, flicker, connections, inputs[..|inputs| - 1], normalize);
      Step(before, flicker, connections, last.order, last.dt, last.wind, last.flicker, normalize)
  }

  /** However many steps are taken, a locked node (column 0 of the grid) never moves. */
  lemma {:induction false} RunHoldsLocks(nodes: seq<Node>, flicker: set<nat>, connections: map<Edge, real>,
                                          inputs: seq<StepInput>, normalize: Vec3 -> Vec3)
    requires InputsInBounds(inputs, connections, |nodes|)
    ensures LocksHeld(nodes, Run(nodes, flicker, connections, inputs, normalize))
    decreases |inputs|
  {
    if inputs != [] {
      var init := inputs[..|inputs| - 1];
      RunHoldsLocks(nodes, flicker, connections, init, normalize);
    }
  }

  /** The constraints in the order `generate` inserts them are an iteration order of the grid's map. */
  lemma GridEdgesEnumerate(w: nat, h: nat)
    ensures Enumerates(GridEdges(w, h), GridConnections(w, h))
    ensures InBounds(GridEdges(w, h), GridConnections(w, h), w * h)
  {
    GridEdgesCount(w, h);
    GridConnectionsShape(w, h);
  }

  /** An enumeration of in-range constraints is a valid order for relaxation. */
  lemma EnumerationInBounds(order: seq<Edge>, connections: map<Edge, real>, n: nat)
    requires Enumerates(order, connections)
    requires forall e :: e in connections ==> e.0 < n && e.1 < n
    ensures InBounds(order, connections, n)
  {
    forall k | 0 <= k < |order| ensures order[k] in connections {
      assert order[k] in order;
    }
  }

  // ---------------------------------------------------------------------------
  // The cloth object.
  // ---------------------------------------------------------------------------

  /** What the loops of `generate` have built so far. */
  datatype Parts = Parts(nodes: seq<Node>, vertices: seq<Vertex>, indices: seq<nat>,
                         connections: map<Edge, real>, flicker: set<nat>)

  /** The parts built by the time the loops of `generate` reach cell `(x, y)`. */
  function Built(w: nat, h: nat, y: nat, x: nat): Parts {
    Parts(NodeRows(w, h, y) + NodeRow(w, h, y, x),
          VertexRows(w, h, y) + VertexRow(w, h, y, x),
          IndexRows(w, h, y) + IndexRow(w, h, y, x),
          RestLengths(EdgeRows(w, h, y) + EdgeRow(w, h, y, x)),
          FlickerRows(w, y) + FlickerRow(w, y, x))
  }

  /** The two triangles of a cell, in the source's own index arithmetic. */
  lemma CellIndicesValue(w: nat, h: nat, x: nat, y: nat)
    requires x < w && y < h
    ensures CellIndices(w, h, x, y) == if x < w - 1 && y < h - 1 then
      [U32(y * w + x), U32(y * w + x + 1), U32((y + 1) * w + x),
       U32(y * w + x + 1), U32((y + 1) * w + x + 1), U32((y + 1) * w + x)]
      else []
  {
    CellValue(w, x, y);
    CellValue(w, x, y + 1);
    CellValue(w, x + 1, y + 1);
  }

  /** `p` with cell `(x, y)` added. */
  function AddCell(p: Parts, w: nat, h: nat, x: nat, y: nat): Parts {
    Parts(p.nodes + [GridNode(x, y, h)], p.vertices + [GridVertex(x, y, h)],
          p.indices + CellIndices(w, h, x, y),
          p.connections + RestLengths(CellEdges(w, h, x, y)),
          p.flicker + CellFlicker(w, x, y))
  }

  lemma RestLengthsAppend(a: seq<Edge>, b: seq<Edge>)
    ensures RestLengths(a + b) == RestLengths(a) + RestLengths(b)
  {
    assert forall e :: e in a + b <==> e in a || e in b;
  }

  /** With nothing inserted, the constraint map is unchanged. */
  lemma MergeNoRestLengths(m: map<Edge, real>)
    ensures m + RestLengths([]) == m
  {
  }

  /** Inserting one more constraint at the rest length. */
  lemma MergeRestLengthsSnoc(m: map<Edge, real>, es: seq<Edge>, e: Edge)
    ensures m + RestLengths(es + [e]) == (m + RestLengths(es))[e := RestLength]
  {
    RestLengthsSnoc(es, e);
  }

  lemma BuiltCell(w: nat, h: nat, y: nat, x: nat)
    ensures Built(w, h, y, x + 1) == AddCell(Built(w, h, y, x), w, h, x, y)
    ensures |Built(w, h, y, x).nodes| == Cell(w, 0, y) + x
  {
    NodeRowsAt(w, h, y);
    BuiltCellNodes(w, h, y, x);
    BuiltCellIndices(w, h, y, x);
    BuiltCellConnections(w, h, y, x);
  }

  lemma BuiltCellNodes(w: nat, h: nat, y: nat, x: nat)
    ensures NodeRows(w, h, y) + NodeRow(w, h, y, x + 1) == NodeRows(w, h, y) + NodeRow(w, h, y, x) + [GridNode(x, y, h)]
    ensures VertexRows(w, h, y) + VertexRow(w, h, y, x + 1) == VertexRows(w, h, y) + VertexRow(w, h, y, x) + [GridVertex(x, y, h)]
  {
    assert NodeRow(w, h, y, x + 1) == NodeRow(w, h, y, x) + [GridNode(x, y, h)];
    assert VertexRow(w, h, y, x + 1) == VertexRow(w, h, y, x) + [GridVertex(x, y, h)];
    AppendAssoc(NodeRows(w, h, y), NodeRow(w, h, y, x), [GridNode(x, y, h)]);
    AppendAssoc(VertexRows(w, h, y), VertexRow(w, h, y, x), [GridVertex(x, y, h)]);
  }

  lemma BuiltCellIndices(w: nat, h: nat, y: nat, x: nat)
    ensures IndexRows(w, h, y) + IndexRow(w, h, y, x + 1) == IndexRows(w, h, y) + IndexRow(w, h, y, x) + CellIndices(w, h, x, y)
  {
    AppendAssoc(IndexRows(w, h, y), IndexRow(w, h, y, x), CellIndices(w, h, x, y));
  }

  lemma BuiltCellConnections(w: nat, h: nat, y: nat, x: nat)
    ensures RestLengths(EdgeRows(w, h, y) + EdgeRow(w, h, y, x + 1))
         == RestLengths(EdgeRows(w, h, y) + EdgeRow(w, h, y, x)) + RestLengths(CellEdges(w, h, x, y))
  {
    AppendAssoc(EdgeRows(w, h, y), EdgeRow(w, h, y, x), CellEdges(w, h, x, y));
    RestLengthsAppend(EdgeRows(w, h, y) + EdgeRow(w, h, y, x), CellEdges(w, h, x, y));
  }

  lemma BuiltRow(w: nat, h: nat, y: nat)
    ensures Built(w, h, y, w) == Built(w, h, y + 1, 0)
  {
    assert NodeRows(w, h, y + 1) + NodeRow(w, h, y + 1, 0) == NodeRows(w, h, y + 1);
    assert VertexRows(w, h, y + 1) + VertexRow(w, h, y + 1, 0) == VertexRows(w, h, y + 1);
    assert IndexRows(w, h, y + 1) + IndexRow(w, h, y + 1, 0) == IndexRows(w, h, y + 1);
    assert EdgeRows(w, h, y + 1) + EdgeRow(w, h, y + 1, 0) == EdgeRows(w, h, y + 1);
  }

  /** Everything `generate` builds, and the facts about it that make a valid cloth. */
  lemma BuiltGrid(w: nat, h: nat)
    ensures Built(w, h, h, 0) == Parts(GridNodes(w, h), GridVertices(w, h), GridIndices(w, h),
                                       GridConnections(w, h), GridFlicker(w, h))
    ensures Consistent(GridNodes(w, h), GridVertices(w, h), GridConnections(w, h))
    ensures IndicesBelow(GridIndices(w, h), |GridVertices(w, h)|)
  {
    assert NodeRows(w, h, h) + NodeRow(w, h, h, 0) == NodeRows(w, h, h);
    assert VertexRows(w, h, h) + VertexRow(w, h, h, 0) == VertexRows(w, h, h);
    assert IndexRows(w, h, h) + IndexRow(w, h, h, 0) == IndexRows(w, h, h);
    assert EdgeRows(w, h, h) + EdgeRow(w, h, h, 0) == EdgeRows(w, h, h);
    GridNodesShape(w, h);
    GridVerticesShape(w, h);
    GridIndicesShape(w, h);
    GridConnectionsShape(w, h);
  }

  /** The outer loop of `generate`: the grid, row by row. */
  method BuildGrid(width: nat, height: nat) returns (parts: Parts)
    ensures parts == Built(width, height, height, 0)
  {
    parts := Parts([], [], [], map[], {});
    var y := 0;
    while y < height
      invariant y <= height && parts == Built(width, height, y, 0)
    {
      parts := PushRow(width, height, y, parts);
      y := y + 1;
    }
  }

  /** The inner loop of `generate`: row `y`, cell by cell. */
  method PushRow(width: nat, height: nat, y: nat, p: Parts) returns (p': Parts)
    requires y < height && p == Built(width, height, y, 0)
    ensures p' == Built(width, height, y + 1, 0)
  {
    p' := p;
    var x := 0;
    while x < width
      invariant x <= width && p' == Built(width, height, y, x)
    {
      BuiltCell(width, height, y, x);
      CellInRow(width, x, y);
      p' := PushCell(width, height, x, y, p');
      x := x + 1;
    }
    BuiltRow(width, height, y);
  }

  /**
   * The body of the loops of `generate`, for cell `(x, y)`: the node, its
   * vertex, the cell's two triangles, its constraints and, in column 1, its
   * flicker entry (the node's index, which is the current node count).
   */
  method PushCell(width: nat, height: nat, x: nat, y: nat, p: Parts) returns (p': Parts)
    requires x < width && y < height && |p.nodes| == Cell(width, x, y)
    ensures p' == AddCell(p, width, height, x, y)
  {
    CellValue(width, x, y);
    CellValue(width, x, y + 1);
    var position := GridPosition(x, y, height);
    var node := NewNode(position, x == 0);
    var flicker := p.flicker;
    if x == 1 {
      flicker := flicker + {|p.nodes|};
    }
    var vertices := p.vertices + [Vertex(position, ClothNormal, Zero2, ClothColor)];
    var nodes := p.nodes + [node];
    CellIndicesValue(width, height, x, y);
    var indices := p.indices;
    if x < width - 1 && y < height - 1 {
      indices := indices + [U32(y * width + x), U32(y * width + x + 1), U32((y + 1) * width + x),
                            U32(y * width + x + 1), U32((y + 1) * width + x + 1), U32((y + 1) * width + x)];
    }
    var connections := p.connections;
    ghost var inserted: seq<Edge> := [];
    MergeNoRestLengths(p.connections);
    if x < width - 1 {
      MergeRestLengthsSnoc(p.connections, inserted, (y * width + x, y * width + x + 1));
      connections := connections[(y * width + x, y * width + x + 1) := 1.0];
      inserted := inserted + [(y * width + x, y * width + x + 1)];
    }
    if y < height - 1 {
      MergeRestLengthsSnoc(p.connections, inserted, (y * width + x, (y + 1) * width + x));
      connections := connections[(y * width + x, (y + 1) * width + x) := 1.0];
      inserted := inserted + [(y * width + x, (y + 1) * width + x)];
    }
    assert inserted == CellEdges(width, height, x, y);
    p' := Parts(nodes, vertices, indices, connections, flicker);
  }

  /** One vertex per node, and every constraint between two nodes. */
  ghost predicate Consistent(nodes: seq<Node>, vertices: seq<Vertex>, connections: map<Edge, real>) {
    |vertices| == |nodes|
    && forall e :: e in connections ==> e.0 < |nodes| && e.1 < |nodes|
  }

  class Cloth {
    const mesh: Mesh
    var nodes: seq<Node>
    var connections: map<Edge, real>
    var flicker: set<nat>

    /** One vertex per node, and every constraint between two nodes. */
    ghost predicate Valid()
      reads this, mesh
    {
      Consistent(nodes, mesh.vertices, connections)
    }

    /** `Cloth::generate`: the `width` x `height` grid, built cell by cell in row-major order. */
    constructor Generate(width: nat, height: nat)
      ensures fresh(mesh)
      ensures nodes == GridNodes(width, height)
      ensures mesh.vertices == GridVertices(width, height)
      ensures mesh.indices == GridIndices(width, height)
      ensures connections == GridConnections(width, height)
      ensures flicker == GridFlicker(width, height)
      ensures Valid() && mesh.WellFormed()
    {
      var parts := BuildGrid(width, height);
      BuiltGrid(width, height);
      nodes := parts.nodes;
      connections := parts.connections;
      flicker := parts.flicker;
      mesh := new Mesh();
      new;
      mesh.vertices := parts.vertices;
      mesh.indices := parts.indices;
    }

    /** The integration loop of `update`, node by node. */
    method Integrate(dt: real, wind: Vec3, fl: Vec2)
      modifies this
      ensures nodes == Integrated(old(nodes), flicker, dt, wind, fl)
      ensures connections == old(connections) && flicker == old(flicker)
    {
      ghost var target := Integrated(nodes, flicker, dt, wind, fl);
      var i := 0;
      while i < |nodes|
        invariant i <= |nodes| == |target|
        invariant forall j :: 0 <= j < i ==> nodes[j] == target[j]
        invariant forall j :: i <= j < |nodes| ==> nodes[j] == old(nodes)[j]
        invariant connections == old(connections) && flicker == old(flicker)
      {
        var node := nodes[i];
        if !node.locked {
          var prev := node.position;
          var position := node.position;
          position := Add(position, Sub(node.position, node.prevPosition));
          position := Add(position, Scale(UnitY, -Gravity * dt * dt));
          position := Add(position, Scale(wind, dt));
          if i in flicker {
            position := position.(x := fl.x, z := fl.y);
          }
          nodes := nodes[i := node.(position := position, prevPosition := prev)];
        }
        i := i + 1;
      }
    }

    /** The relaxation loops of `update`: `RelaxPasses` passes over the constraints in `order`. */
    method Relax(order: seq<Edge>, normalize: Vec3 -> Vec3)
      requires InBounds(order, connections, |nodes|)
      modifies this
      ensures connections == old(connections) && flicker == old(flicker)
      ensures nodes == Relaxed(old(nodes), RelaxPasses, order, connections, normalize)
    {
      var pass := 0;
      while pass < RelaxPasses
        invariant pass <= RelaxPasses
        invariant connections == old(connections) && flicker == old(flicker)
        invariant nodes == Relaxed(old(nodes), pass, order, connections, normalize)
      {
        RelaxPass(order, normalize);
        pass := pass + 1;
      }
    }

    /** One relaxation pass: the inner loop of `update`, over the constraints in `order`. */
    method RelaxPass(order: seq<Edge>, normalize: Vec3 -> Vec3)
      requires InBounds(order, connections, |nodes|)
      modifies this
      ensures connections == old(connections) && flicker == old(flicker)
      ensures nodes == Sweep(old(nodes), order, connections, normalize)
    {
      var k := 0;
      while k < |order|
        invariant k <= |order| && |nodes| == |old(nodes)|
        invariant connections == old(connections) && flicker == old(flicker)
        invariant InBounds(order[..k], connections, |old(nodes)|)
        invariant nodes == Sweep(old(nodes), order[..k], connections, normalize)
      {
        assert order[..k + 1][..k] == order[..k];
        assert order[..k + 1][k] == order[k];
        RelaxConstraint(order[k], normalize);
        k := k + 1;
      }
      assert order[..|order|] == order;
    }

    /** The body of the inner relaxation loop, for the constraint `e`. */
    method RelaxConstraint(e: Edge, normalize: Vec3 -> Vec3)
      requires e in connections && e.0 < |nodes| && e.1 < |nodes|
      modifies this
      ensures connections == old(connections) && flicker == old(flicker)
      ensures nodes == RelaxPair(old(nodes), e, connections[e], normalize)
    {
      var (a, b) := e;
      var length := connections[e];
      var center := Midpoint(nodes[a].position, nodes[b].position);
      var dir := normalize(Sub(nodes[a].position, nodes[b].position));
      if !nodes[a].locked {
        nodes := nodes[a := nodes[a].(position := Add(center, Scale(dir, length / 2.0)))];
      }
      if !nodes[b].locked {
        nodes := nodes[b := nodes[b].(position := Sub(center, Scale(dir, length / 2.0)))];
      }
    }

    /** The last loop of `update`: each vertex takes its node's position, scaled by two. */
    method SyncMesh()
      requires |mesh.vertices| >= |nodes|
      modifies mesh
      ensures |mesh.vertices| == |old(mesh.vertices)| && mesh.indices == old(mesh.indices)
      ensures forall i :: 0 <= i < |nodes| ==>
        mesh.vertices[i] == old(mesh.vertices)[i].(position := Scale(nodes[i].position, VisualScale))
      ensures forall i :: |nodes| <= i < |mesh.vertices| ==> mesh.vertices[i] == old(mesh.vertices)[i]
    {
      var i := 0;
      while i < |nodes|
        invariant i <= |nodes| && |mesh.vertices| == |old(mesh.vertices)|
        invariant mesh.indices == old(mesh.indices)
        invariant forall j :: 0 <= j < i ==>
          mesh.vertices[j] == old(mesh.vertices)[j].(position := Scale(nodes[j].position, VisualScale))
        invariant forall j :: i <= j < |mesh.vertices| ==> mesh.vertices[j] == old(mesh.vertices)[j]
      {
        mesh.vertices := mesh.vertices[i := mesh.vertices[i].(position := Scale(nodes[i].position, VisualScale))];
        i := i + 1;
      }
    }

    /**
     * `Cloth::update`: integrate, relax, and copy the positions into the mesh.
     * `order` is the iteration order of the constraint map.
     */
    method Update(dt: real, wind: Vec3, fl: Vec2, order: seq<Edge>, normalize: Vec3 -> Vec3)
      requires Valid() && Enumerates(order, connections)
      modifies this, mesh
      ensures connections == old(connections) && flicker == old(flicker)
      ensures InBounds(order, connections, |old(nodes)|)
      ensures nodes == Step(old(nodes), flicker, connections, order, dt, wind, fl, normalize)
      ensures Valid()
      ensures mesh.indices == old(mesh.indices)
      ensures forall i :: 0 <= i < |nodes| ==>
        SameButNormal(mesh.vertices[i], old(mesh.vertices)[i].(position := Scale(nodes[i].position, VisualScale)))
    {
      EnumerationInBounds(order, connections, |nodes|);
      Integrate(dt, wind, fl);
      Relax(order, normalize);
      SyncMesh();
    }
  }

  lemma RestLengthsSnoc(edges: seq<Edge>, e: Edge)
    ensures RestLengths(edges + [e]) == RestLengths(edges)[e := RestLength]
  {
    assert forall d :: d in edges + [e] <==> d in edges || d == e;
  }
}
