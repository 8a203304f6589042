/**
 * The cloth flag (src/cloth.rs): a `width` x `height` grid of point masses
 * joined by distance constraints, stepped by Verlet integration followed by a
 * fixed number of relaxation passes, with the node positions copied into a
 * triangle mesh after every step.
 *
 * Positions are exact reals. Vector normalisation is a parameter of the step
 * (`normalize`), left uninterpreted, so nothing is claimed about the geometry
 * of relaxation (in particular not its convergence); what is proved is the
 * bookkeeping: the grid's shape, the index buffer, the constraint graph, and
 * which parts of the state a step may change.
 */
module ClothSim {
  import opened Vectors
  import opened Meshes
  import opened GridArith

  /** `std::f32::consts::SQRT_2`, as the `f32` literal. */
  const Sqrt2: real := 1.4142135
  /** `GRAVITY` in `Cloth::update`. */
  const Gravity: real := 9.81 / 8.0
  /** The number of relaxation passes per step. */
  const RelaxPasses: nat := 12
  /** Mesh positions are node positions scaled by this factor. */
  const VisualScale: real := 2.0
  /** The rest length of every constraint. */
  const RestLength: real := 1.0
  /** The vertex normal the grid is built with (`-Vec3::Z`). */
  const ClothNormal: Vec3 := Vec3(0.0, 0.0, -1.0)
  const ClothColor: Color := Rgb(247.0 / 255.0, 16.0 / 255.0, 16.0 / 255.0)

  datatype Node = Node(position: Vec3, prevPosition: Vec3, locked: bool)

  /** A constraint key: the two node indices, in the order they were inserted. */
  type Edge = (nat, nat)

  /** `Node::new`: a node placed at `position`, at rest (no implicit velocity). */
  function NewNode(position: Vec3, locked: bool): (n: Node)
    ensures n.position == position && n.locked == locked
    ensures Sub(n.position, n.prevPosition) == Zero3
  {
    Node(position, position, locked)
  }

  // ---------------------------------------------------------------------------
  // The grid that `Cloth::generate` lays out, cell by cell in row-major order.
  // `...Row(w, h, y, x)` is what the first `x` cells of row `y` contribute and
  // `...Rows(w, h, y)` what the first `y` complete rows contribute.
  // ---------------------------------------------------------------------------

  function GridPosition(x: nat, y: nat, height: nat): Vec3 {
    Vec3(-(x as real) / Sqrt2, y as real - height as real / 2.0, -(x as real) / Sqrt2)
  }

  function GridNode(x: nat, y: nat, height: nat): Node {
    NewNode(GridPosition(x, y, height), x == 0)
  }

  function GridVertex(x: nat, y: nat, height: nat): Vertex {
    Vertex(GridPosition(x, y, height), ClothNormal, Zero2, ClothColor)
  }

  /** The two triangles of the cell whose top-left node is `(x, y)`, if it is not on the last row or column. */
  function CellIndices(w: nat, h: nat, x: nat, y: nat): seq<nat> {
    if x + 1 < w && y + 1 < h then
      [U32(Cell(w, x, y)), U32(Cell(w, x, y) + 1), U32(Cell(w, x, y + 1)),
       U32(Cell(w, x, y) + 1), U32(Cell(w, x + 1, y + 1)), U32(Cell(w, x, y + 1))]
    else []
  }

  /**
   * The constraints inserted at node `(x, y)`, in insertion order: to the
   * right-hand neighbour, then to the neighbour below, where they exist.
   */
  function CellEdges(w: nat, h: nat, x: nat, y: nat): seq<Edge> {
    (if x + 1 < w then [(Cell(w, x, y), Cell(w, x, y) + 1)] else [])
    + (if y + 1 < h then [(Cell(w, x, y), Cell(w, x, y + 1))] else [])
  }

  /** The flicker column is column 1. */
  function CellFlicker(w: nat, x: nat, y: nat): set<nat> {
    if x == 1 then {Cell(w, x, y)} else {}
  }

  function NodeRow(w: nat, h: nat, y: nat, x: nat): seq<Node> {
    seq(x, i requires 0 <= i => GridNode(i, y, h))
  }

  function NodeRows(w: nat, h: nat, y: nat): seq<Node> {
    if y == 0 then [] else NodeRows(w, h, y - 1) + NodeRow(w, h, y - 1, w)
  }

  function VertexRow(w: nat, h: nat, y: nat, x: nat): seq<Vertex> {
    seq(x, i requires 0 <= i => GridVertex(i, y, h))
  }

  function VertexRows(w: nat, h: nat, y: nat): seq<Vertex> {
    if y == 0 then [] else VertexRows(w, h, y - 1) + VertexRow(w, h, y - 1, w)
  }

  function IndexRow(w: nat, h: nat, y: nat, x: nat): seq<nat> {
    if x == 0 then [] else IndexRow(w, h, y, x - 1) + CellIndices(w, h, x - 1, y)
  }

  function IndexRows(w: nat, h: nat, y: nat): seq<nat> {
    if y == 0 then [] else IndexRows(w, h, y - 1) + IndexRow(w, h, y - 1, w)
  }

  function EdgeRow(w: nat, h: nat, y: nat, x: nat): seq<Edge> {
    if x == 0 then [] else EdgeRow(w, h, y, x - 1) + CellEdges(w, h, x - 1, y)
  }

  function EdgeRows(w: nat, h: nat, y: nat): seq<Edge> {
    if y == 0 then [] else EdgeRows(w, h, y - 1) + EdgeRow(w, h, y - 1, w)
  }

  function FlickerRow(w: nat, y: nat, x: nat): set<nat> {
    if x == 0 then {} else FlickerRow(w, y, x - 1) + CellFlicker(w, x - 1, y)
  }

  function FlickerRows(w: nat, y: nat): set<nat> {
    if y == 0 then {} else FlickerRows(w, y - 1) + FlickerRow(w, y - 1, w)
  }

  function GridNodes(w: nat, h: nat): seq<Node> { NodeRows(w, h, h) }
  function GridVertices(w: nat, h: nat): seq<Vertex> { VertexRows(w, h, h) }
  function GridIndices(w: nat, h: nat): seq<nat> { IndexRows(w, h, h) }
  /** Every constraint of the grid, in the order `generate` inserts them. */
  function GridEdges(w: nat, h: nat): seq<Edge> { EdgeRows(w, h, h) }
  /** The constraint map `generate` builds: every grid edge at the rest length. */
  function GridConnections(w: nat, h: nat): map<Edge, real> { RestLengths(GridEdges(w, h)) }

  /** The constraints `edges`, each at the rest length (inserting them one by one). */
  function RestLengths(edges: seq<Edge>): map<Edge, real> {
    map e | e in edges :: RestLength
  }
  function GridFlicker(w: nat, h: nat): set<nat> { FlickerRows(w, h) }

  // ---------------------------------------------------------------------------
  // What the grid is: closed forms of the row-by-row construction.
  // ---------------------------------------------------------------------------

  lemma {:induction false} NodeRowsAt(w: nat, h: nat, y: nat)
    ensures |NodeRows(w, h, y)| == Cell(w, 0, y)
    ensures forall x: nat, y': nat :: x < w && y' < y ==>
      Cell(w, x, y') < |NodeRows(w, h, y)| && NodeRows(w, h, y)[Cell(w, x, y')] == GridNode(x, y', h)
  {
    if y > 0 {
      NodeRowsAt(w, h, y - 1);
      forall x: nat, y': nat | x < w && y' < y
        ensures Cell(w, x, y') < |NodeRows(w, h, y)| && NodeRows(w, h, y)[Cell(w, x, y')] == GridNode(x, y', h)
      {
        if y' < y - 1 {
          CellBelowRow(w, x, y', y - 1);
        } else {
          CellInRow(w, x, y');
        }
      }
    }
  }

  /** `generate` gives exactly `w*h` nodes, node `y*w + x` at grid cell `(x, y)`, locked exactly in column 0. */
  lemma GridNodesShape(w: nat, h: nat)
    ensures |GridNodes(w, h)| == w * h
    ensures forall x: nat, y: nat :: x < w && y < h ==>
      Cell(w, x, y) < w * h && GridNodes(w, h)[Cell(w, x, y)] == GridNode(x, y, h)
    ensures forall i :: 0 <= i < w * h ==> (GridNodes(w, h)[i].locked <==> i % w == 0)
  {
    NodeRowsAt(w, h, h);
    CellValue(w, 0, h);
    assert h * w == w * h;
    forall i | 0 <= i < w * h
      ensures GridNodes(w, h)[i].locked <==> i % w == 0
    {
      var x, y := CellOf(w, h, i);
      assert GridNodes(w, h)[Cell(w, x, y)] == GridNode(x, y, h);
    }
  }

  lemma {:induction false} VertexRowsAt(w: nat, h: nat, y: nat)
    ensures |VertexRows(w, h, y)| == Cell(w, 0, y)
    ensures forall x: nat, y': nat :: x < w && y' < y ==>
      Cell(w, x, y') < |VertexRows(w, h, y)| && VertexRows(w, h, y)[Cell(w, x, y')] == GridVertex(x, y', h)
  {
    if y > 0 {
      VertexRowsAt(w, h, y - 1);
      forall x: nat, y': nat | x < w && y' < y
        ensures Cell(w, x, y') < |VertexRows(w, h, y)| && VertexRows(w, h, y)[Cell(w, x, y')] == GridVertex(x, y', h)
      {
        if y' < y - 1 {
          CellBelowRow(w, x, y', y - 1);
        } else {
          CellInRow(w, x, y');
        }
      }
    }
  }

  /** `generate` gives one mesh vertex per node, at the node's position. */
  lemma GridVerticesShape(w: nat, h: nat)
    ensures |GridVertices(w, h)| == |GridNodes(w, h)| == w * h
    ensures forall i :: 0 <= i < w * h ==> GridVertices(w, h)[i].position == GridNodes(w, h)[i].position
  {
    NodeRowsAt(w, h, h);
    VertexRowsAt(w, h, h);
    CellValue(w, 0, h);
    assert h * w == w * h;
    forall i | 0 <= i < w * h
      ensures GridVertices(w, h)[i].position == GridNodes(w, h)[i].position
    {
      var x, y := CellOf(w, h, i);
    }
  }

  lemma {:induction false} FlickerRowsAt(w: nat, y: nat)
    ensures forall i: nat :: i in FlickerRows(w, y) <==> 1 < w && i < Cell(w, 0, y) && i % w == 1
  {
    if y > 0 {
      FlickerRowsAt(w, y - 1);
      FlickerRowAt(w, y - 1, w);
      assert Cell(w, 0, y) == Cell(w, 0, y - 1) + w;
      if 1 < w {
        FlickerInRow(w, y - 1);
        CellInRow(w, 1, y - 1);
      }
    }
  }

  /** Within row `y`, column 1 is the only index whose remainder by the width is 1. */
  lemma FlickerInRow(w: nat, y: nat)
    requires 1 < w
    ensures forall i: nat :: Cell(w, 0, y) <= i < Cell(w, 0, y) + w ==> (i % w == 1 <==> i == Cell(w, 1, y))
  {
    forall i: nat | Cell(w, 0, y) <= i < Cell(w, 0, y) + w
      ensures i % w == 1 <==> i == Cell(w, 1, y)
    {
      var k := i - Cell(w, 0, y);
      CellInRow(w, k, y);
      DivModCell(w, k, y);
      CellInRow(w, 1, y);
    }
  }

  lemma {:induction false} FlickerRowAt(w: nat, y: nat, x: nat)
    requires x <= w
    ensures FlickerRow(w, y, x) == if 1 < x then {Cell(w, 1, y)} else {}
  {
    if x > 0 { FlickerRowAt(w, y, x - 1); }
  }

  /** The flicker set is exactly the indices in column 1. */
  lemma GridFlickerShape(w: nat, h: nat)
    ensures GridFlicker(w, h) == set i | 0 <= i < w * h && i % w == 1
  {
    FlickerRowsAt(w, h);
    CellValue(w, 0, h);
    assert h * w == w * h;
  }

  lemma {:induction false} IndexRowSize(w: nat, h: nat, y: nat, x: nat)
    requires 0 < w && x <= w
    ensures |IndexRow(w, h, y, x)| == if y + 1 < h then 6 * Min(x, w - 1) else 0
  {
    if x > 0 { IndexRowSize(w, h, y, x - 1); }
  }

  lemma {:induction false} IndexRowsSize(w: nat, h: nat, y: nat)
    requires 0 < w && 0 < h
    ensures |IndexRows(w, h, y)| == 6 * (w - 1) * Min(y, h - 1)
  {
    if y > 0 {
      IndexRowsSize(w, h, y - 1);
      IndexRowSize(w, h, y - 1, w);
      if y < h {
        MulSucc(6 * (w - 1), y - 1);
      }
    }
  }

  /** The two triangles of a cell name nodes of the grid. */
  lemma CellIndicesBelow(w: nat, h: nat, x: nat, y: nat)
    ensures IndicesBelow(CellIndices(w, h, x, y), w * h)
  {
    if x + 1 < w && y + 1 < h {
      CellInGrid(w, h, x + 1, y + 1);
      CellInRow(w, x, y);
      CellInRow(w, x + 1, y);
      assert Cell(w, x, y) + 1 == Cell(w, x + 1, y);
      assert Cell(w, x + 1, y + 1) == Cell(w, x + 1, y) + w;
      assert Cell(w, x, y + 1) == Cell(w, x, y) + w;
    }
  }

  lemma {:induction false} IndexRowBelow(w: nat, h: nat, y: nat, x: nat)
    ensures IndicesBelow(IndexRow(w, h, y, x), w * h)
  {
    if x > 0 {
      IndexRowBelow(w, h, y, x - 1);
      CellIndicesBelow(w, h, x - 1, y);
      IndicesBelowConcat(IndexRow(w, h, y, x - 1), CellIndices(w, h, x - 1, y), w * h);
    }
  }

  lemma {:induction false} IndexRowsBelow(w: nat, h: nat, y: nat)
    ensures IndicesBelow(IndexRows(w, h, y), w * h)
  {
    if y > 0 {
      IndexRowsBelow(w, h, y - 1);
      IndexRowBelow(w, h, y - 1, w);
      IndicesBelowConcat(IndexRows(w, h, y - 1), IndexRow(w, h, y - 1, w), w * h);
    }
  }

  /** The index buffer: two triangles for each of the `(w-1)*(h-1)` cells, every index a node. */
  lemma GridIndicesShape(w: nat, h: nat)
    ensures |GridIndices(w, h)| == if w == 0 || h == 0 then 0 else 6 * (w - 1) * (h - 1)
    ensures IndicesBelow(GridIndices(w, h), w * h)
  {
    if w > 0 && h > 0 {
      IndexRowsSize(w, h, h);
    } else if w == 0 {
      IndexRowsEmpty(h);
    }
    IndexRowsBelow(w, h, h);
  }

  /**
   * The index buffer is laid out cell by cell: the six indices of cell
   * `(x, y)` are entries `6 * ((w - 1) * y + x)` to that plus 5, in the order
   * `CellIndices` lists them.
   */
  lemma {:induction false} GridIndicesAt(w: nat, h: nat, x: nat, y: nat, k: nat)
    requires x + 1 < w && y + 1 < h && k < 6
    ensures 6 * ((w - 1) * y + x) + k < |GridIndices(w, h)|
    ensures GridIndices(w, h)[6 * ((w - 1) * y + x) + k] == CellIndices(w, h, x, y)[k]
  {
    IndexRowsAt(w, h, x, y, (w - 1) * y, h, k);
  }

  /** The same after the first `n` rows, for row `y` below `n`; `p` is the number of cells above row `y`. */
  lemma {:induction false} IndexRowsAt(w: nat, h: nat, x: nat, y: nat, p: nat, n: nat, k: nat)
    requires x + 1 < w && y < n <= h && y + 1 < h && k < 6 && p == (w - 1) * y
    ensures 6 * (p + x) + k < |IndexRows(w, h, n)|
    ensures IndexRows(w, h, n)[6 * (p + x) + k] == CellIndices(w, h, x, y)[k]
    decreases n
  {
    if n - 1 == y {
      IndexRowsLast(w, h, x, y, p, k);
    } else {
      IndexRowsAt(w, h, x, y, p, n - 1, k);
      assert IndexRows(w, h, n) == IndexRows(w, h, n - 1) + IndexRow(w, h, n - 1, w);
    }
  }

  /** Row `y` of cells follows the `6 * p` indices of the `p` cells above it. */
  lemma {:induction false} IndexRowsLast(w: nat, h: nat, x: nat, y: nat, p: nat, k: nat)
    requires x + 1 < w && y + 1 < h && k < 6 && p == (w - 1) * y
    ensures 6 * (p + x) + k < |IndexRows(w, h, y + 1)|
    ensures IndexRows(w, h, y + 1)[6 * (p + x) + k] == CellIndices(w, h, x, y)[k]
  {
    var above, row := IndexRows(w, h, y), IndexRow(w, h, y, w);
    IndexRowsSize(w, h, y);
    assert Min(y, h - 1) == y;
    assert 6 * (w - 1) * y == 6 * p;
    IndexRowAt(w, h, x, y, w, k);
    assert IndexRows(w, h, y + 1) == above + row;
    assert 6 * (p + x) + k == |above| + (6 * x + k);
    assert (above + row)[|above| + (6 * x + k)] == row[6 * x + k];
  }

  lemma {:induction false} IndexRowAt(w: nat, h: nat, x: nat, y: nat, n: nat, k: nat)
    requires x < n <= w && x + 1 < w && y + 1 < h && k < 6
    ensures 6 * x + k < |IndexRow(w, h, y, n)|
    ensures IndexRow(w, h, y, n)[6 * x + k] == CellIndices(w, h, x, y)[k]
    decreases n
  {
    if n - 1 == x {
      IndexRowLast(w, h, x, y, k);
    } else {
      IndexRowAt(w, h, x, y, n - 1, k);
      var prefix := IndexRow(w, h, y, n - 1);
      assert IndexRow(w, h, y, n) == prefix + CellIndices(w, h, n - 1, y);
      assert (prefix + CellIndices(w, h, n - 1, y))[6 * x + k] == prefix[6 * x + k];
    }
  }

  /** Cell `x` of a row follows the `6 * x` indices of the cells before it. */
  lemma {:induction false} IndexRowLast(w: nat, h: nat, x: nat, y: nat, k: nat)
    requires x + 1 < w && y + 1 < h && k < 6
    ensures 6 * x + k < |IndexRow(w, h, y, x + 1)|
    ensures IndexRow(w, h, y, x + 1)[6 * x + k] == CellIndices(w, h, x, y)[k]
  {
    var prefix, cell := IndexRow(w, h, y, x), CellIndices(w, h, x, y);
    IndexRowSize(w, h, y, x);
    assert |prefix| == 6 * x && |cell| == 6;
    assert IndexRow(w, h, y, x + 1) == prefix + cell;
    assert (prefix + cell)[6 * x + k] == cell[k];
  }

  lemma {:induction false} IndexRowsEmpty(y: nat)
    ensures IndexRows(0, y, y) == []
  {
    if y > 0 {
      IndexRowsEmptyFrom(y, y - 1);
    }
  }

  lemma {:induction false} IndexRowsEmptyFrom(h: nat, y: nat)
    ensures IndexRows(0, h, y) == []
  {
    if y > 0 { IndexRowsEmptyFrom(h, y - 1); }
  }

  /** A constraint of the grid: to the right-hand neighbour, or to the neighbour below. */
  ghost predicate IsGridEdge(w: nat, h: nat, e: Edge) {
    0 < w && e.0 < w * h
    && ((e.0 % w + 1 < w && e.1 == e.0 + 1) || (e.0 / w + 1 < h && e.1 == e.0 + w))
  }

  /** `e` is one of the constraints `generate` inserts at cell `(x, y)`. */
  ghost predicate EdgeFrom(w: nat, h: nat, x: nat, y: nat, e: Edge) {
    e.0 == Cell(w, x, y) && ((x + 1 < w && e.1 == e.0 + 1) || (y + 1 < h && e.1 == e.0 + w))
  }

  /** No constraint is inserted twice. */
  ghost predicate Distinct(s: seq<Edge>) {
    forall i, j :: 0 <= i < j < |s| ==> s[i] != s[j]
  }

  lemma DistinctConcat(a: seq<Edge>, b: seq<Edge>)
    requires Distinct(a) && Distinct(b)
    requires forall e :: e in a ==> e !in b
    ensures Distinct(a + b)
  {
    forall i, j | 0 <= i < j < |a + b| ensures (a + b)[i] != (a + b)[j] {
      if j >= |a| {
        assert (a + b)[j] == b[j - |a|];
        if i < |a| { assert a[i] in a; assert b[j - |a|] in b; }
      }
    }
  }

  /** A sequence without repeats has as many distinct elements as entries. */
  lemma {:induction false} DistinctCard(s: seq<Edge>)
    requires Distinct(s)
    ensures |RestLengths(s)| == |s|
  {
    if s != [] {
      var t := s[..|s| - 1];
      var e := s[|s| - 1];
      assert Distinct(t);
      DistinctCard(t);
      assert s == t + [e];
      assert e !in t;
      assert e !in RestLengths(t);
      assert RestLengths(s) == RestLengths(t)[e := RestLength];
    }
  }

  lemma CellEdgesKeys(w: nat, h: nat, x: nat, y: nat)
    ensures forall e: Edge :: e in CellEdges(w, h, x, y) <==> EdgeFrom(w, h, x, y, e)
    ensures Distinct(CellEdges(w, h, x, y))
    ensures |CellEdges(w, h, x, y)| == (if x + 1 < w then 1 else 0) + (if y + 1 < h then 1 else 0)
  {
    assert Cell(w, x, y + 1) == Cell(w, x, y) + w;
  }

  lemma {:induction false} EdgeRowRange(w: nat, h: nat, y: nat, x: nat)
    ensures forall e: Edge :: e in EdgeRow(w, h, y, x) ==> Cell(w, 0, y) <= e.0 < Cell(w, x, y)
  {
    if x > 0 {
      var a, b := EdgeRow(w, h, y, x - 1), CellEdges(w, h, x - 1, y);
      EdgeRowRange(w, h, y, x - 1);
      CellEdgesKeys(w, h, x - 1, y);
      CellInRow(w, x - 1, y);
      CellInRow(w, x, y);
      forall e: Edge | e in a + b
        ensures Cell(w, 0, y) <= e.0 < Cell(w, x, y)
      {
        if e !in a { assert e in b; }
      }
    }
  }

  lemma {:induction false} EdgeRowDistinct(w: nat, h: nat, y: nat, x: nat)
    ensures Distinct(EdgeRow(w, h, y, x))
  {
    if x > 0 {
      var a, b := EdgeRow(w, h, y, x - 1), CellEdges(w, h, x - 1, y);
      EdgeRowDistinct(w, h, y, x - 1);
      EdgeRowRange(w, h, y, x - 1);
      CellEdgesKeys(w, h, x - 1, y);
      CellInRow(w, x - 1, y);
      DistinctConcat(a, b);
    }
  }

  lemma {:induction false} EdgeRowSize(w: nat, h: nat, y: nat, x: nat)
    requires 0 < w && x <= w
    ensures |EdgeRow(w, h, y, x)| == Min(x, w - 1) + (if y + 1 < h then x else 0)
  {
    if x > 0 {
      EdgeRowSize(w, h, y, x - 1);
      CellEdgesKeys(w, h, x - 1, y);
    }
  }

  /** `e` is inserted at one of the first `x` cells of row `y`. */
  ghost predicate RowEdge(w: nat, h: nat, y: nat, x: nat, e: Edge) {
    Cell(w, 0, y) <= e.0 < Cell(w, x, y) && EdgeFrom(w, h, e.0 - Cell(w, 0, y), y, e)
  }

  lemma RowEdgeStep(w: nat, h: nat, y: nat, x: nat, e: Edge)
    requires 0 < x
    ensures RowEdge(w, h, y, x, e) <==> RowEdge(w, h, y, x - 1, e) || EdgeFrom(w, h, x - 1, y, e)
  {
    CellInRow(w, x - 1, y);
    CellInRow(w, x, y);
    if Cell(w, 0, y) <= e.0 {
      CellInRow(w, e.0 - Cell(w, 0, y), y);
    }
  }

  lemma {:induction false} EdgeRowKeys(w: nat, h: nat, y: nat, x: nat)
    ensures forall e: Edge :: e in EdgeRow(w, h, y, x) <==> RowEdge(w, h, y, x, e)
  {
    if x > 0 {
      EdgeRowKeys(w, h, y, x - 1);
      CellEdgesKeys(w, h, x - 1, y);
      forall e: Edge ensures e in EdgeRow(w, h, y, x) <==> RowEdge(w, h, y, x, e) {
        RowEdgeStep(w, h, y, x, e);
      }
    }
  }

  lemma {:induction false} EdgeRowsRange(w: nat, h: nat, y: nat)
    ensures forall e: Edge :: e in EdgeRows(w, h, y) ==> e.0 < Cell(w, 0, y)
    ensures Distinct(EdgeRows(w, h, y))
  {
    if y > 0 {
      EdgeRowsRange(w, h, y - 1);
      EdgeRowRange(w, h, y - 1, w);
      EdgeRowDistinct(w, h, y - 1, w);
      CellInRow(w, w, y - 1);
      DistinctConcat(EdgeRows(w, h, y - 1), EdgeRow(w, h, y - 1, w));
    }
  }

  lemma {:induction false} EdgeRowsSize(w: nat, h: nat, y: nat)
    requires 0 < w && 0 < h
    ensures |EdgeRows(w, h, y)| == y * (w - 1) + w * Min(y, h - 1)
  {
    if y > 0 {
      EdgeRowsSize(w, h, y - 1);
      EdgeRowSize(w, h, y - 1, w);
      var a, b := y * (w - 1), (y - 1) * (w - 1);
      MulSucc(w - 1, y - 1);
      assert a == b + (w - 1);
      if y < h {
        var c, d := w * y, w * (y - 1);
        MulSucc(w, y - 1);
        assert c == d + w;
        assert Min(y, h - 1) == y && Min(y - 1, h - 1) == y - 1;
      } else {
        assert Min(y, h - 1) == Min(y - 1, h - 1);
      }
    }
  }

  /** Within row `y`, being a grid edge is being an edge inserted at that row's cell. */
  lemma GridEdgeInRow(w: nat, h: nat, y: nat, e: Edge)
    requires 0 < w && y < h && Cell(w, 0, y) <= e.0 < Cell(w, w, y)
    ensures IsGridEdge(w, h, e) <==> EdgeFrom(w, h, e.0 - Cell(w, 0, y), y, e)
  {
    var x := e.0 - Cell(w, 0, y);
    CellInRow(w, w, y);
    CellInRow(w, x, y);
    DivModCell(w, x, y);
    CellInGrid(w, h, x, y);
    assert Cell(w, x, y + 1) == e.0 + w;
  }

  lemma FullRowEdge(w: nat, h: nat, y: nat, e: Edge)
    ensures e in EdgeRow(w, h, y, w) <==> RowEdge(w, h, y, w, e)
  {
    EdgeRowKeys(w, h, y, w);
  }

  /** `e` is a grid edge leaving one of the first `y` rows. */
  ghost predicate EdgeBefore(w: nat, h: nat, y: nat, e: Edge) {
    IsGridEdge(w, h, e) && e.0 < Cell(w, 0, y)
  }

  lemma GridEdgeStep(w: nat, h: nat, y: nat, e: Edge)
    requires 0 < w && 0 < y <= h
    ensures EdgeBefore(w, h, y, e) <==> EdgeBefore(w, h, y - 1, e) || RowEdge(w, h, y - 1, w, e)
  {
    CellInRow(w, w, y - 1);
    if Cell(w, 0, y - 1) <= e.0 < Cell(w, 0, y) {
      GridEdgeInRow(w, h, y - 1, e);
    }
  }

  lemma {:induction false} EdgeRowsKeys(w: nat, h: nat, y: nat)
    requires 0 < w && y <= h
    ensures forall e: Edge :: e in EdgeRows(w, h, y) <==> EdgeBefore(w, h, y, e)
  {
    if y > 0 {
      EdgeRowsKeys(w, h, y - 1);
      forall e: Edge ensures e in EdgeRows(w, h, y) <==> EdgeBefore(w, h, y, e) {
        GridEdgeStep(w, h, y, e);
        FullRowEdge(w, h, y - 1, e);
        assert e in EdgeRows(w, h, y) <==> e in EdgeRows(w, h, y - 1) || e in EdgeRow(w, h, y - 1, w);
      }
    }
  }

  /** The far end of a grid edge is a node of the grid too. */
  lemma GridEdgeEnds(w: nat, h: nat, e: Edge)
    requires IsGridEdge(w, h, e)
    ensures e.1 < w * h
  {
    var x, y := CellOf(w, h, e.0);
    if e.1 == e.0 + 1 && x + 1 < w {
      CellInRow(w, x, y);
      CellInRow(w, x + 1, y);
      CellInGrid(w, h, x + 1, y);
    } else {
      CellInGrid(w, h, x, y + 1);
    }
  }

  /**
   * The constraint graph: exactly the horizontal and vertical neighbour pairs,
   * each at the rest length and between two nodes of the grid.
   */
  lemma GridConnectionsShape(w: nat, h: nat)
    ensures forall e: Edge :: e in GridConnections(w, h) <==> IsGridEdge(w, h, e)
    ensures forall e: Edge :: e in GridConnections(w, h) ==>
      GridConnections(w, h)[e] == RestLength && e.0 < w * h && e.1 < w * h
  {
    if w == 0 {
      EdgeRowsEmpty(h, h);
    } else {
      EdgeRowsKeys(w, h, h);
      CellValue(w, 0, h);
      assert h * w == w * h;
      forall e: Edge | e in GridConnections(w, h) ensures e.1 < w * h {
        GridEdgeEnds(w, h, e);
      }
    }
  }

  lemma GridEdgesDistinct(w: nat, h: nat)
    ensures Distinct(GridEdges(w, h))
  {
    EdgeRowsRange(w, h, h);
  }

  /** `generate` inserts each of the `(w-1)*h + w*(h-1)` constraints exactly once. */
  lemma GridEdgesCount(w: nat, h: nat)
    ensures Distinct(GridEdges(w, h))
    ensures |GridConnections(w, h)| == |GridEdges(w, h)|
    ensures |GridEdges(w, h)| == if w == 0 || h == 0 then 0 else (w - 1) * h + w * (h - 1)
  {
    GridEdgesDistinct(w, h);
    DistinctCard(GridEdges(w, h));
    if w == 0 {
      EdgeRowsEmpty(h, h);
    } else if h > 0 {
      GridEdgesLength(w, h);
    }
  }

  lemma GridEdgesLength(w: nat, h: nat)
    requires 0 < w && 0 < h
    ensures |GridEdges(w, h)| == (w - 1) * h + w * (h - 1)
  {
    EdgeRowsSize(w, h, h);
    assert Min(h, h - 1) == h - 1;
    var a, b := h * (w - 1), (w - 1) * h;
    assert a == b;
  }

  lemma {:induction false} EdgeRowsEmpty(h: nat, y: nat)
    ensures EdgeRows(0, h, y) == []
  {
    if y > 0 { EdgeRowsEmpty(h, y - 1); }
  }
}
