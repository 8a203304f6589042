/**
 * The procedural tree (src/tree.rs): a two-stage growth machine and the two
 * mesh generators. A generator clears the mesh, inserts the trunk's base
 * ring, then grows the tree level by level: every branch of the current
 * level becomes one segment and sprouts a fixed number of children (three,
 * then two, two, one, one). Finally a leaf sphere is put on every tip.
 *
 * The random draws only turn branches; the branch counts come from
 * single-value ranges, so the topology of the mesh, and hence its exact
 * vertex and index counts, does not depend on the random numbers.
 */
module Trees {
  import opened Vectors
  import opened Meshes
  import opened Random
  import opened TreeMesh

  // ---------------------------------------------------------------------
  // Growth stages
  // ---------------------------------------------------------------------

  /** `TreeStage`: a sapling with its growth progress (1.0 = grown), or a grown tree. */
  datatype TreeStage = Sapling(growth: real) | Grown

  /** Seconds a sapling needs to grow from 0.0 to 1.0. */
  const GrowthSeconds: real := 45.0

  /**
   * The stage after `Tree::update` with time step `dt`: it becomes `Grown`
   * exactly when the sapling's growth plus `dt / 45` reaches 1.0; otherwise a
   * sapling keeps the raised growth, still below 1.0, and a grown tree stays
   * grown.
   */
  function NextStage(s: TreeStage, dt: real): (r: TreeStage)
    ensures r.Grown? <==> s.Grown? || Matures(s, dt)
    ensures r.Sapling? ==> r.growth == s.growth + dt / GrowthSeconds && r.growth < 1.0
  {
    match s
    case Sapling(growth) =>
      var g := growth + dt / GrowthSeconds;
      if g >= 1.0 then Grown else Sapling(g)
    case Grown => Grown
  }

  /** Whether this update is the one that turns the sapling into a grown tree. */
  predicate Matures(s: TreeStage, dt: real) {
    s.Sapling? && s.growth + dt / GrowthSeconds >= 1.0
  }

  /** The stage after a sequence of updates. */
  function Stages(s: TreeStage, dts: seq<real>): TreeStage
    decreases |dts|
  {
    if dts == [] then s else Stages(NextStage(s, dts[0]), dts[1..])
  }

  function Sum(dts: seq<real>): real
    decreases |dts|
  {
    if dts == [] then 0.0 else dts[0] + Sum(dts[1..])
  }

  /** A sapling that is still a sapling has not reached full growth. */
  ghost predicate Reachable(s: TreeStage) {
    s.Sapling? ==> s.growth < 1.0
  }

  /** A grown tree never goes back to being a sapling, whatever the time steps. */
  lemma {:induction false} GrownStays(dts: seq<real>)
    ensures Stages(Grown, dts) == Grown
    decreases |dts|
  {
    if dts != [] {
      GrownStays(dts[1..]);
    }
  }

  /**
   * With non-negative time steps a reachable sapling's growth is the sum of
   * its steps over 45 seconds: it is grown exactly when that total reaches
   * 1.0, and otherwise a sapling with exactly that growth.
   */
  lemma {:induction false} SaplingGrowth(g: real, dts: seq<real>)
    requires g < 1.0
    requires forall k :: 0 <= k < |dts| ==> dts[k] >= 0.0
    ensures Stages(Sapling(g), dts)
         == if g + Sum(dts) / GrowthSeconds >= 1.0 then Grown else Sapling(g + Sum(dts) / GrowthSeconds)
    decreases |dts|
  {
    if dts != [] {
      var g' := g + dts[0] / GrowthSeconds;
      assert g' + Sum(dts[1..]) / GrowthSeconds == g + Sum(dts) / GrowthSeconds;
      if g' >= 1.0 {
        GrownStays(dts[1..]);
        SumNonNegative(dts[1..]);
      } else {
        SaplingGrowth(g', dts[1..]);
      }
    }
  }

  lemma {:induction false} SumNonNegative(dts: seq<real>)
    requires forall k :: 0 <= k < |dts| ==> dts[k] >= 0.0
    ensures Sum(dts) >= 0.0
    decreases |dts|
  {
    if dts != [] {
      SumNonNegative(dts[1..]);
    }
  }

  // ---------------------------------------------------------------------
  // Tree shape
  // ---------------------------------------------------------------------

  /** Vertices per ring (the `res` of every ring and branch). */
  const Res: nat := 5

  /** How many children each branch of a level sprouts (`gen_range(3..4)`, `2..3`, `1..2`). */
  function BranchCount(level: nat): (n: nat)
    ensures 1 <= n <= 3
  {
    if level == 0 then 3 else if level < 3 then 2 else 1
  }

  lemma Distribute(a: nat, b: nat)
    ensures Res * (a + b) == Res * a + Res * b
    ensures 6 * Res * (a + b) == 6 * Res * a + 6 * Res * b
  {
  }

  lemma PrefixTrans<T>(a: seq<T>, b: seq<T>, c: seq<T>)
    requires a <= b && b <= c
    ensures a <= c
  {
    assert c[..|a|] == b[..|a|];
  }

  /** How many branches are waiting to grow after `levels` levels. */
  function Tips(levels: nat): nat {
    if levels == 0 then 1 else Tips(levels - 1) * BranchCount(levels - 1)
  }

  /** How many segments the first `levels` levels generate. */
  function Segments(levels: nat): nat {
    if levels == 0 then 0 else Segments(levels - 1) + Tips(levels - 1)
  }

  /**
   * The level counts: 1, 3, 6 and then 12 branches per level, so four levels
   * make 22 segments with 12 tips and five levels 34 segments with 12 tips.
   * This is only the arithmetic behind the sapling's and the grown tree's
   * vertex and index counts (547/2820 and 643/3360).
   */
  lemma {:induction false} LevelCounts(levels: nat)
    requires levels <= 5
    ensures Tips(levels) == [1, 3, 6, 12, 12, 12][levels]
    ensures Segments(levels) == [0, 1, 4, 10, 22, 34][levels]
  {
    if levels > 0 {
      LevelCounts(levels - 1);
    }
  }

  /** Every base of the work list is a ring of `Res` vertices that exist in a mesh of `count` vertices. */
  ghost predicate Sprouts(bases: seq<BranchBase>, count: nat) {
    forall k :: 0 <= k < |bases| ==> |bases[k].indices| == Res && IndicesBelow(bases[k].indices, count)
  }

  lemma SproutsGrow(bases: seq<BranchBase>, count: nat, count': nat)
    requires Sprouts(bases, count) && count <= count'
    ensures Sprouts(bases, count')
  {
    forall k | 0 <= k < |bases|
      ensures IndicesBelow(bases[k].indices, count')
    {
      IndicesBelowGrow(bases[k].indices, count, count');
    }
  }

  /** Children that all sit on one valid ring extend a valid work list. */
  lemma ChildrenSprout(next: seq<BranchBase>, children: seq<BranchBase>, ring: seq<nat>, count: nat)
    requires Sprouts(next, count)
    requires |ring| == Res && IndicesBelow(ring, count)
    requires forall k :: 0 <= k < |children| ==> children[k].indices == ring
    ensures Sprouts(next + children, count)
  {
    forall k | 0 <= k < |next + children|
      ensures |(next + children)[k].indices| == Res && IndicesBelow((next + children)[k].indices, count)
    {
      if k >= |next| {
        assert (next + children)[k] == children[k - |next|];
      }
    }
  }

  /** After a segment's ring is added, the work lists stay valid and the children on that ring extend them. */
  lemma SproutsStep(bases: seq<BranchBase>, next: seq<BranchBase>, children: seq<BranchBase>, before: nat, count: nat)
    requires Sprouts(bases, before) && Sprouts(next, before) && before + Res == count
    requires forall j :: 0 <= j < |children| ==> children[j].indices == Range(before, Res)
    ensures Sprouts(bases, count) && Sprouts(next + children, count)
  {
    SproutsGrow(bases, before, count);
    SproutsGrow(next, before, count);
    ChildrenSprout(next, children, Range(before, Res), count);
  }

  /** A branch turned by a later level: yaw within one radian, pitch lowered by 0.1 to 0.4. */
  ghost predicate Bent(parent: Vec3, child: Vec3) {
    parent.y - 1.0 <= child.y < parent.y + 1.0 &&
    parent.x - 0.4 < child.x <= parent.x - 0.1 &&
    child.z == parent.z
  }

  /** The yaw of child `j` of `n` on the first level: the children fan out evenly. */
  function FanAngle(j: nat, n: nat): real
    requires n > 0
  {
    j as real / n as real * Tau
  }

  /**
   * The children of a freshly generated segment (the inner `for j` loop):
   * `BranchCount(level)` copies of its base, all on the segment's ring and
   * tip. On the first level they fan out evenly and tilt by 0.1; later they
   * are turned at random.
   */
  method Sprout(rng: Rng, level: nat, grown: BranchBase) returns (children: seq<BranchBase>)
    modifies rng
    ensures |children| == BranchCount(level)
    ensures forall k :: 0 <= k < |children| ==>
      children[k].indices == grown.indices && children[k].position == grown.position
    ensures level == 0 ==> forall k :: 0 <= k < |children| ==>
      children[k].rotation == Vec3(grown.rotation.x - 0.1, FanAngle(k, |children|), grown.rotation.z)
    ensures level != 0 ==> forall k :: 0 <= k < |children| ==> Bent(grown.rotation, children[k].rotation)
  {
    var n: nat;
    if level == 0 {
      n := rng.GenRangeNat(3, 4);
    } else if level < 3 {
      n := rng.GenRangeNat(2, 3);
    } else {
      n := rng.GenRangeNat(1, 2);
    }
    children := [];
    for j := 0 to n
      invariant |children| == j
      invariant forall k :: 0 <= k < j ==>
        children[k].indices == grown.indices && children[k].position == grown.position
      invariant level == 0 ==> forall k :: 0 <= k < j ==>
        children[k].rotation == Vec3(grown.rotation.x - 0.1, FanAngle(k, n), grown.rotation.z)
      invariant level != 0 ==> forall k :: 0 <= k < j ==> Bent(grown.rotation, children[k].rotation)
    {
      var base := grown;
      if level == 0 {
        var angle := j as real / n as real * Tau;
        base := base.(rotation := base.rotation.(y := angle));
        base := base.(rotation := base.rotation.(x := base.rotation.x - 0.1));
      } else {
        var yaw := rng.GenRange(-1.0, 1.0);
        base := base.(rotation := base.rotation.(y := base.rotation.y + yaw));
        var pitch := rng.GenRange(0.1, 0.4);
        base := base.(rotation := base.rotation.(x := base.rotation.x - pitch));
      }
      children := children + [base];
    }
  }

  /** The segment a level with this radius and length grows from `base`. */
  function Segment(base: BranchBase, radius: real, length: real, color: Color): Branch {
    Branch(base.position, base.rotation, Res, color, radius, length)
  }

  /** The end rings of the segments grown from the first `n` bases, in order. */
  function LevelRings(bases: seq<BranchBase>, n: nat, radius: real, length: real, color: Color, trig: Trig): (r: seq<Vertex>)
    requires n <= |bases|
    ensures |r| == Res * n
  {
    if n == 0 then []
    else LevelRings(bases, n - 1, radius, length, color, trig) + Segment(bases[n - 1], radius, length, color).EndRing(trig)
  }

  /**
   * The bridges of the first `n` bases of a level whose first new ring starts
   * at vertex `start`: base `k` is joined to ring `start + Res * k`.
   */
  function LevelBridges(bases: seq<BranchBase>, n: nat, start: nat): seq<nat>
    requires n <= |bases|
    requires forall k :: 0 <= k < |bases| ==> |bases[k].indices| == Res
  {
    if n == 0 then []
    else LevelBridges(bases, n - 1, start) + BridgeIndices(bases[n - 1].indices, Range(start + Res * (n - 1), Res), Res)
  }

  lemma {:induction false} LevelBridgesSize(bases: seq<BranchBase>, n: nat, start: nat)
    requires n <= |bases|
    requires forall k :: 0 <= k < |bases| ==> |bases[k].indices| == Res
    ensures |LevelBridges(bases, n, start)| == 6 * Res * n
  {
    if n > 0 {
      LevelBridgesSize(bases, n - 1, start);
      Distribute(n - 1, 1);
    }
  }

  /** A buffer holding the rings of the first `k` bases, extended by ring `k`, holds the first `k + 1`. */
  lemma RingsStep(v0: seq<Vertex>, v: seq<Vertex>, v': seq<Vertex>, bases: seq<BranchBase>, k: nat,
                  radius: real, length: real, color: Color, trig: Trig)
    requires k < |bases|
    requires v == v0 + LevelRings(bases, k, radius, length, color, trig)
    requires v' == v + Segment(bases[k], radius, length, color).EndRing(trig)
    ensures v' == v0 + LevelRings(bases, k + 1, radius, length, color, trig)
  {
    AppendAssoc(v0, LevelRings(bases, k, radius, length, color, trig), Segment(bases[k], radius, length, color).EndRing(trig));
  }

  /** The same for the index buffer and the bridges. */
  lemma BridgesStep(i0: seq<nat>, i: seq<nat>, i': seq<nat>, bases: seq<BranchBase>, k: nat, start: nat)
    requires k < |bases|
    requires forall k :: 0 <= k < |bases| ==> |bases[k].indices| == Res
    requires i == i0 + LevelBridges(bases, k, start)
    requires i' == i + BridgeIndices(bases[k].indices, Range(start + Res * k, Res), Res)
    ensures i' == i0 + LevelBridges(bases, k + 1, start)
  {
    AppendAssoc(i0, LevelBridges(bases, k, start), BridgeIndices(bases[k].indices, Range(start + Res * k, Res), Res));
  }

  /**
   * `child` is child `j` of `segment` on `level`: it sits on the segment's end
   * ring and tip, and is fanned out (first level) or bent (later levels).
   */
  ghost predicate ChildOf(child: BranchBase, segment: Branch, ring: seq<nat>, level: nat, j: nat, trig: Trig) {
    child.indices == ring && child.position == segment.Tip(trig) &&
    (level == 0 ==> child.rotation == Vec3(segment.rotation.x - 0.1, FanAngle(j, BranchCount(0)), segment.rotation.z)) &&
    (level != 0 ==> Bent(segment.rotation, child.rotation))
  }

  /** Entry `j` of block `k` of a list cut into blocks of `n`. */
  function Block(s: seq<BranchBase>, n: nat, k: nat, j: nat): BranchBase {
    if k * n + j < |s| then s[k * n + j] else BranchBase([], Vec3(0.0, 0.0, 0.0), Vec3(0.0, 0.0, 0.0))
  }

  lemma BlockBefore(k': nat, j: nat, n: nat, k: nat)
    requires k' < k && j < n
    ensures k' * n + j < k * n
  {
    assert (k' + 1) * n <= k * n by {
      var d := k - (k' + 1);
      assert k * n == (k' + 1) * n + d * n;
    }
  }

  /**
   * The first `k` blocks of `next` are the children of the first `k` bases,
   * block `k'` sitting on ring `start + Res * k'` at the tip of base `k'`'s segment.
   */
  ghost predicate Offspring(next: seq<BranchBase>, bases: seq<BranchBase>, k: nat, level: nat, start: nat,
                            radius: real, length: real, color: Color, trig: Trig)
  {
    forall k', j {:trigger Block(next, BranchCount(level), k', j)} ::
      0 <= k' < k && k' < |bases| && 0 <= j < BranchCount(level) ==>
      ChildOf(Block(next, BranchCount(level), k', j), Segment(bases[k'], radius, length, color),
              Range(start + Res * k', Res), level, j, trig)
  }

  lemma OffspringAppend(next: seq<BranchBase>, children: seq<BranchBase>, bases: seq<BranchBase>, k: nat, level: nat,
                        start: nat, radius: real, length: real, color: Color, trig: Trig)
    requires k < |bases| && |next| == k * BranchCount(level) && |children| == BranchCount(level)
    requires Offspring(next, bases, k, level, start, radius, length, color, trig)
    requires forall j :: 0 <= j < |children| ==>
      ChildOf(children[j], Segment(bases[k], radius, length, color), Range(start + Res * k, Res), level, j, trig)
    ensures Offspring(next + children, bases, k + 1, level, start, radius, length, color, trig)
  {
    var n := BranchCount(level);
    forall k', j | 0 <= k' < k + 1 && k' < |bases| && 0 <= j < n
      ensures ChildOf(Block(next + children, n, k', j), Segment(bases[k'], radius, length, color),
                      Range(start + Res * k', Res), level, j, trig)
    {
      if k' < k {
        BlockBefore(k', j, n, k);
        assert Block(next + children, n, k', j) == Block(next, n, k', j);
      } else {
        assert Block(next + children, n, k', j) == children[j];
      }
    }
  }

  /**
   * One waiting branch (the body of the `for base in ..` loop): its segment's
   * end ring is added and bridged to the base ring, and it sprouts
   * `BranchCount(level)` children on that ring and the segment's tip.
   */
  method GrowBranch(mesh: Mesh, rng: Rng, trig: Trig, level: nat, radius: real, length: real,
                    color: Color, base: BranchBase) returns (children: seq<BranchBase>)
    requires mesh.WellFormed() && |base.indices| == Res && IndicesBelow(base.indices, |mesh.vertices|)
    modifies mesh, rng
    ensures mesh.WellFormed()
    ensures mesh.vertices == old(mesh.vertices) + Segment(base, radius, length, color).EndRing(trig)
    ensures mesh.indices == old(mesh.indices) + BridgeIndices(base.indices, Range(old(|mesh.vertices|), Res), Res)
    ensures |children| == BranchCount(level)
    ensures forall j :: 0 <= j < |children| ==>
      ChildOf(children[j], Segment(base, radius, length, color), Range(old(|mesh.vertices|), Res), level, j, trig)
  {
    var branch := Branch(base.position, base.rotation, Res, color, radius, length);
    ghost var indicesBefore := mesh.indices;
    var grown := branch.Generate(mesh, base.indices, trig);
    IndicesBelowGrow(indicesBefore, |old(mesh.vertices)|, |mesh.vertices|);
    IndicesBelowGrow(base.indices, |old(mesh.vertices)|, |mesh.vertices|);
    BridgeBelow(base.indices, grown.indices, Res, |mesh.vertices|);
    IndicesBelowConcat(indicesBefore, BridgeIndices(base.indices, grown.indices, Res), |mesh.vertices|);
    children := Sprout(rng, level, grown);
  }

  /**
   * One level of a generator (the `for base in mem::replace(..)` loop): every
   * waiting branch, in order, becomes a segment whose end ring is appended and
   * bridged to its base ring, and the children of base `k` form block `k` of
   * the next work list. The mesh stays well formed.
   */
  method GrowLevel(mesh: Mesh, rng: Rng, trig: Trig, level: nat, radius: real, length: real,
                   color: Color, bases: seq<BranchBase>) returns (next: seq<BranchBase>)
    requires mesh.WellFormed() && Sprouts(bases, |mesh.vertices|)
    modifies mesh, rng
    ensures old(mesh.vertices) <= mesh.vertices && old(mesh.indices) <= mesh.indices
    ensures mesh.vertices[old(|mesh.vertices|)..] == LevelRings(bases, |bases|, radius, length, color, trig)
    ensures mesh.indices[old(|mesh.indices|)..] == LevelBridges(bases, |bases|, old(|mesh.vertices|))
    ensures |mesh.vertices| == old(|mesh.vertices|) + Res * |bases|
    ensures |mesh.indices| == old(|mesh.indices|) + 6 * Res * |bases|
    ensures mesh.WellFormed() && Sprouts(next, |mesh.vertices|)
    ensures |next| == |bases| * BranchCount(level)
    ensures Offspring(next, bases, |bases|, level, old(|mesh.vertices|), radius, length, color, trig)
  {
    next := [];
    ghost var start := |mesh.vertices|;
    for k := 0 to |bases|
      invariant mesh.vertices == old(mesh.vertices) + LevelRings(bases, k, radius, length, color, trig)
      invariant mesh.indices == old(mesh.indices) + LevelBridges(bases, k, start)
      invariant mesh.WellFormed() && Sprouts(bases, |mesh.vertices|) && Sprouts(next, |mesh.vertices|)
      invariant |next| == k * BranchCount(level)
      invariant Offspring(next, bases, k, level, start, radius, length, color, trig)
    {
      var base := bases[k];
      var before := |mesh.vertices|;
      ghost var verticesBefore := mesh.vertices;
      ghost var indicesBefore := mesh.indices;
      assert before == start + Res * k;
      var children := GrowBranch(mesh, rng, trig, level, radius, length, color, base);
      var ring := Range(before, Res);
      assert Range(start + Res * k, Res) == ring;
      RingsStep(old(mesh.vertices), verticesBefore, mesh.vertices, bases, k, radius, length, color, trig);
      BridgesStep(old(mesh.indices), indicesBefore, mesh.indices, bases, k, start);
      assert forall j :: 0 <= j < |children| ==> children[j].indices == ring;
      SproutsStep(bases, next, children, before, |mesh.vertices|);
      OffspringAppend(next, children, bases, k, level, start, radius, length, color, trig);
      next := next + children;
      assert (k + 1) * BranchCount(level) == k * BranchCount(level) + BranchCount(level);
    }
    LevelBridgesSize(bases, |bases|, start);
  }

  // ---------------------------------------------------------------------
  // The tree
  // ---------------------------------------------------------------------

  /**
   * The level loop shared by both generators: `levels` levels grown from the
   * trunk base with the given starting radius, shrinking by `decay` per level.
   * Afterwards `Segments(levels)` segments have been added and `Tips(levels)`
   * branches wait for their leaves.
   */
  method GrowLevels(mesh: Mesh, rng: Rng, trig: Trig, levels: nat, radius: real, decay: real,
                    length: real, color: Color, trunk: BranchBase) returns (tips: seq<BranchBase>)
    requires mesh.WellFormed() && Sprouts([trunk], |mesh.vertices|)
    modifies mesh, rng
    ensures |mesh.vertices| == old(|mesh.vertices|) + Res * Segments(levels)
    ensures |mesh.indices| == old(|mesh.indices|) + 6 * Res * Segments(levels)
    ensures old(mesh.vertices) <= mesh.vertices
    ensures mesh.WellFormed() && Sprouts(tips, |mesh.vertices|)
    ensures |tips| == Tips(levels)
  {
    tips := [trunk];
    var trunkRadius := radius;
    for i := 0 to levels
      invariant |mesh.vertices| == old(|mesh.vertices|) + Res * Segments(i)
      invariant |mesh.indices| == old(|mesh.indices|) + 6 * Res * Segments(i)
      invariant old(mesh.vertices) <= mesh.vertices
      invariant mesh.WellFormed() && Sprouts(tips, |mesh.vertices|)
      invariant |tips| == Tips(i)
    {
      ghost var verticesBefore := mesh.vertices;
      tips := GrowLevel(mesh, rng, trig, i, trunkRadius, length, color, tips);
      PrefixTrans(old(mesh.vertices), verticesBefore, mesh.vertices);
      assert Segments(i + 1) == Segments(i) + Tips(i) && Tips(i + 1) == Tips(i) * BranchCount(i);
      Distribute(Segments(i), Tips(i));
      trunkRadius := trunkRadius * decay;
    }
  }

  /** Puts a leaf sphere of `radius` on every tip (the `for base in branches` loop). */
  method Leaves(mesh: Mesh, trig: Trig, tips: seq<BranchBase>, radius: real, color: Color)
    requires mesh.WellFormed()
    modifies mesh
    ensures |mesh.vertices| == old(|mesh.vertices|) + 36 * |tips|
    ensures |mesh.indices| == old(|mesh.indices|) + 180 * |tips|
    ensures old(mesh.vertices) <= mesh.vertices
    ensures mesh.WellFormed()
  {
    for k := 0 to |tips|
      invariant |mesh.vertices| == old(|mesh.vertices|) + 36 * k
      invariant |mesh.indices| == old(|mesh.indices|) + 180 * k
      invariant old(mesh.vertices) <= mesh.vertices
      invariant mesh.WellFormed()
    {
      LeafSphere(mesh, trig, tips[k].position, radius, color);
    }
  }

  /** One `sphere` call, with the facts about its size and indices that the generators need. */
  method LeafSphere(mesh: Mesh, trig: Trig, center: Vec3, radius: real, color: Color)
    requires mesh.WellFormed()
    modifies mesh
    ensures |mesh.vertices| == old(|mesh.vertices|) + 36
    ensures |mesh.indices| == old(|mesh.indices|) + 180
    ensures old(mesh.vertices) <= mesh.vertices
    ensures mesh.WellFormed()
  {
    var v := |mesh.vertices|;
    Sphere(mesh, center, radius, color, trig);
    SphereShape(U32(v), 6);
    IndicesBelowGrow(SphereIndices(U32(v), 6), U32(v) + 36, |mesh.vertices|);
    IndicesBelowGrow(old(mesh.indices), v, |mesh.vertices|);
    IndicesBelowConcat(old(mesh.indices), SphereIndices(U32(v), 6), |mesh.vertices|);
  }

  /** `Tree`: its mesh, its growth stage and the parameters of its shape. */
  class Tree {
    const mesh: Mesh
    var stage: TreeStage
    const trunkRadius: real
    const radiusDecay: real
    const branchLength: real
    const trunkColor: Color
    const leafColor: Color

    /** A new tree: a sapling with no growth (`TreeStage::default`) and an empty mesh. */
    constructor (trunkRadius: real, radiusDecay: real, branchLength: real, trunkColor: Color, leafColor: Color)
      ensures stage == Sapling(0.0) && Reachable(stage)
      ensures fresh(mesh) && mesh.vertices == [] && mesh.indices == []
      ensures this.trunkRadius == trunkRadius && this.radiusDecay == radiusDecay
      ensures this.branchLength == branchLength
      ensures this.trunkColor == trunkColor && this.leafColor == leafColor
    {
      this.trunkRadius := trunkRadius;
      this.radiusDecay := radiusDecay;
      this.branchLength := branchLength;
      this.trunkColor := trunkColor;
      this.leafColor := leafColor;
      stage := Sapling(0.0);
      mesh := new Mesh();
    }

    /**
     * `Tree::update`: advances the stage by `dt`; on the update that makes
     * the sapling grown, the grown mesh is generated. Otherwise the mesh is
     * left alone.
     */
    method Update(dt: real, trig: Trig, rng: Rng)
      modifies this, mesh, rng
      ensures stage == NextStage(old(stage), dt)
      ensures Matures(old(stage), dt) ==>
        |mesh.vertices| == 643 && |mesh.indices| == 3360 && mesh.WellFormed()
      ensures !Matures(old(stage), dt) ==>
        mesh.vertices == old(mesh.vertices) && mesh.indices == old(mesh.indices)
    {
      match stage
      case Sapling(growth) =>
        var g := growth + dt / GrowthSeconds;
        stage := Sapling(g);
        if g >= 1.0 {
          stage := Grown;
          GenerateMeshGrown(trig, rng);
        }
      case Grown =>
    }

    /**
     * `generate_mesh_sapling`: clears the mesh, then builds a trunk ring of
     * half the trunk radius, four levels (22 segments of two-thirds length)
     * and 12 leaf spheres of radius 4: 547 vertices and 2820 indices, all
     * valid, whatever the mesh held before and whatever the random draws.
     */
    method GenerateMeshSapling(trig: Trig, rng: Rng)
      modifies mesh, rng
      ensures |mesh.vertices| == 547 && |mesh.indices| == 2820
      ensures mesh.WellFormed()
      ensures forall i :: 0 <= i < Res ==>
        SameButNormal(mesh.vertices[i], RingVertices(trunkColor, trunkRadius / 2.0, Res, Res, trig)[i])
    {
      mesh.vertices := [];
      mesh.indices := [];
      var base := new Ring(trunkColor, trunkRadius / 2.0, Res, trig);
      var indices := base.Insert(mesh);
      var ring := mesh.vertices;
      var trunk := BranchBase(indices, Zero3, Zero3);
      assert Sprouts([trunk], |mesh.vertices|);
      var tips := GrowLevels(mesh, rng, trig, 4, trunkRadius / 1.5, radiusDecay, branchLength / 1.5, trunkColor, trunk);
      LevelCounts(4);
      Leaves(mesh, trig, tips, 4.0, leafColor);
      assert ring <= mesh.vertices;
    }

    /**
     * `generate_mesh_grown`: clears the mesh, then builds a full-size trunk
     * ring, five levels (34 segments), a leaf sphere of radius 8 on each of
     * the 12 tips and a crown sphere of radius 16 at height 40: 643 vertices
     * and 3360 indices, all valid, whatever the mesh held before.
     */
    method GenerateMeshGrown(trig: Trig, rng: Rng)
      modifies mesh, rng
      ensures |mesh.vertices| == 643 && |mesh.indices| == 3360
      ensures mesh.WellFormed()
      ensures forall i :: 0 <= i < Res ==>
        SameButNormal(mesh.vertices[i], RingVertices(trunkColor, trunkRadius, Res, Res, trig)[i])
    {
      mesh.vertices := [];
      mesh.indices := [];
      var base := new Ring(trunkColor, trunkRadius, Res, trig);
      var indices := base.Insert(mesh);
      var ring := mesh.vertices;
      var trunk := BranchBase(indices, Zero3, Zero3);
      assert Sprouts([trunk], |mesh.vertices|);
      var tips := GrowLevels(mesh, rng, trig, 5, trunkRadius, radiusDecay, branchLength, trunkColor, trunk);
      LevelCounts(5);
      Leaves(mesh, trig, tips, 8.0, leafColor);
      LeafSphere(mesh, trig, Vec3(0.0, 40.0, 0.0), 16.0, leafColor);
      assert ring <= mesh.vertices;
    }
  }
}
