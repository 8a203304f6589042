# orchard, modelled in Dafny

A model of the simulation core of *orchard*, a small isometric farming game.
It covers five parts of the game:

- **The cloth banner** (`src/cloth.rs`, modules `ClothSim` and `ClothStep`).
  - A `width` × `height` grid of point masses.
  - The left column is pinned.
  - The second column flickers with the wind.
  - Neighbouring nodes are tied by distance constraints of rest length 1.
  - Each frame runs Verlet integration, twelve relaxation passes over the constraints, and a copy of the node positions into the render mesh.
- **The procedural tree** (`src/tree.rs`, modules `TreeMesh` and `Trees`).
  - A tree is a sapling that grows for 45 seconds and then becomes grown.
  - Both stages regenerate the tree mesh from scratch.
  - The mesh is a trunk ring, levels of branch segments bridged ring to ring (four for the sapling, five for the grown tree), a leaf sphere on every branch tip and, for the grown tree, a crown sphere.
  - Helpers involved: `Ring`, `Branch::generate`, `bridge_loops`, `sphere`.
- **The farm tiles** (`src/tile.rs`, module `Tiles`).
  - A tile is grass or farmed land. Farmed land may carry wheat.
  - Hovering a tile with a mouse button held tills it, plants wheat or harvests ripe wheat.
  - The per-frame update grows the wheat or runs down the land's timer.
- **The item store** (`src/item.rs`, module `ItemStore`).
  - Item stacks are kept by id, together with the stack being dragged.
  - Operations: spawn, consume one item from the dragged stack, the falling physics, despawning items that fall off the map, picking a stack up, and merging nearby stacks of the same type into the dragged one.
- **The isometric projection** (`src/iso.rs`, module `Iso`). This is the pair of conversions between screen positions and tile coordinates.

Shared pieces:

| file | module | contents |
|---|---|---|
| `vectors.dfy` | `Vectors` | `Vec2` and `Vec3` over reals |
| `mesh.dfy` | `Meshes` | the render `Mesh` with its vertex and index buffers, and the `u32` cast of an index |
| `rng.dfy` | `Random` | the random number generator |
| `grid.dfy` | `GridArith` | row-major cell arithmetic |
| `options.dfy` | `Options` | `Option` |

How the model is shaped:

- Code that mutates in place is modelled as classes and methods:
  - `Cloth`, `Tree`, `Ring`, `Items` and `TileSlot`;
  - the mesh builders, which take a `Mesh` and append to it.
- Most methods are proved against a specification function over the old state, and properties of those functions are proved as lemmas.
- The tree's mesh builders are the exception above the single level. `GrowLevel` states the exact vertices, indices and children of one level. `GrowLevels`, `Leaves`, `Tree.GenerateMeshSapling`, `Tree.GenerateMeshGrown` and the maturing branch of `Tree.Update` state counts, index bounds and the leading trunk ring only.
- The game engine supplies some inputs; they become parameters:
  - the frame time;
  - the mouse position and buttons;
  - trigonometry (`Trig`);
  - `normalize`;
  - the random stream of `Rng`;
  - the ground height under an item;
  - the "within 8 units" test.
- A `HashMap` iteration order is either an explicit parameter (`order` in `Cloth.Update`) or an arbitrary choice (`:|`) in the item loops. Every property is proved for every order.

## Model

| member | source | states |
|---|---|---|
| Iso.ToIso | src/iso.rs:4-9 | the iso sum and difference recover the screen coordinates scaled by the half tile width and the quarter tile height |
| Iso.ToIsoFromIso | src/iso.rs:4-17 | for non-zero tile sizes, `to_iso(from_iso(v))` is `v` |
| Iso.FromIsoToIso | src/iso.rs:4-17 | for non-zero tile sizes, `from_iso(to_iso(p))` is `p` |
| Iso.FromIso | src/iso.rs:12-17 | screen x is the difference of the tile coordinates in half tile widths, screen y their sum in quarter tile heights |
| Iso.FromIsoLinear | src/iso.rs:12-17 | `from_iso` maps the origin to the origin and is additive |
| Iso.ToIsoLinear | src/iso.rs:4-9 | `to_iso` maps the origin to the origin and is additive |
| ClothSim.NewNode | src/cloth.rs:13-19 | a new node sits at its position, keeps its lock flag and starts with zero velocity |
| ClothSim.GridNodesShape | src/cloth.rs:38-58 | the grid has `w*h` nodes; node `y*w+x` is the node of cell (x, y); a node is locked iff its column is 0 |
| ClothSim.GridVerticesShape | src/cloth.rs:51-58 | one vertex per node, at the node's position |
| ClothSim.GridFlickerShape | src/cloth.rs:47-49 | the flicker set is exactly the indices below `w*h` in column 1 |
| ClothSim.GridIndicesShape | src/cloth.rs:60-68 | the index buffer holds `6*(w-1)*(h-1)` entries (none for an empty grid), each below `w*h` |
| ClothSim.GridIndicesAt | src/cloth.rs:60-68 | entries `6c .. 6c+5` of the index buffer, for cell number `c = (w-1)*y + x`, are the two triangles of cell (x, y) in the order they are pushed |
| ClothSim.GridConnectionsShape | src/cloth.rs:70-80 | a pair is a constraint iff it joins a node to its right or lower neighbour; each rest length is 1 and both ends are below `w*h` |
| ClothSim.GridEdgesCount | src/cloth.rs:70-80 | no constraint is inserted twice, and there are `(w-1)*h + w*(h-1)` of them |
| ClothSim.GridEdgesDistinct | src/cloth.rs:70-80 | the insertion sequence of the constraints has no repeats |
| ClothSim.DistinctCard | src/cloth.rs:70-80 | inserting distinct keys one by one gives a map with one entry per insertion |
| ClothSim.FlickerRowsAt | src/cloth.rs:47-49 | after `y` rows, the flicker set holds exactly the column-1 indices of those rows |
| ClothSim.IndexRowsBelow | src/cloth.rs:60-68 | every index pushed by any number of rows is below `w*h` |
| ClothSim.EdgeRowsKeys | src/cloth.rs:70-80 | after `y` rows, the constraints are exactly the grid edges leaving those rows |
| ClothSim.EdgeRowsSize | src/cloth.rs:70-80 | after `y` rows, `y*(w-1) + w*min(y, h-1)` constraints were inserted |
| ClothStep.BuiltGrid | src/cloth.rs:38-82 | the cell-by-cell construction yields the closed-form grid, whose node, vertex and constraint counts agree and whose indices are in range |
| ClothStep.BuildGrid | src/cloth.rs:38-82 | the row loop of `generate` builds all `height` rows |
| ClothStep.PushRow | src/cloth.rs:39-81 | the column loop builds one more row |
| ClothStep.PushCell | src/cloth.rs:40-80 | one cell pushes its node, vertex, triangles, flicker entry and constraints |
| ClothStep.Cloth.Generate | src/cloth.rs:32-85 | the new cloth holds exactly the grid's nodes, vertices, indices, constraints and flicker set, and its mesh is well formed |
| ClothStep.IntegrateNode | src/cloth.rs:92-104 | a locked node is unchanged; an unlocked one remembers its old position and moves by its velocity, gravity and wind, or to the flicker target on x and z |
| ClothStep.Integrated | src/cloth.rs:91-105 | integration maps each node independently and keeps the node count |
| ClothStep.IntegratedHoldsLocks | src/cloth.rs:92 | integration never moves a locked node and never changes a lock flag |
| ClothStep.RelaxPair | src/cloth.rs:108-119 | relaxing one constraint touches only its two ends, never a locked one, and centres two free ends on their midpoint at the rest length |
| ClothStep.Sweep | src/cloth.rs:108-119 | one pass over the constraints keeps locks and leaves nodes outside every constraint alone |
| ClothStep.Relaxed | src/cloth.rs:107-120 | any number of passes keeps locks and leaves nodes outside every constraint alone |
| ClothStep.Step | src/cloth.rs:88-126 | a whole frame never moves a locked node, whatever the constraint order |
| ClothStep.RunHoldsLocks | src/cloth.rs:88-126 | any sequence of frames, each with its own order, never moves a locked node |
| ClothStep.GridEdgesEnumerate | src/cloth.rs:70-80 | the insertion sequence lists each constraint once, with both ends in the grid |
| ClothStep.EnumerationInBounds | src/cloth.rs:108-118 | any order that lists the constraints indexes only existing nodes |
| ClothStep.Cloth.Integrate | src/cloth.rs:91-105 | the node loop produces the integrated nodes; constraints and flicker set are unchanged |
| ClothStep.Cloth.RelaxConstraint | src/cloth.rs:109-118 | one loop body produces the relaxed pair |
| ClothStep.Cloth.RelaxPass | src/cloth.rs:108-119 | one pass produces the sweep over the given order |
| ClothStep.Cloth.Relax | src/cloth.rs:107-120 | the twelve passes produce the relaxed nodes |
| ClothStep.Cloth.SyncMesh | src/cloth.rs:122-126 | vertex `i` moves to twice node `i`; everything else in the mesh is kept |
| ClothStep.Cloth.Update | src/cloth.rs:88-126 | the frame yields `Step` of the old nodes; node count, constraints, flicker set and index buffer are unchanged; each vertex is moved to twice its node and keeps its uv and colour |
| Meshes.U32 | src/tree.rs:330-336 | the `as u32` cast lands below 2^32 and is the identity below it |
| Meshes.Range | src/tree.rs:222-233 | `n` consecutive indices from `start` |
| Meshes.Mesh.constructor | src/cloth.rs:22-33 | the engine's default mesh (reached through `Cloth`'s and `Tree`'s derived defaults), taken to be empty |
| Random.Lerp | src/tree.rs:92-93 | a uniform draw scaled into a half-open range stays in it |
| Random.Rng.GenRange | src/tree.rs:92-93 | `gen_range(lo..hi)` over floats lies in `[lo, hi)` and consumes one draw |
| Random.Rng.GenRangeNat | src/tree.rs:76-82 | `gen_range(lo..hi)` over integers lies in `[lo, hi)`; a one-value range gives that value |
| TreeMesh.RingVertices | src/tree.rs:190-205 | the first `n` ring vertices carry the ring's colour and lie in the plane y = 0 |
| TreeMesh.Ring.constructor | src/tree.rs:190-205 | `Ring::new` builds exactly the `res` ring vertices in order |
| TreeMesh.Ring.Rotate | src/tree.rs:208-212 | rotation keeps the vertex count and colours and rotates each position |
| TreeMesh.Ring.Translate | src/tree.rs:215-219 | translation keeps the vertex count and colours and shifts each position |
| TreeMesh.Ring.Insert | src/tree.rs:222-233 | the ring's vertices are appended in order, the indices are untouched, and the returned indices are `old_len .. old_len+res` |
| TreeMesh.BridgeIndicesAt | src/tree.rs:325-337 | entry `6i+c` of the bridge is entry `c` of quad `i`, built from `from[i]`, `to[i]` and the wrap-around neighbour `(i+1) % n` |
| TreeMesh.BridgeBelow | src/tree.rs:322-338 | if both rings index existing vertices, so does every bridge index |
| TreeMesh.BridgeLoops | src/tree.rs:322-338 | equal-length rings; exactly `6*n` indices are appended and the vertices are untouched |
| TreeMesh.PushQuad | src/tree.rs:327-336 | one loop body appends the two triangles of quad `i` |
| TreeMesh.Branch.EndRing | src/tree.rs:255-262 | the end ring has `res` vertices |
| TreeMesh.Branch.Generate | src/tree.rs:254-273 | `res` vertices (the end ring) and `6*res` bridge indices are appended; the base returned holds the new ring's indices, the tip and the input rotation |
| TreeMesh.SphereVertices | src/tree.rs:280-297 | six bands of six vertices, all of the sphere's colour |
| TreeMesh.SphereShape | src/tree.rs:277-310 | the sphere's 180 indices all lie below `v+36`, and in `[v, v+36)` when `v+36` fits in `u32` |
| TreeMesh.SphereBandShape | src/tree.rs:284-308 | each band below the top adds 36 indices |
| TreeMesh.TopBandEmpty | src/tree.rs:299 | the top band adds no indices |
| TreeMesh.Sphere | src/tree.rs:277-310 | `sphere` appends its 36 vertices and its index list |
| TreeMesh.SphereBandPush | src/tree.rs:284-308 | the inner loop appends one band of vertices and indices |
| Trees.NextStage | src/tree.rs:30-42 | a sapling becomes grown exactly when `g + dt/45 >= 1`, otherwise it stays a sapling with growth `g + dt/45`, below 1; grown stays grown |
| Trees.GrownStays | src/tree.rs:40 | once grown, a tree stays grown over any frames |
| Trees.SaplingGrowth | src/tree.rs:30-42 | over frames with non-negative times, a sapling's growth is the sum of the times over 45, and it is grown iff that reaches 1 |
| Trees.BranchCount | src/tree.rs:74-82 | each level has between one and three children per branch |
| Trees.LevelCounts | src/tree.rs:61-101 | levels 0..5 hold 1, 3, 6, 12, 12, 12 tips after 0, 1, 4, 10, 22, 34 segments |
| Trees.Sprout | src/tree.rs:84-97 | `num_branches` children share the new ring and tip; at level 0 they fan out evenly with x tilted by 0.1, later ones bend by the drawn angles |
| Trees.GrowBranch | src/tree.rs:63-97 | one waiting branch appends its segment's end ring, bridges it to the base ring, and sprouts `BranchCount(level)` children on the new ring and the tip |
| Trees.GrowLevel | src/tree.rs:62-98 | one level appends the end rings of all its branches in order (`res` vertices each) and their bridges (`6*res` indices each), keeps all indices in range, and child `j` of branch `k` is entry `k*BranchCount + j` of the next list, on ring `k` of the level at the tip of branch `k`'s segment, fanned out or bent |
| Trees.GrowLevels | src/tree.rs:61-101 | `levels` levels append `5*Segments(levels)` vertices and `30*Segments(levels)` indices and yield `Tips(levels)` tips |
| Trees.Leaves | src/tree.rs:103-105 | a leaf sphere per tip: 36 vertices and 180 indices each, all in range |
| Trees.LeafSphere | src/tree.rs:104 | one leaf sphere: 36 vertices and 180 in-range indices |
| Trees.Tree.constructor | src/tree.rs:10-26 | a new tree is a sapling with no growth and an empty mesh |
| Trees.Tree.Update | src/tree.rs:30-42 | the stage advances by `NextStage`; on maturing the grown mesh replaces the old one, otherwise the mesh is unchanged |
| Trees.Tree.GenerateMeshSapling | src/tree.rs:45-108 | the sapling mesh has 547 vertices and 2820 indices, all in range, starting with the half-radius trunk ring (positions, uvs and colours) |
| Trees.Tree.GenerateMeshGrown | src/tree.rs:111-181 | the grown mesh has 643 vertices and 3360 indices, all in range, starting with the trunk ring (positions, uvs and colours) |
| Tiles.TextureStage | src/tile.rs:17-22 | the texture stage is at most 3 |
| Tiles.TextureStageBounds | src/tile.rs:17-22 | stage `k` is chosen for growth in `[k, k+1)`, and the last stage from growth 3 on |
| Tiles.TextureStageMonotone | src/tile.rs:17-22 | more growth never gives an earlier stage |
| Tiles.Harvestable | src/tile.rs:27-31 | harvestable wheat shows the last stage |
| Tiles.RipeNotHarvestable | src/tile.rs:17-31 | wheat shows the last stage without being harvestable exactly at growth 3 |
| Tiles.Grown | src/tile.rs:34-39 | growth rises by `dt / growth_time`, so one growth time adds exactly one unit |
| Tiles.GrownMonotone | src/tile.rs:34-39 | with a positive growth time and time running forward, growth and stage never go back |
| Tiles.GrownAdditive | src/tile.rs:34-39 | growing for `a` then `b` is growing for `a + b` |
| Tiles.Hovered | src/tile.rs:101-125 | a tile changes only with a button down; farmed land stays farmed with its timer, so only grass can come out as grass |
| Tiles.Updated | src/tile.rs:128-143 | grass stays grass and farmed land farmed; a plant is neither planted nor removed |
| Tiles.HoverGrass | src/tile.rs:103-109 | grass changes exactly when the right button is down, into farmed land with the grass growth time and no plant |
| Tiles.HoverFarmed | src/tile.rs:111-123 | farmed land stays farmed with its timer; ripe wheat is cleared by the right button and unripe wheat kept; bare land gets fresh wheat with the left button |
| Tiles.UpdateCases | src/tile.rs:128-143 | grass is unchanged; wheat grows by `dt / growth_time` with the timer kept; bare land's timer drops by `dt` and it stays bare |
| Tiles.FarmedStaysFarmed | src/tile.rs:100-143 | no sequence of hovers and updates turns farmed land back into grass |
| Tiles.GrassNeedsRightClick | src/tile.rs:100-143 | grass stays grass under any sequence of events without a right-button hover |
| Tiles.TileSlot.Hover | src/tile.rs:101-125 | `hovered` in place yields the hover transition of the old tile |
| Tiles.TileSlot.Update | src/tile.rs:128-143 | `update` in place yields the update transition of the old tile |
| ItemStore.TotalRemove | src/item.rs:70 | removing a stack removes exactly its count from the total |
| ItemStore.TotalSetCount | src/item.rs:68 | changing one stack's count changes the total by the difference |
| ItemStore.TotalSplit | src/item.rs:126-127 | the total splits into the stacks inside a set of ids and those outside it |
| ItemStore.Fallen | src/item.rs:106-123 | type, count and horizontal velocity are kept; in the air gravity lowers the vertical velocity by `64*dt`; landing reverses it at a tenth, and an item landing while falling ends on or above the ground |
| ItemStore.Despawns | src/item.rs:106-121 | only an item over no tile despawns, and only when its velocity after gravity is below -512 |
| ItemStore.FellConserves | src/item.rs:101-124 | the physics loop keeps every id and the total |
| ItemStore.AbsorbConserves | src/item.rs:148-152 | moving the counts of absorbed stacks onto the dragged stack keeps the total |
| ItemStore.MergeSet | src/item.rs:135-146 | the stacks to merge are other stacks of the store, all of the dragged stack's type |
| ItemStore.Absorbed | src/item.rs:148-152 | the absorbed ids are gone, the dragged stack stays with only its count changed, and its count does not drop |
| ItemStore.Merged | src/item.rs:135-152 | after merging the dragged stack is there with only its count changed, stacks of other types are untouched, and every surviving stack is unchanged |
| ItemStore.MergedConserves | src/item.rs:135-152 | merging keeps the total number of items |
| ItemStore.TotalSameCounts | src/item.rs:101-171 | maps with the same ids and counts hold the same total |
| ItemStore.Held | src/item.rs:130-133 | the dragged stack moves to mouse plus offset at height 0 and stops falling, keeping its type and count; other stacks are unchanged |
| ItemStore.Grabs | src/item.rs:155-159 | a grab needs the button pressed and the mouse within 8 units of the item horizontally and within 16 above its drawn base |
| ItemStore.Lift | src/item.rs:154-161 | a grabbed item no longer falls and never loses upward speed; position, type and count are kept; an item not grabbed is unchanged |
| ItemStore.Lifted | src/item.rs:154-161 | every stack stays, in place, with its type and count |
| ItemStore.GrabOffset | src/item.rs:163-167 | with `item_offset` the item hangs exactly where it was grabbed; otherwise 8 below the mouse |
| ItemStore.HoldAndLiftConserve | src/item.rs:130-171 | moving the dragged stack and lifting grabbed stacks keep every id and the total |
| ItemStore.RestrictGrows | src/item.rs:148-152 | absorbing one more stack adds exactly its count to the absorbed total |
| ItemStore.Items.constructor | src/item.rs:40-44 | the default store has no items and no drag |
| ItemStore.Items.Spawn | src/item.rs:48-60 | one new stack under a fresh id, at the given type and count, 4 below the position (y − 4) at height 8 and falling at 32; nothing else changes; the total grows by the count |
| ItemStore.Items.Consume | src/item.rs:63-74 | no drag: nothing changes; count above 1: one less, drag kept; otherwise the stack is removed and the drag cleared; with a drag on a non-empty stack the total drops by one, and removing an empty stack keeps it |
| ItemStore.Items.DragTy | src/item.rs:77-79 | the dragged item's type, or None without a drag or when the id is absent |
| ItemStore.Items.DragItem | src/item.rs:82-84 | the dragged item, or None without a drag or when the id is absent |
| ItemStore.Items.DragLookups | src/item.rs:77-84 | in a consistent store both lookups succeed exactly when something is dragged, and agree |
| ItemStore.Items.Update | src/item.rs:87-173 | the drag ends when the button is up; items fall and those off the map despawn; then the dragged stack follows the mouse and merges, or a press picks up a stack; the total changes only by the despawned items |
| ItemStore.Items.Fall | src/item.rs:101-124 | the physics loop yields every item's fallen state and collects exactly the despawning ids |
| ItemStore.Items.FallOne | src/item.rs:106-123 | one item: gravity, landing with a bounce, the despawn test and the move |
| ItemStore.Items.RemoveAll | src/item.rs:126-128 | exactly the collected ids are removed |
| ItemStore.Items.MergeDragged | src/item.rs:130-152 | the dragged stack moves to the mouse with vertical speed 0, then absorbs every nearby stack of its type |
| ItemStore.Items.CollectMerge | src/item.rs:135-146 | the `merge` list is exactly the other stacks of the dragged type that are near it |
| ItemStore.Items.Absorb | src/item.rs:148-152 | the absorbed stacks are removed and their counts added to the dragged stack |
| ItemStore.Items.PickUp | src/item.rs:154-171 | every grabbed stack stops falling; something is dragged iff some stack was grabbed, and then with the configured offset |

## Left out

- Floating point: positions, growth and the isometric maps are over reals. f32 rounding, infinities and NaN are not modelled.
- Tiles.Grown, Tiles.Updated, Tiles.TileSlot.Update: a wheat growth time of zero, which gives an infinite rate in f32, is excluded by a precondition.
- Trigonometry and `euler_rot`: the cosines, sines, `acos` and the Euler-angle rotation are the uninterpreted functions of `Trig`. Ring and sphere positions are therefore stated through them, not as numbers.
- `normalize` in relaxation is a parameter. Coinciding nodes (a zero-length direction) and convergence of the relaxation are not modelled.
- `Mesh::calculate_normals` (cloth.rs:128, tree.rs:107, tree.rs:180) belongs to the engine library and is not part of this model.
- `rand::thread_rng` is a stream of unit draws (`Rng.stream`). No distribution is claimed.
- `HashMap` iteration order: an explicit `order` for the cloth constraints and an arbitrary choice in the item loops. Which grabbed stack ends up dragged, when several are under the mouse, is therefore only "one of them".
- TreeMesh.BridgeLoops: `requires |from| == |to|` stands for the source's `assert_eq!` panic on rings of different lengths. Every call site passes two rings of `res` = 5.
- Meshes.U32: the `u32` index casts are modelled as reduction modulo 2^32. The sphere and bridge range facts assume the indices fit.
- ItemStore.Item: stack counts are unbounded; a `u32` overflow of `count += item.count` in the merge is not modelled.
- ItemStore.Items.Update: the ground under an item is a parameter. It stands for the tile lookup through the rounded isometric cell and the bobbing height `sin(2d + time/2)`. The "within 8 units" distance test is the parameter `near`.
- ItemStore.Items.Update: the drag is known to be cleared with the primary button up only if the button was not also reported pressed in that frame. The source's pick-up branch can re-grab in that case, and the engine's input semantics are not part of this model.
- ItemStore.Items.Update: the source panics (`unwrap`) when the dragged stack despawns in the same frame. The model requires that this does not happen.
- ItemStore.Items.Spawn: the engine's `Id::new()` is modelled as the counter `nextId`.
- Trees.GrowLevels, Trees.Leaves: state the counts and the index bounds of their loops, not the vertex sequences. Each level's exact contents are stated by Trees.GrowLevel.
- ClothStep.Cloth.Update, Trees.Tree.GenerateMeshSapling, Trees.Tree.GenerateMeshGrown, Trees.Tree.Update: vertex normals after the call are not stated, because the engine's `calculate_normals` recomputes them; positions, uvs and colours are stated.
- Trees.Tree.GenerateMeshSapling, Trees.Tree.GenerateMeshGrown, Trees.Tree.Update: independence from the earlier mesh contents is shown by the absolute counts, the in-range indices and the leading trunk ring. The full vertex sequence is not stated as a closed form.
- Bare farmed land whose timer reaches zero (tile.rs:136-138) only sets its already-empty plant to empty. It is modelled as written, so the tile stays farmed and never returns to grass.
- Rendering (`render.rs`, `Tile::draw`, `Items::render`, textures), audio, assets, configuration loading and the game loop (`game_state.rs`, `main.rs`) are not part of this model.
