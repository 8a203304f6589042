/**
 * The item store (src/item.rs): the items lying in the world, keyed by id,
 * and the item the player is dragging, if any. Items are spawned, consumed
 * from the dragged stack, fall and despawn when they drop off the map, and a
 * dragged stack absorbs nearby stacks of the same type.
 *
 * What lies outside the store is a parameter: the engine's fresh-id source
 * is the counter `nextId`; the ground under a position (the tile lookup
 * through the rounded isometric cell and the bobbing height of that tile) is
 * the function `ground`; "within 8 units" is the predicate `near`.
 */
module ItemStore {
  import opened Vectors
  import opened Options

  datatype ItemType = WheatSeed | Wheat | Pole | Wood | Sapling

  /** `Item`: a stack of `count` items of one type (`count` is a `u32`). */
  datatype Item = Item(position: Vec3, ty: ItemType, velocity: Vec3, count: nat)

  /** Item ids (`Id<Item>`). */
  type Id = nat

  /** `Drag`: the id of the dragged item and where it hangs relative to the mouse. */
  datatype Drag = Drag(id: Id, offset: Vec2)

  // ---------------------------------------------------------------------
  // Counting items
  // ---------------------------------------------------------------------

  /** The number of items in all stacks of `m` together. */
  ghost function Total(m: map<Id, Item>): nat
    decreases m.Keys
  {
    if m.Keys == {} then 0
    else
      var k :| k in m.Keys;
      m[k].count + Total(m - {k})
  }

  /** Taking any one stack out of the map takes exactly its count out of the total. */
  lemma TotalRemove(m: map<Id, Item>, k: Id)
    requires k in m
    ensures Total(m) == m[k].count + Total(m - {k})
    decreases m.Keys
  {
    var j :| j in m.Keys && Total(m) == m[j].count + Total(m - {j});
    if j != k {
      TotalRemove(m - {j}, k);
      TotalRemove(m - {k}, j);
      assert m - {j} - {k} == m - {k} - {j};
    }
  }

  /** Changing the count of one stack changes the total by the same amount. */
  lemma TotalSetCount(m: map<Id, Item>, k: Id, c: nat)
    requires k in m
    ensures Total(m[k := m[k].(count := c)]) + m[k].count == Total(m) + c
  {
    var m' := m[k := m[k].(count := c)];
    TotalRemove(m, k);
    TotalRemove(m', k);
    assert m' - {k} == m - {k};
  }

  /** The stacks of `m` whose ids are in `s`. */
  function Restrict(m: map<Id, Item>, s: set<Id>): map<Id, Item> {
    map id | id in m && id in s :: m[id]
  }

  /** The total splits into the stacks inside `s` and the stacks outside it. */
  lemma TotalSplit(m: map<Id, Item>, s: set<Id>)
    ensures Total(m) == Total(m - s) + Total(Restrict(m, s))
    decreases s
  {
    if s == {} {
      assert m - s == m;
      assert Restrict(m, s) == map[];
    } else {
      var k :| k in s;
      TotalSplit(m - {k}, s - {k});
      assert m - {k} - (s - {k}) == m - s;
      if k in m {
        TotalRemove(m, k);
        TotalRemove(Restrict(m, s), k);
        assert Restrict(m, s) - {k} == Restrict(m - {k}, s - {k});
      } else {
        assert m - {k} == m;
        assert Restrict(m - {k}, s - {k}) == Restrict(m, s);
      }
    }
  }

  // ---------------------------------------------------------------------
  // Falling and despawning
  // ---------------------------------------------------------------------

  /**
   * One frame of item physics: gravity of 64 per second on the vertical
   * velocity; over a tile whose surface is at `ground` the item lands on it
   * and bounces back at a tenth of its speed; then it moves by its velocity.
   */
  function Fallen(item: Item, dt: real, ground: Option<real>): (r: Item)
    ensures r.ty == item.ty && r.count == item.count
    ensures r.velocity.x == item.velocity.x && r.velocity.y == item.velocity.y
    ensures !(ground.Some? && item.position.z <= ground.value) ==> r.velocity.z == item.velocity.z - 64.0 * dt
    ensures ground.Some? && item.position.z <= ground.value ==>
      r.velocity.z == -0.1 * (item.velocity.z - 64.0 * dt) &&
      (dt >= 0.0 && item.velocity.z - 64.0 * dt <= 0.0 ==> r.position.z >= ground.value)
  {
    var v := item.velocity.(z := item.velocity.z - 64.0 * dt);
    var landed := ground.Some? && item.position.z <= ground.value;
    var p := if landed then item.position.(z := ground.value) else item.position;
    var v' := if landed then v.(z := v.z * -0.1) else v;
    item.(position := Add(p, Scale(v', dt)), velocity := v')
  }

  /** An item is despawned when it is over no tile and falls faster than 512 after gravity. */
  predicate Despawns(item: Item, dt: real, ground: Option<real>): (r: bool)
    ensures r ==> ground.None? && Fallen(item, dt, ground).velocity.z < -512.0
  {
    ground.None? && item.velocity.z - 64.0 * dt < -512.0
  }

  /** Every item after one frame of physics. */
  function Fell(m: map<Id, Item>, dt: real, ground: Vec3 -> Option<real>): map<Id, Item> {
    map id | id in m :: Fallen(m[id], dt, ground(m[id].position))
  }

  /** The ids that the frame despawns. */
  function Despawned(m: map<Id, Item>, dt: real, ground: Vec3 -> Option<real>): set<Id> {
    set id | id in m && Despawns(m[id], dt, ground(m[id].position))
  }

  // ---------------------------------------------------------------------
  // Merging into the dragged stack
  // ---------------------------------------------------------------------

  /** The stacks that the dragged stack `d` absorbs: every other stack of its type near it. */
  function MergeSet(m: map<Id, Item>, d: Id, near: (Vec3, Vec3) -> bool): (s: set<Id>)
    requires d in m
    ensures d !in s && s <= m.Keys
    ensures forall id :: id in s ==> m[id].ty == m[d].ty
  {
    set id | id in m && id != d && near(m[d].position, m[id].position) && m[id].ty == m[d].ty
  }

  /** The stacks `s` are gone and their counts are on the stack `d`. */
  ghost function Absorbed(m: map<Id, Item>, d: Id, s: set<Id>): (r: map<Id, Item>)
    requires d in m
    ensures r.Keys == (m.Keys - s) + {d}
    ensures r[d] == m[d].(count := r[d].count) && r[d].count >= m[d].count
  {
    (m - s)[d := m[d].(count := m[d].count + Total(Restrict(m, s)))]
  }

  /**
   * The store after the merge: the dragged stack stays, with only its count
   * changed; every other stack that survives is unchanged, and stacks of
   * another type always survive.
   */
  ghost function Merged(m: map<Id, Item>, d: Id, near: (Vec3, Vec3) -> bool): (r: map<Id, Item>)
    requires d in m
    ensures d in r && r[d] == m[d].(count := r[d].count)
    ensures forall id :: id in m && m[id].ty != m[d].ty ==> id in r && r[id] == m[id]
    ensures forall id :: id in r && id != d ==> id in m && r[id] == m[id]
  {
    Absorbed(m, d, MergeSet(m, d, near))
  }

  /** Moving the counts of the stacks `s` onto the stack `d` conserves the total. */
  lemma AbsorbConserves(m: map<Id, Item>, d: Id, s: set<Id>)
    requires d in m && d !in s
    ensures Total(Absorbed(m, d, s)) == Total(m)
  {
    var rest := m - s;
    var absorbed := Total(Restrict(m, s));
    TotalSplit(m, s);
    assert d in rest && rest[d] == m[d];
    var merged := rest[d := rest[d].(count := rest[d].count + absorbed)];
    assert Absorbed(m, d, s) == merged;
    TotalSetCount(rest, d, rest[d].count + absorbed);
  }

  /** Merging conserves the number of items. */
  lemma MergedConserves(m: map<Id, Item>, d: Id, near: (Vec3, Vec3) -> bool)
    requires d in m
    ensures Total(Merged(m, d, near)) == Total(m)
  {
    var s := MergeSet(m, d, near);
    assert d !in s;
    AbsorbConserves(m, d, s);
  }

  /** Stacks with the same ids and the same counts hold the same number of items. */
  lemma TotalSameCounts(m: map<Id, Item>, m': map<Id, Item>)
    requires m.Keys == m'.Keys
    requires forall id :: id in m ==> m[id].count == m'[id].count
    ensures Total(m) == Total(m')
    decreases m.Keys
  {
    if m.Keys != {} {
      var k :| k in m;
      TotalRemove(m, k);
      TotalRemove(m', k);
      TotalSameCounts(m - {k}, m' - {k});
    }
  }

  /** Physics keeps every stack and its count. */
  lemma FellConserves(m: map<Id, Item>, dt: real, ground: Vec3 -> Option<real>)
    ensures Fell(m, dt, ground).Keys == m.Keys
    ensures Total(Fell(m, dt, ground)) == Total(m)
  {
    var f := Fell(m, dt, ground);
    TotalSameCounts(m, f);
  }

  // ---------------------------------------------------------------------
  // Holding and picking up
  // ---------------------------------------------------------------------

  function Max(a: real, b: real): real {
    if a >= b then a else b
  }

  /** The dragged item follows the mouse at ground level and stops falling. */
  function Held(m: map<Id, Item>, d: Drag, mouse: Vec2): (r: map<Id, Item>)
    requires d.id in m
    ensures r.Keys == m.Keys
    ensures forall id :: id in m && id != d.id ==> r[id] == m[id]
    ensures r[d.id].ty == m[d.id].ty && r[d.id].count == m[d.id].count
    ensures Vec2(r[d.id].position.x, r[d.id].position.y) == Add2(mouse, d.offset) && r[d.id].position.z == 0.0
    ensures r[d.id].velocity.z == 0.0
  {
    m[d.id := m[d.id].(position := Extend(Add2(mouse, d.offset), 0.0), velocity := m[d.id].velocity.(z := 0.0))]
  }

  /** The mouse is pressed inside the 16-by-16 box drawn for the item. */
  predicate Grabs(item: Item, mouse: Vec2, pressed: bool): (r: bool)
    ensures r ==> pressed
    ensures r ==> -8.0 <= mouse.x - item.position.x <= 8.0
    ensures r ==> 0.0 <= mouse.y - (item.position.y + item.position.z) <= 16.0
  {
    mouse.x >= item.position.x - 8.0 && mouse.x <= item.position.x + 8.0 &&
    mouse.y >= item.position.y + item.position.z && mouse.y <= item.position.y + 16.0 + item.position.z &&
    pressed
  }

  /** A grabbed item stops falling (its upward speed is kept). */
  function Lift(item: Item, mouse: Vec2, pressed: bool): (r: Item)
    ensures r.position == item.position && r.ty == item.ty && r.count == item.count
    ensures Grabs(item, mouse, pressed) ==> r.velocity.z >= 0.0 && r.velocity.z >= item.velocity.z
    ensures !Grabs(item, mouse, pressed) ==> r == item
  {
    if Grabs(item, mouse, pressed) then item.(velocity := item.velocity.(z := Max(item.velocity.z, 0.0)))
    else item
  }

  /** Every item after the grab test: all stay, in place, with their type and count. */
  function Lifted(m: map<Id, Item>, mouse: Vec2, pressed: bool): (r: map<Id, Item>)
    ensures r.Keys == m.Keys
    ensures forall id :: id in m ==> r[id].position == m[id].position && r[id].ty == m[id].ty && r[id].count == m[id].count
  {
    map id | id in m :: Lift(m[id], mouse, pressed)
  }

  /** Where a grabbed item hangs from the mouse: where it was grabbed, or 8 below. */
  function GrabOffset(item: Item, mouse: Vec2, itemOffset: bool): (offset: Vec2)
    ensures itemOffset ==> Add2(mouse, offset) == Vec2(item.position.x, item.position.y)
    ensures !itemOffset ==> Add2(mouse, offset) == Vec2(mouse.x, mouse.y - 8.0)
  {
    if itemOffset then Sub2(Vec2(item.position.x, item.position.y), mouse) else Vec2(0.0, -8.0)
  }

  /** Holding and lifting move items but keep every stack and its count. */
  lemma HoldAndLiftConserve(m: map<Id, Item>, d: Drag, mouse: Vec2, pressed: bool)
    ensures Lifted(m, mouse, pressed).Keys == m.Keys && Total(Lifted(m, mouse, pressed)) == Total(m)
    ensures d.id in m ==> Held(m, d, mouse).Keys == m.Keys && Total(Held(m, d, mouse)) == Total(m)
  {
    TotalSameCounts(m, Lifted(m, mouse, pressed));
    if d.id in m {
      TotalSameCounts(m, Held(m, d, mouse));
    }
  }

  // ---------------------------------------------------------------------
  // The store
  // ---------------------------------------------------------------------

  /** `Items`: the dragged item, if any, and the items by id. */
  class Items {
    var drag: Option<Drag>
    var items: map<Id, Item>
    /** The next id the engine hands out; every id in use is below it. */
    var nextId: Id

    /** Ids in use were handed out already, and the dragged item exists. */
    ghost predicate Valid()
      reads this
    {
      (forall id :: id in items ==> id < nextId) &&
      (drag.Some? ==> drag.value.id in items)
    }

    /** `Items::default()`: nothing dragged, no items. */
    constructor ()
      ensures drag == None && items == map[] && Valid()
    {
      drag := None;
      items := map[];
      nextId := 0;
    }

    /**
     * `Items::spawn`: a stack of `count` items of type `ty` appears under a
     * fresh id, 4 below `position` in y at height 8 and falling at 32; nothing
     * else changes and the total grows by `count`.
     */
    method Spawn(ty: ItemType, position: Vec2, count: nat) returns (id: Id)
      requires Valid()
      modifies this
      ensures id !in old(items)
      ensures items == old(items)[id := Item(Extend(Sub2(position, Vec2(0.0, 4.0)), 8.0), ty, Vec3(0.0, 0.0, -32.0), count)]
      ensures drag == old(drag) && Valid()
      ensures Total(items) == Total(old(items)) + count
    {
      id := nextId;
      nextId := nextId + 1;
      var item := Item(Extend(Sub2(position, Vec2(0.0, 4.0)), 8.0), ty, Vec3(0.0, 0.0, -32.0), count);
      items := items[id := item];
      TotalRemove(items, id);
      assert items - {id} == old(items);
    }

    /**
     * `Items::consume`: takes one item off the dragged stack; the last item
     * of a stack takes the stack away and ends the drag. Without a drag
     * nothing happens.
     */
    method Consume()
      requires Valid()
      modifies this
      ensures Valid() && nextId == old(nextId)
      ensures old(drag).None? ==> items == old(items) && drag == old(drag)
      ensures old(drag).Some? && old(items)[old(drag).value.id].count > 1 ==>
        items == old(items)[old(drag).value.id := old(items)[old(drag).value.id].(count := old(items)[old(drag).value.id].count - 1)] &&
        drag == old(drag)
      ensures old(drag).Some? && old(items)[old(drag).value.id].count <= 1 ==>
        items == old(items) - {old(drag).value.id} && drag == None
      ensures old(drag).Some? && old(items)[old(drag).value.id].count > 0 ==> Total(items) + 1 == Total(old(items))
      ensures old(drag).Some? && old(items)[old(drag).value.id].count == 0 ==> Total(items) == Total(old(items))
    {
      if drag.Some? {
        var id := drag.value.id;
        var item := items[id];
        if item.count > 1 {
          items := items[id := item.(count := item.count - 1)];
          TotalSetCount(old(items), id, item.count - 1);
        } else {
          items := items - {id};
          drag := None;
          TotalRemove(old(items), id);
        }
      }
    }

    /** `Items::drag_ty`: the type of the dragged item, if there is one and it exists. */
    function DragTy(): (r: Option<ItemType>)
      reads this
      ensures r.Some? <==> drag.Some? && drag.value.id in items
      ensures r.Some? ==> r.value == items[drag.value.id].ty
    {
      if drag.Some? && drag.value.id in items then Some(items[drag.value.id].ty) else None
    }

    /** `Items::drag_mut`: the dragged item, if there is one and it exists. */
    function DragItem(): (r: Option<Item>)
      reads this
      ensures r.Some? <==> drag.Some? && drag.value.id in items
      ensures r.Some? ==> r.value == items[drag.value.id]
    {
      if drag.Some? && drag.value.id in items then Some(items[drag.value.id]) else None
    }

    /** In a valid store the dragged item always exists, so both lookups find it. */
    lemma DragLookups()
      requires Valid()
      ensures DragTy().Some? <==> drag.Some?
      ensures DragItem().Some? <==> drag.Some?
      ensures DragTy().Some? ==> DragTy().value == DragItem().value.ty
    {
    }

    /**
     * `Items::update`: the drag ends when the primary button is up; every
     * item falls for `dt`; items that fall off the map are removed; then the
     * dragged stack follows the mouse and absorbs nearby stacks of its type,
     * or, with nothing dragged, a press on an item starts dragging it. The
     * total changes only by the items that fell off the map.
     */
    method Update(primaryDown: bool, pressed: bool, itemOffset: bool, dt: real, mouse: Vec2,
                  ground: Vec3 -> Option<real>, near: (Vec3, Vec3) -> bool)
      requires Valid()
      requires primaryDown && drag.Some? ==>
        !Despawns(items[drag.value.id], dt, ground(items[drag.value.id].position))
      modifies this
      ensures Valid() && nextId == old(nextId)
      ensures !primaryDown && !pressed ==> drag == None
      ensures var landed := Fell(old(items), dt, ground) - Despawned(old(items), dt, ground);
        if primaryDown && old(drag).Some? then
          old(drag).value.id in landed && drag == old(drag) &&
          items == Merged(Held(landed, old(drag).value, mouse), old(drag).value.id, near)
        else
          items == Lifted(landed, mouse, pressed) &&
          (drag.None? <==> forall id :: id in landed ==> !Grabs(landed[id], mouse, pressed)) &&
          (drag.Some? ==>
             (drag.value.id in landed && Grabs(landed[drag.value.id], mouse, pressed) &&
              drag.value.offset == GrabOffset(landed[drag.value.id], mouse, itemOffset)))
      ensures Total(items) + Total(Restrict(Fell(old(items), dt, ground), Despawned(old(items), dt, ground))) == Total(old(items))
    {
      if !primaryDown {
        drag := None;
      }
      var despawn := Fall(dt, ground);
      FellConserves(old(items), dt, ground);
      TotalSplit(items, despawn);
      RemoveAll(despawn);
      ghost var landed := items;
      if drag.Some? {
        HoldAndLiftConserve(landed, drag.value, mouse, pressed);
        MergedConserves(Held(landed, drag.value, mouse), drag.value.id, near);
        MergeDragged(mouse, near);
      } else {
        HoldAndLiftConserve(landed, Drag(0, Zero2), mouse, pressed);
        PickUp(mouse, pressed, itemOffset);
      }
    }

    /** The physics loop of `update`: every item falls; returns the ids to despawn. */
    method Fall(dt: real, ground: Vec3 -> Option<real>) returns (despawn: set<Id>)
      modifies this
      ensures items == Fell(old(items), dt, ground)
      ensures despawn == Despawned(old(items), dt, ground)
      ensures drag == old(drag) && nextId == old(nextId)
    {
      var remaining := items.Keys;
      despawn := {};
      while remaining != {}
        invariant remaining <= old(items).Keys && items.Keys == old(items).Keys
        invariant forall id :: id in remaining ==> items[id] == old(items)[id]
        invariant forall id :: id in old(items) && id !in remaining ==>
          items[id] == Fallen(old(items)[id], dt, ground(old(items)[id].position))
        invariant despawn == set id | id in old(items) && id !in remaining &&
          Despawns(old(items)[id], dt, ground(old(items)[id].position))
        invariant drag == old(drag) && nextId == old(nextId)
        decreases remaining
      {
        var id :| id in remaining;
        var item, gone := FallOne(items[id], dt, ground(items[id].position));
        if gone {
          despawn := despawn + {id};
        }
        items := items[id := item];
        remaining := remaining - {id};
      }
    }

    /** One item of the physics loop: gravity, landing with a bounce, and the despawn test. */
    static method FallOne(item: Item, dt: real, under: Option<real>) returns (fallen: Item, gone: bool)
      ensures fallen == Fallen(item, dt, under)
      ensures gone == Despawns(item, dt, under)
    {
      fallen := item.(velocity := item.velocity.(z := item.velocity.z - 64.0 * dt));
      gone := false;
      if under.Some? {
        var offset := under.value;
        if fallen.position.z <= offset {
          fallen := fallen.(position := fallen.position.(z := offset));
          fallen := fallen.(velocity := fallen.velocity.(z := fallen.velocity.z * -0.1));
        }
      } else {
        if fallen.velocity.z < -512.0 {
          gone := true;
        }
      }
      fallen := fallen.(position := Add(fallen.position, Scale(fallen.velocity, dt)));
    }

    /** The despawn loop of `update`: removes every id of `ids`. */
    method RemoveAll(ids: set<Id>)
      modifies this
      ensures items == old(items) - ids
      ensures drag == old(drag) && nextId == old(nextId)
    {
      var remaining := ids;
      while remaining != {}
        invariant remaining <= ids
        invariant items == old(items) - (ids - remaining)
        invariant drag == old(drag) && nextId == old(nextId)
        decreases remaining
      {
        var id :| id in remaining;
        items := items - {id};
        remaining := remaining - {id};
      }
    }

    /** The dragged branch of `update`: move the dragged stack to the mouse and absorb its neighbours. */
    method MergeDragged(mouse: Vec2, near: (Vec3, Vec3) -> bool)
      requires drag.Some? && drag.value.id in items
      modifies this
      ensures items == Merged(Held(old(items), old(drag).value, mouse), old(drag).value.id, near)
      ensures drag == old(drag) && nextId == old(nextId)
    {
      var d := drag.value;
      var item := items[d.id];
      item := item.(position := Extend(Add2(mouse, d.offset), 0.0));
      item := item.(velocity := item.velocity.(z := 0.0));
      items := items[d.id := item];
      assert items == Held(old(items), d, mouse);
      var merge := CollectMerge(d.id, near);
      Absorb(d.id, merge);
    }

    /** The `merge` list: every other stack of the dragged stack's type near it. */
    method CollectMerge(d: Id, near: (Vec3, Vec3) -> bool) returns (merge: set<Id>)
      requires d in items
      ensures merge == MergeSet(items, d, near)
    {
      var dragItem := items[d];
      var remaining := items.Keys;
      merge := {};
      while remaining != {}
        invariant remaining <= items.Keys
        invariant merge == set id | id in items && id !in remaining && id != d &&
          near(dragItem.position, items[id].position) && items[id].ty == dragItem.ty
        decreases remaining
      {
        var id :| id in remaining;
        if id != d {
          if near(dragItem.position, items[id].position) && dragItem.ty == items[id].ty {
            merge := merge + {id};
          }
        }
        remaining := remaining - {id};
      }
    }

    /** The merge loop: each absorbed stack is removed and its count added to the dragged stack. */
    method Absorb(d: Id, merge: set<Id>)
      requires d in items && d !in merge && merge <= items.Keys
      modifies this
      ensures items == Absorbed(old(items), d, merge)
      ensures drag == old(drag) && nextId == old(nextId)
    {
      var remaining := merge;
      while remaining != {}
        invariant remaining <= merge
        invariant items == Absorbed(old(items), d, merge - remaining)
        invariant drag == old(drag) && nextId == old(nextId)
        decreases remaining
      {
        var id :| id in remaining;
        ghost var done := merge - remaining;
        AbsorbStep(old(items), d, done, id);
        items := (items - {id})[d := items[d].(count := items[d].count + items[id].count)];
        remaining := remaining - {id};
        assert merge - remaining == done + {id};
      }
      assert merge - remaining == merge;
    }

    /** The pick-up loop of `update`: grabbed items stop falling and the last one grabbed is dragged. */
    method PickUp(mouse: Vec2, pressed: bool, itemOffset: bool)
      requires drag.None?
      modifies this
      ensures items == Lifted(old(items), mouse, pressed)
      ensures drag.None? <==> forall id :: id in old(items) ==> !Grabs(old(items)[id], mouse, pressed)
      ensures drag.Some? ==>
        (drag.value.id in old(items) && Grabs(old(items)[drag.value.id], mouse, pressed) &&
         drag.value.offset == GrabOffset(old(items)[drag.value.id], mouse, itemOffset))
      ensures nextId == old(nextId)
    {
      var remaining := items.Keys;
      while remaining != {}
        invariant remaining <= old(items).Keys && items.Keys == old(items).Keys
        invariant forall id :: id in remaining ==> items[id] == old(items)[id]
        invariant forall id :: id in old(items) && id !in remaining ==> items[id] == Lift(old(items)[id], mouse, pressed)
        invariant drag.None? <==> forall id :: id in old(items) && id !in remaining ==> !Grabs(old(items)[id], mouse, pressed)
        invariant drag.Some? ==>
          (drag.value.id in old(items) && drag.value.id !in remaining &&
           Grabs(old(items)[drag.value.id], mouse, pressed) &&
           drag.value.offset == GrabOffset(old(items)[drag.value.id], mouse, itemOffset))
        invariant nextId == old(nextId)
        decreases remaining
      {
        var id :| id in remaining;
        var item := items[id];
        if mouse.x >= item.position.x - 8.0 && mouse.x <= item.position.x + 8.0 &&
           mouse.y >= item.position.y + item.position.z && mouse.y <= item.position.y + 16.0 + item.position.z &&
           pressed
        {
          item := item.(velocity := item.velocity.(z := Max(item.velocity.z, 0.0)));
          items := items[id := item];
          var offset := if itemOffset then Sub2(Vec2(item.position.x, item.position.y), mouse) else Vec2(0.0, -8.0);
          drag := Some(Drag(id, offset));
        }
        remaining := remaining - {id};
      }
    }
  }

  /** Absorbing one more stack `id` into `d` is absorbing `done + {id}` at once. */
  lemma AbsorbStep(m: map<Id, Item>, d: Id, done: set<Id>, id: Id)
    requires d in m && id in m && id != d && id !in done && d !in done
    ensures var cur := Absorbed(m, d, done);
      id in cur &&
      (cur - {id})[d := cur[d].(count := cur[d].count + cur[id].count)] == Absorbed(m, d, done + {id})
  {
    RestrictGrows(m, done, id);
    assert m - (done + {id}) == (m - done) - {id};
  }

  lemma RestrictGrows(m: map<Id, Item>, done: set<Id>, id: Id)
    requires id in m && id !in done
    ensures Total(Restrict(m, done + {id})) == Total(Restrict(m, done)) + m[id].count
  {
    TotalRemove(Restrict(m, done + {id}), id);
    assert Restrict(m, done + {id}) - {id} == Restrict(m, done);
  }
}
