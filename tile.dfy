/**
 * The farm tiles (src/tile.rs): a tile is grass or farmed land; farmed land
 * may carry a wheat plant that grows with time and can be harvested once
 * ripe. Hovering a tile with a mouse button pressed tills it, plants wheat
 * or harvests; the per-frame update grows the plant or counts down the
 * land's timer.
 *
 * The two configuration values the transitions read (the grass growth time
 * and the wheat growth time) are the fields of `Config`; the mouse buttons
 * are the fields of `Buttons`.
 */
module Tiles {
  import opened Options

  /** `FarmPlant`: the only crop is wheat, with its growth so far. */
  datatype FarmPlant = Wheat(growth: real)

  /** `Tile`: grass, or farmed land with a timer and an optional plant. */
  datatype Tile = Grass | Farmed(time: real, plant: Option<FarmPlant>)

  /** Which mouse buttons are held down this frame. */
  datatype Buttons = Buttons(left: bool, right: bool)

  /** The configuration values used here: `tile.grass_growth_time` and `plants.wheat.growth_time`. */
  datatype Config = Config(grassGrowthTime: real, wheatGrowthTime: real)

  // ---------------------------------------------------------------------
  // Plants
  // ---------------------------------------------------------------------

  /**
   * `FarmPlant::texture`, as the index of the wheat texture it picks: stage
   * `k` below growth `k + 1` for `k < 3`, the last stage from growth 3 on.
   */
  function TextureStage(p: FarmPlant): (stage: nat)
    ensures stage <= 3
  {
    if p.growth < 1.0 then 0
    else if p.growth < 2.0 then 1
    else if p.growth < 3.0 then 2
    else 3
  }

  /** The stage is the whole part of the growth, capped to 0..3. */
  lemma TextureStageBounds(p: FarmPlant)
    ensures TextureStage(p) < 3 ==> p.growth < TextureStage(p) as real + 1.0
    ensures TextureStage(p) > 0 ==> TextureStage(p) as real <= p.growth
  {
  }

  /** A plant that has grown more never shows an earlier stage. */
  lemma TextureStageMonotone(p: FarmPlant, q: FarmPlant)
    requires p.growth <= q.growth
    ensures TextureStage(p) <= TextureStage(q)
  {
  }

  /** `FarmPlant::harvestable`: wheat can be harvested once its growth exceeds 3.0. */
  predicate Harvestable(p: FarmPlant): (r: bool)
    ensures r ==> TextureStage(p) == 3
  {
    p.growth > 3.0
  }

  /**
   * Showing the last stage does not make a plant harvestable: the two part
   * exactly at growth 3.0, where the ripe texture is shown but the plant
   * cannot be harvested yet.
   */
  lemma RipeNotHarvestable(p: FarmPlant)
    ensures TextureStage(p) == 3 && !Harvestable(p) <==> p.growth == 3.0
  {
  }

  /** `FarmPlant::update`: growth rises by `dt` over the wheat growth time. */
  function Grown(p: FarmPlant, dt: real, cfg: Config): (r: FarmPlant)
    requires cfg.wheatGrowthTime != 0.0
    ensures r.growth - p.growth == dt / cfg.wheatGrowthTime
    ensures dt == cfg.wheatGrowthTime ==> r.growth == p.growth + 1.0
  {
    Wheat(p.growth + dt * (1.0 / cfg.wheatGrowthTime))
  }

  /** With a positive growth time, wheat never shrinks and its stage never goes back. */
  lemma GrownMonotone(p: FarmPlant, dt: real, cfg: Config)
    requires cfg.wheatGrowthTime > 0.0 && dt >= 0.0
    ensures Grown(p, dt, cfg).growth >= p.growth
    ensures TextureStage(Grown(p, dt, cfg)) >= TextureStage(p)
  {
    assert 1.0 / cfg.wheatGrowthTime > 0.0;
    assert dt * (1.0 / cfg.wheatGrowthTime) >= 0.0;
    TextureStageMonotone(p, Grown(p, dt, cfg));
  }

  /** Two frames of growth amount to one frame of their combined length. */
  lemma GrownAdditive(p: FarmPlant, a: real, b: real, cfg: Config)
    requires cfg.wheatGrowthTime != 0.0
    ensures Grown(Grown(p, a, cfg), b, cfg) == Grown(p, a + b, cfg)
  {
    var rate := 1.0 / cfg.wheatGrowthTime;
    assert a * rate + b * rate == (a + b) * rate;
  }

  // ---------------------------------------------------------------------
  // Tile transitions
  // ---------------------------------------------------------------------

  /**
   * `Tile::hovered`: the tile after the mouse hovers it with `buttons` held.
   * Nothing changes unless a button is down, and farmed land stays farmed
   * with its timer.
   */
  function Hovered(t: Tile, buttons: Buttons, cfg: Config): (r: Tile)
    ensures r != t ==> buttons.left || buttons.right
    ensures r.Grass? ==> t.Grass?
    ensures t.Farmed? ==> r.Farmed? && r.time == t.time
  {
    match t
    case Grass =>
      if buttons.right then Farmed(cfg.grassGrowthTime, None) else Grass
    case Farmed(time, plant) =>
      match plant
      case Some(p) =>
        if Harvestable(p) && buttons.right then Farmed(time, None) else t
      case None =>
        if buttons.left then Farmed(time, Some(Wheat(0.0))) else t
  }

  /**
   * `Tile::update`: the tile after a frame of `dt` seconds. Grass stays grass,
   * farmed land stays farmed, and a plant is neither planted nor removed.
   */
  function Updated(t: Tile, dt: real, cfg: Config): (r: Tile)
    requires cfg.wheatGrowthTime != 0.0
    ensures r.Grass? <==> t.Grass?
    ensures t.Farmed? ==> r.plant.Some? == t.plant.Some?
  {
    match t
    case Grass => Grass
    case Farmed(time, plant) =>
      match plant
      case Some(p) => Farmed(time, Some(Grown(p, dt, cfg)))
      case None => Farmed(time - dt, None)
  }

  /**
   * Hovering: grass is tilled exactly when the right button is down, into
   * farmed land with the grass growth time and no plant.
   */
  lemma HoverGrass(buttons: Buttons, cfg: Config)
    ensures Hovered(Grass, buttons, cfg) != Grass <==> buttons.right
    ensures buttons.right ==> Hovered(Grass, buttons, cfg) == Farmed(cfg.grassGrowthTime, None)
  {
  }

  /**
   * Hovering farmed land: a harvestable plant is removed exactly when the
   * right button is down, a plant that is not harvestable is always kept,
   * and bare land gets new wheat exactly when the left button is down. The
   * timer never changes and the tile stays farmed.
   */
  lemma HoverFarmed(time: real, plant: Option<FarmPlant>, buttons: Buttons, cfg: Config)
    ensures Hovered(Farmed(time, plant), buttons, cfg).Farmed?
    ensures Hovered(Farmed(time, plant), buttons, cfg).time == time
    ensures plant.Some? ==>
      (Hovered(Farmed(time, plant), buttons, cfg).plant == None <==> Harvestable(plant.value) && buttons.right)
    ensures plant.Some? && !(Harvestable(plant.value) && buttons.right) ==>
      Hovered(Farmed(time, plant), buttons, cfg) == Farmed(time, plant)
    ensures plant.None? ==>
      Hovered(Farmed(time, plant), buttons, cfg)
        == (if buttons.left then Farmed(time, Some(Wheat(0.0))) else Farmed(time, None))
  {
  }

  /**
   * Updating: grass stays grass; a plant grows (`Grown`) with the timer
   * kept; bare farmed land counts its timer down by `dt` and
   * stays bare.
   */
  lemma UpdateCases(t: Tile, dt: real, cfg: Config)
    requires cfg.wheatGrowthTime != 0.0
    ensures t.Grass? ==> Updated(t, dt, cfg) == Grass
    ensures t.Farmed? ==> Updated(t, dt, cfg).Farmed?
    ensures t.Farmed? && t.plant.Some? ==>
      Updated(t, dt, cfg) == Farmed(t.time, Some(Grown(t.plant.value, dt, cfg)))
    ensures t.Farmed? && t.plant.None? ==> Updated(t, dt, cfg) == Farmed(t.time - dt, None)
  {
  }

  /** What happens to a tile in one frame: it is hovered, or time passes. */
  datatype Event = Hover(buttons: Buttons) | Tick(dt: real)

  function Apply(t: Tile, e: Event, cfg: Config): Tile
    requires cfg.wheatGrowthTime != 0.0
  {
    match e
    case Hover(buttons) => Hovered(t, buttons, cfg)
    case Tick(dt) => Updated(t, dt, cfg)
  }

  function Replay(t: Tile, events: seq<Event>, cfg: Config): Tile
    requires cfg.wheatGrowthTime != 0.0
    decreases |events|
  {
    if events == [] then t else Replay(Apply(t, events[0], cfg), events[1..], cfg)
  }

  /** Once farmed, a tile never turns back into grass, whatever happens to it. */
  lemma {:induction false} FarmedStaysFarmed(t: Tile, events: seq<Event>, cfg: Config)
    requires cfg.wheatGrowthTime != 0.0
    requires t.Farmed?
    ensures Replay(t, events, cfg).Farmed?
    decreases |events|
  {
    if events != [] {
      var e := events[0];
      if e.Hover? {
        HoverFarmed(t.time, t.plant, e.buttons, cfg);
      } else {
        UpdateCases(t, e.dt, cfg);
      }
      FarmedStaysFarmed(Apply(t, e, cfg), events[1..], cfg);
    }
  }

  /** Grass that is never hovered with the right button stays grass. */
  lemma {:induction false} GrassNeedsRightClick(events: seq<Event>, cfg: Config)
    requires cfg.wheatGrowthTime != 0.0
    requires forall k :: 0 <= k < |events| ==> events[k].Hover? ==> !events[k].buttons.right
    ensures Replay(Grass, events, cfg) == Grass
    decreases |events|
  {
    if events != [] {
      GrassNeedsRightClick(events[1..], cfg);
    }
  }

  /** A place holding one tile, changed in place by the hover and update handlers. */
  class TileSlot {
    var tile: Tile

    constructor (tile: Tile)
      ensures this.tile == tile
    {
      this.tile := tile;
    }

    /** `Tile::hovered`. */
    method Hover(buttons: Buttons, cfg: Config)
      modifies this
      ensures tile == Hovered(old(tile), buttons, cfg)
    {
      match tile
      case Grass =>
        if buttons.right {
          tile := Farmed(cfg.grassGrowthTime, None);
        }
      case Farmed(time, plant) =>
        if plant.Some? {
          if Harvestable(plant.value) {
            if buttons.right {
              tile := tile.(plant := None);
            }
          }
        } else {
          if buttons.left {
            tile := tile.(plant := Some(Wheat(0.0)));
          }
        }
    }

    /** `Tile::update`, with `FarmPlant::update` for a planted tile. */
    method Update(dt: real, cfg: Config)
      requires cfg.wheatGrowthTime != 0.0
      modifies this
      ensures tile == Updated(old(tile), dt, cfg)
    {
      match tile
      case Farmed(time, plant) =>
        if plant.Some? {
          var growth := plant.value.growth;
          growth := growth + dt * (1.0 / cfg.wheatGrowthTime);
          assert Wheat(growth) == Grown(plant.value, dt, cfg);
          tile := Farmed(time, Some(Wheat(growth)));
        } else {
          tile := tile.(time := time - dt);
          if tile.time <= 0.0 {
            tile := tile.(plant := None);
          }
        }
      case Grass =>
    }
  }
}
