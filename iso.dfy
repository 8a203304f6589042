/**
 * Conversion between screen coordinates and isometric tile coordinates
 * (src/iso.rs). Both maps are linear; over the reals, and for a tile size
 * with non-zero components, they are inverse to each other.
 */
module Iso {
  import opened Vectors

  /** A tile size the screen-to-tile map can divide by. */
  predicate ValidTileSize(tileSize: Vec2) {
    tileSize.x != 0.0 && tileSize.y != 0.0
  }

  /** `to_iso`: screen position to isometric tile coordinates. */
  function ToIso(screen: Vec2, tileSize: Vec2): (iso: Vec2)
    requires ValidTileSize(tileSize)
    ensures iso.x + iso.y == screen.y / (tileSize.y / 4.0)
    ensures iso.x - iso.y == screen.x / (tileSize.x / 2.0)
  {
    Vec2(
      (screen.x / (tileSize.x / 2.0) + screen.y / (tileSize.y / 4.0)) / 2.0,
      (screen.y / (tileSize.y / 4.0) - screen.x / (tileSize.x / 2.0)) / 2.0)
  }

  /**
   * `from_iso`: isometric tile coordinates to screen position. Screen x
   * counts the difference of the tile coordinates in half tile widths, screen
   * y their sum in quarter tile heights.
   */
  function FromIso(iso: Vec2, tileSize: Vec2): (screen: Vec2)
    ensures tileSize.x != 0.0 ==> screen.x / (tileSize.x / 2.0) == iso.x - iso.y
    ensures tileSize.y != 0.0 ==> screen.y / (tileSize.y / 4.0) == iso.x + iso.y
  {
    Vec2((iso.x - iso.y) * tileSize.x / 2.0, (iso.x + iso.y) * tileSize.y / 4.0)
  }

  /** Going to the screen and back returns the tile coordinates. */
  lemma ToIsoFromIso(iso: Vec2, tileSize: Vec2)
    requires ValidTileSize(tileSize)
    ensures ToIso(FromIso(iso, tileSize), tileSize) == iso
  {
    var s := FromIso(iso, tileSize);
    assert s.x / (tileSize.x / 2.0) == iso.x - iso.y;
    assert s.y / (tileSize.y / 4.0) == iso.x + iso.y;
  }

  /** Going to tile coordinates and back returns the screen position. */
  lemma FromIsoToIso(screen: Vec2, tileSize: Vec2)
    requires ValidTileSize(tileSize)
    ensures FromIso(ToIso(screen, tileSize), tileSize) == screen
  {
    var a := screen.x / (tileSize.x / 2.0);
    var b := screen.y / (tileSize.y / 4.0);
    assert a * tileSize.x / 2.0 == screen.x;
    assert b * tileSize.y / 4.0 == screen.y;
  }

  /** `from_iso` is linear: it fixes the origin and is additive. */
  lemma FromIsoLinear(a: Vec2, b: Vec2, tileSize: Vec2)
    ensures FromIso(Zero2, tileSize) == Zero2
    ensures FromIso(Add2(a, b), tileSize) == Add2(FromIso(a, tileSize), FromIso(b, tileSize))
  {
  }

  /** `to_iso` is linear: it fixes the origin and is additive. */
  lemma ToIsoLinear(a: Vec2, b: Vec2, tileSize: Vec2)
    requires ValidTileSize(tileSize)
    ensures ToIso(Zero2, tileSize) == Zero2
    ensures ToIso(Add2(a, b), tileSize) == Add2(ToIso(a, tileSize), ToIso(b, tileSize))
  {
  }
}
