/**
 * Two- and three-component vectors over the reals. The source uses `f32`
 * vectors (`Vec2`, `Vec3`); rounding is not modelled, every component is an
 * exact real number.
 */
module Vectors {

  datatype Vec2 = Vec2(x: real, y: real)

  datatype Vec3 = Vec3(x: real, y: real, z: real)

  const Zero2: Vec2 := Vec2(0.0, 0.0)
  const Zero3: Vec3 := Vec3(0.0, 0.0, 0.0)
  /** The unit vector along +Y (`Vec3::Y`). */
  const UnitY: Vec3 := Vec3(0.0, 1.0, 0.0)

  function Add2(a: Vec2, b: Vec2): Vec2 {
    Vec2(a.x + b.x, a.y + b.y)
  }

  function Sub2(a: Vec2, b: Vec2): Vec2 {
    Vec2(a.x - b.x, a.y - b.y)
  }

  function Add(a: Vec3, b: Vec3): Vec3 {
    Vec3(a.x + b.x, a.y + b.y, a.z + b.z)
  }

  function Sub(a: Vec3, b: Vec3): Vec3 {
    Vec3(a.x - b.x, a.y - b.y, a.z - b.z)
  }

  function Scale(a: Vec3, k: real): Vec3 {
    Vec3(a.x * k, a.y * k, a.z * k)
  }

  /** `Vec2::extend(z)`. */
  function Extend(a: Vec2, z: real): Vec3 {
    Vec3(a.x, a.y, z)
  }
}
