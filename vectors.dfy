/**
 * Value vectors standing for JOML's Vector2d and Vector3d, over exact reals,
 * and a mutable two-component vector for the places where the source shares
 * one Vector2d object between several owners.
 */
module Vectors {

  datatype Vec3 = Vec3(x: real, y: real, z: real)

  datatype Vec2 = Vec2(x: real, y: real)

  const Zero3: Vec3 := Vec3(0.0, 0.0, 0.0)

  function Add3(a: Vec3, b: Vec3): Vec3 { Vec3(a.x + b.x, a.y + b.y, a.z + b.z) }

  function Sub3(a: Vec3, b: Vec3): Vec3 { Vec3(a.x - b.x, a.y - b.y, a.z - b.z) }

  function Scale3(a: Vec3, s: real): Vec3 { Vec3(a.x * s, a.y * s, a.z * s) }

  /** Squared Euclidean length; the source's `length() <= c` tests are this against `c * c`. */
  function LengthSquared3(a: Vec3): real { a.x * a.x + a.y * a.y + a.z * a.z }

  /** A mutable JOML Vector2d, for vectors the source mutates through a shared reference. */
  class Vector2d {
    var x: real
    var y: real

    constructor (x0: real, y0: real)
      ensures x == x0 && y == y0
    {
      x, y := x0, y0;
    }

    function Value(): Vec2
      reads this
    {
      Vec2(x, y)
    }
  }

  /** A mutable JOML Vector3d, for a vector argument the source changes in place. */
  class Vector3d {
    var x: real
    var y: real
    var z: real

    constructor (x0: real, y0: real, z0: real)
      ensures x == x0 && y == y0 && z == z0
    {
      x, y, z := x0, y0, z0;
    }

    function Value(): Vec3
      reads this
    {
      Vec3(x, y, z)
    }
  }
}
