/** Three-axis points and displacements, with exact `real` coordinates. */
module Geometry {

  datatype Vec3 = Vec3(x: real, y: real, z: real)

  const Origin := Vec3(0.0, 0.0, 0.0)

  function Add(a: Vec3, b: Vec3): Vec3 {
    Vec3(a.x + b.x, a.y + b.y, a.z + b.z)
  }

  function Sub(a: Vec3, b: Vec3): Vec3 {
    Vec3(a.x - b.x, a.y - b.y, a.z - b.z)
  }

  function Scale(t: real, v: Vec3): Vec3 {
    Vec3(t * v.x, t * v.y, t * v.z)
  }

  /** Coordinate `i` (0 for X, 1 for Y, 2 for Z). */
  function Axis(v: Vec3, i: nat): real
    requires i < 3
  {
    if i == 0 then v.x else if i == 1 then v.y else v.z
  }

  /** Translating by an offset and back is the identity, in both orders. */
  lemma FrameRoundTrip(p: Vec3, offset: Vec3)
    ensures Sub(Add(p, offset), offset) == p
    ensures Add(Sub(p, offset), offset) == p
  {
  }
}
