/** Exact real-valued stand-ins for the engine's 2- and 3-component vectors.
    Only the operations the decimator itself performs on them are modelled. */
module Vectors {

  datatype Vec3 = Vec3(x: real, y: real, z: real)

  datatype Vec2 = Vec2(x: real, y: real)

  function Plus(a: Vec3, b: Vec3): Vec3
  {
    Vec3(a.x + b.x, a.y + b.y, a.z + b.z)
  }

  /** `a.add(b).divide(new Vector3(2, 2, 2))`: the component-wise average. */
  function Midpoint(a: Vec3, b: Vec3): (r: Vec3)
    ensures Plus(r, r) == Plus(a, b)
  {
    Vec3((a.x + b.x) / 2.0, (a.y + b.y) / 2.0, (a.z + b.z) / 2.0)
  }
}
