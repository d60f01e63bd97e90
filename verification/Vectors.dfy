/** Points, velocities and accelerations in exact arithmetic. */
module Vectors {

  datatype Vec = Vec(x: real, y: real, z: real)

  const ORIGIN := Vec(0.0, 0.0, 0.0)

  function Add(a: Vec, b: Vec): Vec
  {
    Vec(a.x + b.x, a.y + b.y, a.z + b.z)
  }

  function Sub(a: Vec, b: Vec): Vec
  {
    Vec(a.x - b.x, a.y - b.y, a.z - b.z)
  }

  function Scale(k: real, a: Vec): Vec
  {
    Vec(k * a.x, k * a.y, k * a.z)
  }

  function Neg(a: Vec): Vec
  {
    Vec(-a.x, -a.y, -a.z)
  }

  function SquaredNorm(a: Vec): real
  {
    a.x * a.x + a.y * a.y + a.z * a.z
  }

  function Abs(r: real): real
  {
    if r < 0.0 then -r else r
  }

  /** A mass at a place. */
  datatype Body = Body(mass: real, position: Vec)
}
