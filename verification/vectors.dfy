/** Plane vectors over exact reals, standing in for nalgebra's `Vector2<f64>`. */
module Vectors {

  datatype Vec2 = Vec2(x: real, y: real)

  /** The origin; also the reset value of every acceleration. */
  const Zero: Vec2 := Vec2(0.0, 0.0)

  function Plus(u: Vec2, v: Vec2): Vec2 {
    Vec2(u.x + v.x, u.y + v.y)
  }

  function Minus(u: Vec2, v: Vec2): Vec2 {
    Vec2(u.x - v.x, u.y - v.y)
  }

  function Scale(k: real, v: Vec2): Vec2 {
    Vec2(k * v.x, k * v.y)
  }

  /** Squared Euclidean norm: `|v| > c` is written `NormSq(v) > c * c` so no square root is needed. */
  function NormSq(v: Vec2): real {
    v.x * v.x + v.y * v.y
  }
}
