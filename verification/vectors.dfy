/** Two-dimensional vectors over the reals, standing in for the
    framework's float32 `vector.Vector2f` (rounding is not modelled). */
module Vectors {

  datatype Vec2 = Vec2(x: real, y: real) {

    function Add(o: Vec2): Vec2 {
      Vec2(x + o.x, y + o.y)
    }

    function Sub(o: Vec2): Vec2 {
      Vec2(x - o.x, y - o.y)
    }

    function Scl(k: real): Vec2 {
      Vec2(x * k, y * k)
    }

    function Dot(o: Vec2): real {
      x * o.x + y * o.y
    }
  }

  const Zero: Vec2 := Vec2(0.0, 0.0)
}
