/** Shared value types: optional values and two-dimensional vectors. */
module Common {
  /** Rust's `Option`. */
  datatype Option<T> = None | Some(value: T)

  /** The two screen axes; position setters treat each one separately. */
  datatype Axis = X | Y

  function Other(a: Axis): Axis
  {
    if a == X then Y else X
  }

  /** A `glm::Vec2`. Coordinates are exact reals instead of `f32`. */
  datatype Vec2 = Vec2(x: real, y: real)
  {
    function Get(a: Axis): real
    {
      if a == X then x else y
    }

    function With(a: Axis, v: real): Vec2
    {
      if a == X then this.(x := v) else this.(y := v)
    }

    function Plus(o: Vec2): Vec2
    {
      Vec2(x + o.x, y + o.y)
    }

    function Minus(o: Vec2): Vec2
    {
      Vec2(x - o.x, y - o.y)
    }
  }

  /**
   * The scale from pixels to clip space for a frame buffer of that size: two
   * clip units span each axis (`2.0 / size`).
   */
  function ClipRatio(w: real, h: real): (r: Vec2)
    requires w != 0.0 && h != 0.0
    ensures r.x * w == 2.0 && r.y * h == 2.0
  {
    Vec2(2.0 / w, 2.0 / h)
  }

  /** A `glm::Vec3`. */
  datatype Vec3 = Vec3(x: real, y: real, z: real)
  {
    function Plus(o: Vec3): Vec3
    {
      Vec3(x + o.x, y + o.y, z + o.z)
    }

    function Scale(k: real): Vec3
    {
      Vec3(k * x, k * y, k * z)
    }
  }
}
