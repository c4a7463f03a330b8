/** Points, pixels and the rounding the capture engine applies to window coordinates. */
module Geometry {

  /** A 3D point (world, camera or window space). */
  datatype Point3 = Point3(x: real, y: real, z: real)

  /** A 2D image-space point. */
  datatype Point2 = Point2(x: real, y: real)

  /** A window pixel: `x` is the column, `y` the row. */
  datatype Pixel = Pixel(x: int, y: int)

  /**
   * C's `round`: the nearest integer, halfway cases rounded away from zero.
   * The two ensures pin the result down uniquely.
   */
  function Round(v: real): (n: int)
    ensures v >= 0.0 ==> n as real - 0.5 <= v < n as real + 0.5
    ensures v < 0.0 ==> n as real - 0.5 < v <= n as real + 0.5
  {
    if v >= 0.0 then (v + 0.5).Floor else -((-v + 0.5).Floor)
  }

  /** Rounding is symmetric about zero, and a halfway value goes away from zero. */
  lemma RoundSymmetric(v: real)
    ensures Round(-v) == -Round(v)
    ensures v >= 0.0 && v == (v.Floor as real) + 0.5 ==> Round(v) == v.Floor + 1
  {
    if v == 0.0 {
      assert Round(-v) == 0;
    }
  }

  /** The pixel a window coordinate falls on (`Point((int)round(x), (int)round(y))`). */
  function PixelOf(w: Point3): (px: Pixel)
    ensures -0.5 <= w.x - px.x as real <= 0.5 && -0.5 <= w.y - px.y as real <= 0.5
  {
    Pixel(Round(w.x), Round(w.y))
  }
}
