/** Coordinates as exact reals. */
module Geometry {

  /** A coordinate pair in the order the bot writes it: `x` is the first
      component (the latitude) and `y` the second (the longitude). */
  datatype Point = Point(x: real, y: real)

  /** Python's two-argument `min` on reals. */
  function Min(a: real, b: real): (r: real)
    ensures r <= a && r <= b
    ensures r == a || r == b
  {
    if b < a then b else a
  }

  /** Python's two-argument `max` on reals. */
  function Max(a: real, b: real): (r: real)
    ensures r >= a && r >= b
    ensures r == a || r == b
  {
    if b > a then b else a
  }
}
