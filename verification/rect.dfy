/** Axis-aligned rectangles with real coordinates (src/rect.rs). */
module Geometry {

  datatype Rect = Rect(min: (real, real), max: (real, real))

  /** `Rect::width`. */
  function Width(r: Rect): (w: real)
    ensures r.min.0 + w == r.max.0
  {
    r.max.0 - r.min.0
  }

  /** `Rect::height`. */
  function Height(r: Rect): (h: real)
    ensures r.min.1 + h == r.max.1
  {
    r.max.1 - r.min.1
  }

  /** `Rect::sized`: the rectangle with top-left corner `(x, y)` and the given
      extent. Negative extents are accepted and give an inverted rectangle. */
  function Sized(x: real, y: real, w: real, h: real): (r: Rect)
    ensures r.min == (x, y)
    ensures Width(r) == w && Height(r) == h
    ensures (w >= 0.0 && h >= 0.0) <==> (r.min.0 <= r.max.0 && r.min.1 <= r.max.1)
  {
    Rect((x, y), (x + w, y + h))
  }

  /** `Sized` is the inverse of reading a rectangle's corner and extent. */
  lemma SizedRoundTrip(r: Rect)
    ensures Sized(r.min.0, r.min.1, Width(r), Height(r)) == r
  {
  }
}
