/** Axis-aligned rectangles of the integer crate (fgui/src/rect.rs): signed
    corners, built from a signed corner and an unsigned extent. */
module FgGeometry {
  import opened Numeric
  import opened Faults

  const WORD: int := 0x1_0000_0000_0000_0000

  /** Rust's `isize` on a 64-bit target. */
  type Isize = i: int | ISIZE_MIN <= i <= ISIZE_MAX

  datatype Rect = Rect(topLeft: (int, int), bottomRight: (int, int))

  /** `w as isize`: the bits are kept, so an extent past `isize::MAX` turns
      negative. The cast itself never panics. */
  function AsIsize(w: Usize): (r: Isize)
    ensures 0 <= r ==> r == w
    ensures r < 0 ==> r == w - WORD
  {
    if w <= ISIZE_MAX then w else w - WORD
  }

  /** Casting back to `usize` recovers the extent. */
  lemma {:induction false} AsIsizeRoundTrip(w: Usize)
    ensures (AsIsize(w) + WORD) % WORD == w
    ensures 0 <= AsIsize(w) <==> w <= ISIZE_MAX
  {
    if w <= ISIZE_MAX {
      assert AsIsize(w) + WORD == w + WORD;
    } else {
      assert AsIsize(w) + WORD == w;
    }
  }

  /** The signed addition `x + w as isize`, which panics when it leaves
      the `isize` range. */
  function Offset(x: Isize, w: Usize): (r: Result<Isize>)
    ensures r.Done? <==> ISIZE_MIN <= x + AsIsize(w) <= ISIZE_MAX
    ensures r.Done? ==> r.value == x + AsIsize(w)
    ensures r.Panic? ==> r.fault == Overflow
  {
    var s := x + AsIsize(w);
    if s < ISIZE_MIN || ISIZE_MAX < s then Panic(Overflow) else Done(s)
  }

  /** `Rect::sized`: the rectangle with top-left corner `(x, y)` and extent
      `w` x `h`. The corner is always `(x, y)`; the bottom-right corner is at
      or past it on an axis exactly when that extent does not exceed
      `isize::MAX`; an extent that reaches past the `isize` range is a panic. */
  function Sized(x: Isize, y: Isize, w: Usize, h: Usize): (r: Result<Rect>)
    ensures r.Done? <==> (ISIZE_MIN <= x + AsIsize(w) <= ISIZE_MAX && ISIZE_MIN <= y + AsIsize(h) <= ISIZE_MAX)
    ensures w <= ISIZE_MAX && h <= ISIZE_MAX ==> (r.Done? <==> (x + w <= ISIZE_MAX && y + h <= ISIZE_MAX))
    ensures r.Panic? ==> r.fault == Overflow
    ensures r.Done? ==> r.value.topLeft == (x, y)
    ensures r.Done? ==> (r.value.topLeft.0 <= r.value.bottomRight.0 <==> w <= ISIZE_MAX)
    ensures r.Done? ==> (r.value.topLeft.1 <= r.value.bottomRight.1 <==> h <= ISIZE_MAX)
    ensures r.Done? && w <= ISIZE_MAX && h <= ISIZE_MAX ==> r.value.bottomRight == (x + w, y + h)
  {
    match (Offset(x, w), Offset(y, h))
    case (Done(right), Done(bottom)) => Done(Rect((x, y), (right, bottom)))
    case (Panic(f), _) => Panic(f)
    case (_, Panic(f)) => Panic(f)
  }

  /** A rectangle with corners and extents in range is rebuilt by `Sized`
      from its corner and extent. */
  lemma {:induction false} SizedRoundTrip(r: Rect)
    requires ISIZE_MIN <= r.topLeft.0 <= r.bottomRight.0 <= ISIZE_MAX
    requires ISIZE_MIN <= r.topLeft.1 <= r.bottomRight.1 <= ISIZE_MAX
    requires r.bottomRight.0 - r.topLeft.0 <= ISIZE_MAX && r.bottomRight.1 - r.topLeft.1 <= ISIZE_MAX
    ensures Sized(r.topLeft.0, r.topLeft.1, r.bottomRight.0 - r.topLeft.0, r.bottomRight.1 - r.topLeft.1) == Done(r)
  {
  }
}
