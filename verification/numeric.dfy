/** Scalar helpers shared by the layout code: the `max`/`min` helpers of the
    flexbox module, `f32::clamp` / `Ord::clamp`, and the numeric casts the
    layout performs (`f32 as usize`, `f32 as isize`). */
module Numeric {

  const USIZE_MAX: int := 0xFFFF_FFFF_FFFF_FFFF
  const ISIZE_MAX: int := 0x7FFF_FFFF_FFFF_FFFF
  const ISIZE_MIN: int := -0x8000_0000_0000_0000

  /** Rust's `usize` on a 64-bit target. */
  type Usize = n: nat | n <= USIZE_MAX

  /** The flexbox's `max`: the first argument wins unless the second is strictly larger. */
  function Max(a: real, b: real): (r: real)
    ensures r >= a && r >= b
    ensures r == a || r == b
  {
    if a > b then a else b
  }

  /** The flexbox's `min`: the first argument wins unless the second is strictly smaller. */
  function Min(a: real, b: real): (r: real)
    ensures r <= a && r <= b
    ensures r == a || r == b
  {
    if a < b then a else b
  }

  /** Negative values replaced by zero: the `if x < 0.0 { x = 0.0 }` guard the
      alignment code applies to every leftover space. */
  function NonNeg(x: real): (r: real)
    ensures r >= 0.0 && r >= x
    ensures x >= 0.0 ==> r == x
  {
    if x < 0.0 then 0.0 else x
  }

  /** `f32::clamp`. It panics when `lo > hi`, so callers must rule that out. */
  function Clamp(v: real, lo: real, hi: real): (r: real)
    requires lo <= hi
    ensures lo <= r <= hi
    ensures lo <= v <= hi ==> r == v
    ensures v < lo ==> r == lo
    ensures v > hi ==> r == hi
  {
    if v < lo then lo else if v > hi then hi else v
  }

  /** `std::cmp::max` on `usize`. */
  function NatMax(a: nat, b: nat): (r: nat)
    ensures r >= a && r >= b
    ensures r == a || r == b
  {
    if a >= b then a else b
  }

  /** `std::cmp::min` on `usize`. */
  function NatMin(a: nat, b: nat): (r: nat)
    ensures r <= a && r <= b
    ensures r == a || r == b
  {
    if a <= b then a else b
  }

  /** `Ord::clamp` on `usize`. It panics when `lo > hi`. */
  function NatClamp(v: nat, lo: nat, hi: nat): (r: nat)
    requires lo <= hi
    ensures lo <= r <= hi
    ensures lo <= v <= hi ==> r == v
    ensures v < lo ==> r == lo
    ensures v > hi ==> r == hi
  {
    if v < lo then lo else if v > hi then hi else v
  }

  /** The saturating `f32 as usize` cast: negative values become 0, the
      fraction is dropped, and values past `usize::MAX` saturate. */
  function ToUsize(x: real): (r: Usize)
    ensures 0.0 <= x <= USIZE_MAX as real ==> r as real <= x < r as real + 1.0
    ensures x < 0.0 ==> r == 0
    ensures x >= USIZE_MAX as real ==> r == USIZE_MAX
  {
    if x < 0.0 then 0 else if x >= USIZE_MAX as real then USIZE_MAX else x.Floor
  }

  /** The saturating `f32 as isize` cast: the fraction is dropped towards zero
      and values outside the `isize` range saturate. */
  function TruncToIsize(x: real): (r: int)
    ensures ISIZE_MIN <= r <= ISIZE_MAX
    ensures 0.0 <= x <= ISIZE_MAX as real ==> r as real <= x < r as real + 1.0
    ensures ISIZE_MIN as real <= x <= 0.0 ==> r as real - 1.0 < x <= r as real
    ensures x >= ISIZE_MAX as real ==> r == ISIZE_MAX
    ensures x <= ISIZE_MIN as real ==> r == ISIZE_MIN
  {
    if x >= 0.0 then
      (if x >= ISIZE_MAX as real then ISIZE_MAX else x.Floor)
    else
      (if x <= ISIZE_MIN as real then ISIZE_MIN else -((-x).Floor))
  }

  /** Truncation never reverses the order of two values. */
  lemma TruncMonotone(x: real, y: real)
    requires x <= y
    ensures TruncToIsize(x) <= TruncToIsize(y)
  {
    if 0.0 <= x {
      assert x.Floor <= y.Floor;
    } else if y <= 0.0 {
      assert (-y).Floor <= (-x).Floor;
    }
  }
}
