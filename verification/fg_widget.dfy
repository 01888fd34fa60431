/** The size-constraint record of the older integer crate (fgui/src/widget.rs):
    the same six fields as the real-valued one. The source stores them as
    `usize`; here they are unbounded naturals, so the model has no ceiling
    and no overflow on the sums taken over them. */
module FgSizes {
  import opened Numeric

  datatype WidgetSize = WidgetSize(
    minWidth: nat, width: nat, maxWidth: nat,
    minHeight: nat, height: nat, maxHeight: nat)
  {
    /** The horizontal bounds can be handed to `Ord::clamp` without a panic. */
    predicate WidthBoundsOk() { minWidth <= maxWidth }

    /** The vertical bounds can be handed to `Ord::clamp` without a panic. */
    predicate HeightBoundsOk() { minHeight <= maxHeight }

    predicate InRange() {
      minWidth <= width <= maxWidth && minHeight <= height <= maxHeight
    }
  }

  /** `set_width`: stores the width clamped into the record's own bounds. */
  function SetWidth(s: WidgetSize, w: nat): (r: WidgetSize)
    requires s.WidthBoundsOk()
    ensures r.minWidth <= r.width <= r.maxWidth
    ensures r == s.(width := r.width)
    ensures s.minWidth <= w <= s.maxWidth ==> r.width == w
    ensures w < s.minWidth ==> r.width == s.minWidth
    ensures w > s.maxWidth ==> r.width == s.maxWidth
  {
    s.(width := NatClamp(w, s.minWidth, s.maxWidth))
  }

  /** `set_height`: stores the height clamped into the record's own bounds. */
  function SetHeight(s: WidgetSize, h: nat): (r: WidgetSize)
    requires s.HeightBoundsOk()
    ensures r.minHeight <= r.height <= r.maxHeight
    ensures r == s.(height := r.height)
    ensures s.minHeight <= h <= s.maxHeight ==> r.height == h
    ensures h < s.minHeight ==> r.height == s.minHeight
    ensures h > s.maxHeight ==> r.height == s.maxHeight
  {
    s.(height := NatClamp(h, s.minHeight, s.maxHeight))
  }

  /** `set_size`: both clamps in one call. */
  function SetSize(s: WidgetSize, w: nat, h: nat): (r: WidgetSize)
    requires s.WidthBoundsOk() && s.HeightBoundsOk()
    ensures r.InRange()
    ensures r == s.(width := r.width, height := r.height)
    ensures s.minWidth <= w <= s.maxWidth ==> r.width == w
    ensures s.minHeight <= h <= s.maxHeight ==> r.height == h
  {
    s.(width := NatClamp(w, s.minWidth, s.maxWidth), height := NatClamp(h, s.minHeight, s.maxHeight))
  }

  /** `set_size` does what `set_width` followed by `set_height` does, in
      either order; re-storing what a setter stored changes nothing. */
  lemma {:induction false} SetSizeInSteps(s: WidgetSize, w: nat, h: nat)
    requires s.WidthBoundsOk() && s.HeightBoundsOk()
    ensures SetSize(s, w, h) == SetHeight(SetWidth(s, w), h) == SetWidth(SetHeight(s, h), w)
    ensures SetSize(SetSize(s, w, h), w, h) == SetSize(s, w, h)
    ensures s.InRange() <==> SetSize(s, s.width, s.height) == s
  {
  }
}
