/** The size-constraint record every widget reports (src/widget.rs): a
    preferred width and height, each with a minimum and a maximum. */
module Sizes {
  import opened Numeric

  datatype WidgetSize = WidgetSize(
    minWidth: real, width: real, maxWidth: real,
    minHeight: real, height: real, maxHeight: real)
  {
    /** The horizontal bounds can be handed to `clamp` without a panic. */
    predicate WidthBoundsOk() { minWidth <= maxWidth }

    /** The vertical bounds can be handed to `clamp` without a panic. */
    predicate HeightBoundsOk() { minHeight <= maxHeight }

    /** The box-model invariant the setters establish. */
    predicate InRange() {
      minWidth <= width <= maxWidth && minHeight <= height <= maxHeight
    }
  }

  /** `set_width`: stores the width clamped into the widget's own bounds. */
  function SetWidth(s: WidgetSize, w: real): (r: WidgetSize)
    requires s.WidthBoundsOk()
    ensures r.minWidth <= r.width <= r.maxWidth
    ensures r == s.(width := r.width)
    ensures s.minWidth <= w <= s.maxWidth ==> r.width == w
    ensures w < s.minWidth ==> r.width == s.minWidth
    ensures w > s.maxWidth ==> r.width == s.maxWidth
  {
    s.(width := Clamp(w, s.minWidth, s.maxWidth))
  }

  /** `set_height`: stores the height clamped into the widget's own bounds. */
  function SetHeight(s: WidgetSize, h: real): (r: WidgetSize)
    requires s.HeightBoundsOk()
    ensures r.minHeight <= r.height <= r.maxHeight
    ensures r == s.(height := r.height)
    ensures s.minHeight <= h <= s.maxHeight ==> r.height == h
    ensures h < s.minHeight ==> r.height == s.minHeight
    ensures h > s.maxHeight ==> r.height == s.maxHeight
  {
    s.(height := Clamp(h, s.minHeight, s.maxHeight))
  }

  /** `set_size`: `set_width` followed by `set_height`. */
  function SetSize(s: WidgetSize, w: real, h: real): (r: WidgetSize)
    requires s.WidthBoundsOk() && s.HeightBoundsOk()
    ensures r.InRange()
    ensures r == s.(width := r.width, height := r.height)
    ensures s.minWidth <= w <= s.maxWidth ==> r.width == w
    ensures s.minHeight <= h <= s.maxHeight ==> r.height == h
  {
    SetHeight(SetWidth(s, w), h)
  }

  /** `fit_width`: the current width is first clamped into the restriction's
      bounds, then into the widget's own bounds, which therefore win. */
  function FitWidth(s: WidgetSize, restriction: WidgetSize): (r: WidgetSize)
    requires s.WidthBoundsOk() && restriction.WidthBoundsOk()
    ensures s.minWidth <= r.width <= s.maxWidth
    ensures r == s.(width := r.width)
    ensures var v := Clamp(s.width, restriction.minWidth, restriction.maxWidth);
      (s.minWidth <= v <= s.maxWidth ==> r.width == v)
      && (v < s.minWidth ==> r.width == s.minWidth)
      && (v > s.maxWidth ==> r.width == s.maxWidth)
  {
    var w := Clamp(s.width, restriction.minWidth, restriction.maxWidth);
    s.(width := Clamp(w, s.minWidth, s.maxWidth))
  }

  /** `fit_height`: the vertical counterpart of `fit_width`. */
  function FitHeight(s: WidgetSize, restriction: WidgetSize): (r: WidgetSize)
    requires s.HeightBoundsOk() && restriction.HeightBoundsOk()
    ensures s.minHeight <= r.height <= s.maxHeight
    ensures r == s.(height := r.height)
    ensures var v := Clamp(s.height, restriction.minHeight, restriction.maxHeight);
      (s.minHeight <= v <= s.maxHeight ==> r.height == v)
      && (v < s.minHeight ==> r.height == s.minHeight)
      && (v > s.maxHeight ==> r.height == s.maxHeight)
  {
    var h := Clamp(s.height, restriction.minHeight, restriction.maxHeight);
    s.(height := Clamp(h, s.minHeight, s.maxHeight))
  }

  /** A setter applied twice with the same value stores what it stored the
      first time, and re-storing the value a setter produced changes nothing. */
  lemma SettersIdempotent(s: WidgetSize, w: real, h: real)
    requires s.WidthBoundsOk() && s.HeightBoundsOk()
    ensures SetWidth(SetWidth(s, w), w) == SetWidth(s, w)
    ensures SetHeight(SetHeight(s, h), h) == SetHeight(s, h)
    ensures SetSize(SetSize(s, w, h), w, h) == SetSize(s, w, h)
    ensures s.InRange() ==> SetSize(s, s.width, s.height) == s
  {
  }

  /** The two setters touch different fields, so their order does not matter. */
  lemma SettersCommute(s: WidgetSize, w: real, h: real)
    requires s.WidthBoundsOk() && s.HeightBoundsOk()
    ensures SetHeight(SetWidth(s, w), h) == SetWidth(SetHeight(s, h), w)
  {
  }
}
