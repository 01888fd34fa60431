/** The alignment modes of the flexbox (src/containers/flexbox.rs:164-289):
    how the free space of the container is spread before, between and after
    the rows (`align-content`), before, between and after the children of a
    row (`justify-content`), and above and below a child inside its row
    (`align-items`). */
module FlexAlign {
  import opened Numeric
  import opened Faults
  import opened Sizes

  datatype JustifyContent = FlexStart | FlexEnd | Center | SpaceBetween | SpaceAround | SpaceEvenly

  datatype AlignContent = FlexStart | FlexEnd | Center | SpaceBetween | SpaceAround | SpaceEvenly | Stretch

  datatype AlignItems = FlexStart | FlexEnd | Center | Stretch

  /** Where the first element starts and the extra space added after each
      element: the `(x, x_offset)` and `(y, y_offset)` pairs. */
  datatype Spacing = Spacing(start: real, gap: real)

  /** The far edge of `count` elements of total extent `extent` laid out
      with spacing `s`: the start, the elements, and a gap between each
      neighbouring pair. */
  function End(s: Spacing, extent: real, count: nat): real
    requires count >= 1
  {
    s.start + extent + ((count - 1) as real) * s.gap
  }

  /** `justify-content` for one row (src/containers/flexbox.rs:235-266). The
      free space is measured against the raw container width, and only the
      space-distributing modes clamp it at zero; an empty row has no gaps to
      fill. */
  function Justify(mode: JustifyContent, available: real, rowWidth: real, count: nat): Spacing
  {
    var free := available - rowWidth;
    match mode
    case FlexStart => Spacing(0.0, 0.0)
    case FlexEnd => Spacing(free, 0.0)
    case Center => Spacing(free / 2.0, 0.0)
    case SpaceBetween =>
      if count <= 1 then Spacing(free / 2.0, 0.0)
      else Spacing(0.0, NonNeg(free / ((count - 1) as real)))
    case SpaceAround =>
      if count == 0 then Spacing(0.0, 0.0)
      else
        var g := NonNeg(free / (count as real));
        Spacing(g / 2.0, g)
    case SpaceEvenly =>
      var g := NonNeg(free / ((count + 1) as real));
      Spacing(g, g)
  }

  /** `align-content` for the stack of rows (src/containers/flexbox.rs:164-232).
      Every mode clamps the free space at zero; `Stretch` places the rows
      like `FlexStart` after growing them (see `StretchShare`). */
  function Distribute(mode: AlignContent, available: real, total: real, count: nat): Spacing
  {
    var free := available - total;
    match mode
    case FlexStart => Spacing(0.0, 0.0)
    case FlexEnd => Spacing(NonNeg(free), 0.0)
    case Center => Spacing(NonNeg(free / 2.0), 0.0)
    case SpaceBetween =>
      if count <= 1 then Spacing(NonNeg(free / 2.0), 0.0)
      else Spacing(0.0, NonNeg(free / ((count - 1) as real)))
    case SpaceAround =>
      if count == 0 then Spacing(0.0, 0.0)
      else
        var g := NonNeg(free / (count as real));
        Spacing(g / 2.0, g)
    case SpaceEvenly =>
      var g := NonNeg(free / ((count + 1) as real));
      Spacing(g, g)
    case Stretch => Spacing(0.0, 0.0)
  }

  /** The height `AlignContent::Stretch` adds to every row: an equal share of
      the space left below the rows, if any. */
  function StretchShare(available: real, total: real, count: nat): (add: real)
    ensures add >= 0.0
  {
    if count == 0 then 0.0 else NonNeg(available - total) / (count as real)
  }

  /** The vertical offset and the height of one child inside a row of height
      `rowHeight` (src/containers/flexbox.rs:270-289). `Stretch` clamps the
      row height into the child's bounds, which panics when they are
      inverted. */
  function Place(mode: AlignItems, rowHeight: real, c: WidgetSize): Result<(real, real)>
  {
    match mode
    case FlexStart => Done((0.0, c.height))
    case FlexEnd => Done((NonNeg(rowHeight - c.height), c.height))
    case Center => Done((NonNeg((rowHeight - c.height) / 2.0), c.height))
    case Stretch =>
      if c.HeightBoundsOk() then Done((0.0, Clamp(rowHeight, c.minHeight, c.maxHeight)))
      else Panic(InvertedBounds)
  }

  // ---------------------------------------------------------------------
  // Scalar facts

  /** `k` equal shares of `free` add back up to `free`. */
  lemma Spread(free: real, k: nat)
    requires k >= 1
    ensures (k as real) * (free / (k as real)) == free
  {
  }

  /** `count - 1` gaps of `free / (count + 1)` leave two more gaps' worth of
      room, one on each side. */
  lemma SpreadEvenly(free: real, count: nat)
    requires count >= 1
    ensures var g := free / ((count + 1) as real);
      g + ((count - 1) as real) * g + g == free
  {
    var g := free / ((count + 1) as real);
    assert ((count + 1) as real) * g == free;
  }

  /** `count - 1` gaps of `free / count` leave one gap's worth of room, split
      between the two sides. */
  lemma SpreadAround(free: real, count: nat)
    requires count >= 1
    ensures var g := free / (count as real);
      g / 2.0 + ((count - 1) as real) * g + g / 2.0 == free
  {
    var g := free / (count as real);
    assert (count as real) * g == free;
  }

  // ---------------------------------------------------------------------
  // What the modes promise

  /** When the row fits, `justify-content` keeps it inside the container and
      spreads the free space as each mode names: all of it after the row
      (`FlexStart`), before it (`FlexEnd`), equally on both sides (`Center`),
      only between the children (`SpaceBetween`), half a gap on each side
      (`SpaceAround`), or a full gap on each side (`SpaceEvenly`). */
  lemma {:induction false} JustifyFills(mode: JustifyContent, available: real, rowWidth: real, count: nat)
    requires count >= 1 && rowWidth <= available
    ensures var s := Justify(mode, available, rowWidth, count);
      var end := End(s, rowWidth, count);
      && s.start >= 0.0 && s.gap >= 0.0 && end <= available
      && (mode == JustifyContent.FlexStart ==> s.start == 0.0 && s.gap == 0.0)
      && (mode == JustifyContent.FlexEnd ==> s.gap == 0.0 && end == available)
      && (mode == JustifyContent.Center ==> s.gap == 0.0 && s.start == available - end)
      && (mode == JustifyContent.SpaceBetween && count >= 2 ==> s.start == 0.0 && end == available)
      && (mode == JustifyContent.SpaceAround ==> s.gap == 2.0 * s.start && s.start == available - end)
      && (mode == JustifyContent.SpaceEvenly ==> s.gap == s.start && s.start == available - end)
  {
    var free := available - rowWidth;
    match mode
    case SpaceBetween =>
      if count >= 2 {
        Spread(free, count - 1);
      }
    case SpaceAround =>
      SpreadAround(free, count);
    case SpaceEvenly =>
      SpreadEvenly(free, count);
    case _ =>
  }

  /** When the row is too wide, no mode adds gaps; `FlexEnd` and `Center`
      still align the row's right edge, resp. its middle, so the row sticks
      out on the left, while the space-distributing modes start it at 0. */
  lemma {:induction false} JustifyOverflowing(mode: JustifyContent, available: real, rowWidth: real, count: nat)
    requires count >= 1 && rowWidth > available
    ensures var s := Justify(mode, available, rowWidth, count);
      var end := End(s, rowWidth, count);
      && s.gap == 0.0
      && (mode == JustifyContent.FlexEnd ==> end == available && s.start < 0.0)
      && ((mode == JustifyContent.Center || (mode == JustifyContent.SpaceBetween && count == 1)) ==>
            s.start == available - end && s.start < 0.0)
      && ((mode == JustifyContent.FlexStart || (mode == JustifyContent.SpaceBetween && count >= 2)
           || mode == JustifyContent.SpaceAround || mode == JustifyContent.SpaceEvenly) ==> s.start == 0.0)
  {
  }

  /** When the rows fit, `align-content` keeps them inside the container and
      spreads the free space as each mode names; when they do not, every mode
      stacks them from the top with no gaps. */
  lemma {:induction false} DistributeFills(mode: AlignContent, available: real, total: real, count: nat)
    requires count >= 1
    ensures var s := Distribute(mode, available, total, count);
      var end := End(s, total, count);
      && s.start >= 0.0 && s.gap >= 0.0
      && (total > available ==> s == Spacing(0.0, 0.0))
      && (total <= available ==>
          && end <= available
          && (mode == AlignContent.FlexStart || mode == AlignContent.Stretch ==> s == Spacing(0.0, 0.0))
          && (mode == AlignContent.FlexEnd ==> s.gap == 0.0 && end == available)
          && (mode == AlignContent.Center ==> s.gap == 0.0 && s.start == available - end)
          && (mode == AlignContent.SpaceBetween && count >= 2 ==> s.start == 0.0 && end == available)
          && (mode == AlignContent.SpaceAround ==> s.gap == 2.0 * s.start && s.start == available - end)
          && (mode == AlignContent.SpaceEvenly ==> s.gap == s.start && s.start == available - end))
  {
    var free := available - total;
    if free >= 0.0 {
      match mode
      case SpaceBetween =>
        if count >= 2 {
          Spread(free, count - 1);
        }
      case SpaceAround =>
        SpreadAround(free, count);
      case SpaceEvenly =>
        SpreadEvenly(free, count);
      case _ =>
    }
  }

  /** The stretched rows fill the container exactly when they fit, and are
      left alone when they do not. */
  lemma {:induction false} StretchFills(available: real, total: real, count: nat)
    requires count >= 1
    ensures total <= available ==> total + (count as real) * StretchShare(available, total, count) == available
    ensures total > available ==> StretchShare(available, total, count) == 0.0
  {
    if total <= available {
      Spread(available - total, count);
    }
  }

  /** A child no taller than its row, and no lower than its own minimum,
      stays inside it: at the top (`FlexStart`), at the bottom (`FlexEnd`),
      with equal space above and below (`Center`); a stretched child whose
      bounds admit the row height fills the row exactly. */
  lemma {:induction false} PlaceInsideRow(mode: AlignItems, rowHeight: real, c: WidgetSize)
    requires c.minHeight <= c.height <= c.maxHeight && 0.0 <= c.height <= rowHeight
    ensures Place(mode, rowHeight, c).Done?
    ensures var (offset, height) := Place(mode, rowHeight, c).value;
      && 0.0 <= offset && offset + height <= rowHeight
      && (mode != AlignItems.Stretch ==> height == c.height)
      && (mode == AlignItems.FlexStart ==> offset == 0.0)
      && (mode == AlignItems.FlexEnd ==> offset + height == rowHeight)
      && (mode == AlignItems.Center ==> offset == rowHeight - (offset + height))
      && (mode == AlignItems.Stretch && c.minHeight <= rowHeight <= c.maxHeight ==>
            offset == 0.0 && height == rowHeight)
  {
  }

  /** Only `Stretch` can panic, and it does exactly when the child's height
      bounds are inverted. */
  lemma {:induction false} PlacePanics(mode: AlignItems, rowHeight: real, c: WidgetSize)
    ensures Place(mode, rowHeight, c).Panic? <==> (mode == AlignItems.Stretch && !c.HeightBoundsOk())
  {
  }
}
