/** `Flexbox::allocate_area` and `Flexbox::render`
    (src/containers/flexbox.rs:35-314): the envelope, the rows, the two
    shrink passes, the final size, the alignment, and one subarea per child. */
module Flexbox {
  import opened Numeric
  import opened Faults
  import opened Sizes
  import opened Geometry
  import opened FlexRows
  import opened FlexShrink
  import opened FlexVertical
  import opened FlexAlign
  import opened FlexPlace

  datatype FlexWrap = NoWrap | Wrap | WrapReverse

  /** The four layout settings of a flexbox. */
  datatype Config = Config(
    alignContent: AlignContent, alignItems: AlignItems,
    wrap: FlexWrap, justify: JustifyContent)

  /** What `allocate_area` hands back (the returned size) and leaves behind
      (`widget_subareas`, rebuilt from scratch on every call). */
  datatype Allocation = Allocation(size: WidgetSize, subareas: seq<Rect>)

  /** A child, as far as layout is concerned: the size it asks for when
      offered a container of the given size. */
  type Child = ((Usize, Usize)) -> WidgetSize

  /** The envelope: what the area allocator answered, or else a box that may
      grow from nothing up to the container. */
  function Envelope(answer: Option<WidgetSize>, containerSize: (Usize, Usize)): (env: WidgetSize)
    ensures answer.Some? ==> env == answer.value
    ensures answer.None? ==> env.InRange() && env.width == 0.0 && env.height == 0.0
    ensures answer.None? ==> env.minWidth == 0.0 && env.maxWidth == containerSize.0 as real
    ensures answer.None? ==> env.minHeight == 0.0 && env.maxHeight == containerSize.1 as real
  {
    match answer
    case Some(size) => size
    case None => WidgetSize(0.0, 0.0, containerSize.0 as real, 0.0, 0.0, containerSize.1 as real)
  }

  /** Every child measured against the same container size, in order. */
  function Measure(children: seq<Child>, offered: (Usize, Usize)): (cs: seq<WidgetSize>)
    ensures |cs| == |children|
    ensures forall i :: 0 <= i < |children| ==> cs[i] == children[i](offered)
  {
    seq(|children|, i requires 0 <= i < |children| => children[i](offered))
  }

  /** Row formation under `flex-wrap`. */
  function Form(wrap: FlexWrap, cs: seq<WidgetSize>, maxWidth: real): (rows: seq<Row>)
    requires wrap != WrapReverse
    ensures |rows| >= 1
    ensures Items(rows) == cs
  {
    if wrap == NoWrap then
      var rows := NoWrapRows(cs);
      ItemsSingle(rows[0]);
      assert rows == [rows[0]];
      rows
    else
      WrapRowsCorrect(cs, maxWidth);
      WrapRows(cs, maxWidth)
  }

  /** The two overflow passes: each row shrinks horizontally on its own,
      then the rows shrink vertically together. */
  function Resolve(rows: seq<Row>, env: WidgetSize): (out: seq<Row>)
    ensures |out| == |rows|
  {
    ShrinkVertical(ShrinkRows(rows, env.maxWidth), env.maxHeight)
  }

  /** The rows after formation and both overflow passes. */
  function Content(cfg: Config, env: WidgetSize, cs: seq<WidgetSize>): (rows: seq<Row>)
    requires cfg.wrap != WrapReverse
    ensures |rows| >= 1
  {
    Resolve(Form(cfg.wrap, cs, env.maxWidth), env)
  }

  /** The content width: the widest row, folded from 0 with `max`. */
  function Widest(rows: seq<Row>): (w: real)
    ensures w >= 0.0
    ensures forall i :: 0 <= i < |rows| ==> rows[i].width <= w
    ensures w == 0.0 || exists i :: 0 <= i < |rows| && rows[i].width == w
    decreases |rows|
  {
    if |rows| == 0 then 0.0
    else
      var n := |rows| - 1;
      var w := Widest(rows[..n]);
      assert forall i :: 0 <= i < n ==> rows[..n][i] == rows[i];
      Max(w, rows[n].width)
  }

  /** Every child's height bounds are the right way round. */
  predicate AllHeightsOk(s: seq<WidgetSize>)
  {
    forall k :: 0 <= k < |s| ==> s[k].HeightBoundsOk()
  }

  /** No child of any row has inverted height bounds. */
  predicate HeightsOk(rows: seq<Row>)
  {
    forall i :: 0 <= i < |rows| ==> AllHeightsOk(rows[i].items)
  }

  /** The settings that clamp each child's height into its own bounds. */
  predicate ClampsChildren(cfg: Config)
  {
    cfg.alignContent == AlignContent.Stretch || cfg.alignItems == AlignItems.Stretch
  }

  /** `AlignContent::Stretch` on one row: the row grows by `add` and every
      child's height is set to the new row height. */
  function StretchRow(r: Row, add: real): (out: Row)
    requires AllHeightsOk(r.items)
    ensures out.width == r.width && out.height == r.height + add
    ensures |out.items| == |r.items|
    ensures forall k :: 0 <= k < |r.items| ==>
      out.items[k] == r.items[k].(height := out.items[k].height)
      && r.items[k].minHeight <= out.items[k].height <= r.items[k].maxHeight
    ensures forall k :: 0 <= k < |r.items| && r.items[k].minHeight <= out.height <= r.items[k].maxHeight ==>
      out.items[k].height == out.height
  {
    Row(seq(|r.items|, k requires 0 <= k < |r.items| => SetHeight(r.items[k], r.height + add)),
        r.width, r.height + add)
  }

  function StretchRows(rows: seq<Row>, add: real): (out: seq<Row>)
    requires HeightsOk(rows)
    ensures |out| == |rows|
    ensures forall i :: 0 <= i < |rows| ==> out[i] == StretchRow(rows[i], add)
  {
    seq(|rows|, i requires 0 <= i < |rows| && HeightsOk(rows) => StretchRow(rows[i], add))
  }

  /** The rows as `align-content` leaves them: stretched to share out the
      free height under `Stretch`, untouched otherwise. */
  function Stretched(mode: AlignContent, rows: seq<Row>, available: real): (out: seq<Row>)
    requires mode == AlignContent.Stretch ==> HeightsOk(rows)
    ensures |out| == |rows|
  {
    if mode == AlignContent.Stretch then StretchRows(rows, StretchShare(available, SumHeights(rows), |rows|))
    else rows
  }

  /** The layout pass once the envelope is known and the children measured;
      `containerWidth` is the width the parent offered, which
      `justify-content` measures against. */
  function Layout(cfg: Config, env: WidgetSize, cs: seq<WidgetSize>, containerWidth: real): (r: Result<Allocation>)
  {
    if cfg.wrap == WrapReverse then Panic(Unimplemented)
    else
      var rows := Content(cfg, env, cs);
      var h := SumHeights(rows);
      if !(env.WidthBoundsOk() && env.HeightBoundsOk()) then Panic(InvertedBounds)
      else if ClampsChildren(cfg) && !HeightsOk(rows) then Panic(InvertedBounds)
      else
        var size := SetSize(env, Widest(rows), h);
        Done(Allocation(size, Arrange(cfg, rows, size.height, containerWidth)))
  }

  /** The subareas of the rows in a container of height `available`:
      `align-content` spreads the rows, `justify-content` the children of
      each row, `align-items` each child inside its row. */
  function Arrange(cfg: Config, rows: seq<Row>, available: real, containerWidth: real): (rects: seq<Rect>)
    requires ClampsChildren(cfg) ==> HeightsOk(rows)
  {
    var stretched := Stretched(cfg.alignContent, rows, available);
    StretchedPlaceable(cfg, rows, available);
    var s := Distribute(cfg.alignContent, available, SumHeights(rows), |rows|);
    PlaceRows(stretched, s.start, s.gap, cfg.justify, containerWidth, cfg.alignItems)
  }

  /** `Flexbox::allocate_area`: the allocator's answer (or none), the size
      the parent offers, and the children. Each child is offered the
      envelope's maximum extent, cast to `usize`. */
  function AllocateArea(cfg: Config, answer: Option<WidgetSize>, containerSize: (Usize, Usize), children: seq<Child>): (r: Result<Allocation>)
  {
    var env := Envelope(answer, containerSize);
    var cs := Measure(children, (ToUsize(env.maxWidth), ToUsize(env.maxHeight)));
    Layout(cfg, env, cs, containerSize.0 as real)
  }

  /** `Flexbox::render`: child `i` is drawn into subarea `i`; the debug
      assertion stops a render whose counts differ. */
  function Render(widgetCount: nat, subareas: seq<Rect>): (r: Result<seq<Rect>>)
    ensures r.Done? <==> |subareas| == widgetCount
    ensures r.Done? ==> r.value == subareas
  {
    if |subareas| != widgetCount then Panic(LengthMismatch) else Done(subareas)
  }

  // ---------------------------------------------------------------------
  // The passes keep every child and its height bounds

  /** `b` has the rows and children of `a`, with the same height bounds. */
  predicate SameBounds(a: seq<Row>, b: seq<Row>)
  {
    && |a| == |b|
    && (forall i :: 0 <= i < |a| ==> |a[i].items| == |b[i].items|)
    && (forall i, k :: 0 <= i < |a| && 0 <= k < |a[i].items| ==>
          a[i].items[k].minHeight == b[i].items[k].minHeight
          && a[i].items[k].maxHeight == b[i].items[k].maxHeight)
  }

  lemma {:induction false} SameBoundsTrans(a: seq<Row>, b: seq<Row>, c: seq<Row>)
    requires SameBounds(a, b) && SameBounds(b, c)
    ensures SameBounds(a, c)
  {
  }

  lemma {:induction false} SameBoundsHeightsOk(a: seq<Row>, b: seq<Row>)
    requires SameBounds(a, b)
    ensures HeightsOk(a) <==> HeightsOk(b)
  {
    assert forall i, k :: 0 <= i < |a| && 0 <= k < |a[i].items| ==>
      (a[i].items[k].HeightBoundsOk() <==> b[i].items[k].HeightBoundsOk());
  }

  /** Rows of the same shape hold as many children. */
  lemma {:induction false} SameBoundsCount(a: seq<Row>, b: seq<Row>)
    requires SameBounds(a, b)
    ensures |Items(a)| == |Items(b)|
    decreases |a|
  {
    if |a| > 0 {
      var n := |a| - 1;
      assert SameBounds(a[..n], b[..n]) by {
        forall i | 0 <= i < n
          ensures a[..n][i] == a[i] && b[..n][i] == b[i]
        {
        }
      }
      SameBoundsCount(a[..n], b[..n]);
    }
  }

  lemma {:induction false} ShrinkRowsKeepsBounds(rows: seq<Row>, maxWidth: real)
    ensures SameBounds(rows, ShrinkRows(rows, maxWidth))
  {
  }

  lemma {:induction false} ShrinkVerticalKeepsBounds(rows: seq<Row>, maxHeight: real)
    ensures SameBounds(rows, ShrinkVertical(rows, maxHeight))
  {
    var out := ShrinkVertical(rows, maxHeight);
    if SumHeights(rows) > maxHeight {
      forall i | 0 <= i < |rows|
        ensures |rows[i].items| == |out[i].items|
        ensures forall k :: 0 <= k < |rows[i].items| ==>
          rows[i].items[k].minHeight == out[i].items[k].minHeight
          && rows[i].items[k].maxHeight == out[i].items[k].maxHeight
      {
        var a := RowLowered(rows, maxHeight, i);
      }
    }
  }

  lemma {:induction false} ResolveKeepsBounds(rows: seq<Row>, env: WidgetSize)
    ensures SameBounds(rows, Resolve(rows, env))
  {
    ShrinkRowsKeepsBounds(rows, env.maxWidth);
    ShrinkVerticalKeepsBounds(ShrinkRows(rows, env.maxWidth), env.maxHeight);
    SameBoundsTrans(rows, ShrinkRows(rows, env.maxWidth), Resolve(rows, env));
  }

  lemma {:induction false} StretchedKeepsBounds(mode: AlignContent, rows: seq<Row>, available: real)
    requires mode == AlignContent.Stretch ==> HeightsOk(rows)
    ensures SameBounds(rows, Stretched(mode, rows, available))
  {
  }

  lemma {:induction false} StretchedPlaceable(cfg: Config, rows: seq<Row>, available: real)
    requires ClampsChildren(cfg) ==> HeightsOk(rows)
    ensures AllPlaceable(cfg.alignItems, Stretched(cfg.alignContent, rows, available))
  {
    var out := Stretched(cfg.alignContent, rows, available);
    StretchedKeepsBounds(cfg.alignContent, rows, available);
    if cfg.alignItems == AlignItems.Stretch {
      SameBoundsHeightsOk(rows, out);
      assert forall i, k :: 0 <= i < |out| && 0 <= k < |out[i].items| ==> Fits(cfg.alignItems, out[i].items[k]);
    }
  }

  /** The rows hold well-formed height bounds exactly when their children do. */
  lemma {:induction false} HeightsOkItems(rows: seq<Row>)
    ensures HeightsOk(rows) <==> AllHeightsOk(Items(rows))
    decreases |rows|
  {
    if |rows| > 0 {
      var n := |rows| - 1;
      var front := rows[..n];
      HeightsOkItems(front);
      var head, last := Items(front), rows[n].items;
      assert Items(rows) == head + last;
      assert AllHeightsOk(head + last) <==> AllHeightsOk(head) && AllHeightsOk(last) by {
        assert forall k :: 0 <= k < |head| ==> (head + last)[k] == head[k];
        assert forall k :: 0 <= k < |last| ==> (head + last)[|head| + k] == last[k];
      }
      assert forall i :: 0 <= i < n ==> front[i] == rows[i];
    }
  }

  // ---------------------------------------------------------------------
  // What the pass promises

  /** The pass panics exactly when the wrap mode is `WrapReverse`, the
      envelope's bounds are inverted, or a setting clamps the children's
      heights and some child's height bounds are inverted. */
  lemma {:induction false} LayoutPanics(cfg: Config, env: WidgetSize, cs: seq<WidgetSize>, containerWidth: real)
    ensures Layout(cfg, env, cs, containerWidth).Panic? <==>
      || cfg.wrap == WrapReverse
      || !env.WidthBoundsOk() || !env.HeightBoundsOk()
      || (ClampsChildren(cfg) && !AllHeightsOk(cs))
  {
    if cfg.wrap != WrapReverse {
      var formed := Form(cfg.wrap, cs, env.maxWidth);
      ResolveKeepsBounds(formed, env);
      SameBoundsHeightsOk(formed, Resolve(formed, env));
      HeightsOkItems(formed);
    }
  }

  /** One subarea per child: a completed pass can always be rendered. */
  lemma {:induction false} LayoutCoversChildren(cfg: Config, env: WidgetSize, cs: seq<WidgetSize>, containerWidth: real)
    requires Layout(cfg, env, cs, containerWidth).Done?
    ensures |Layout(cfg, env, cs, containerWidth).value.subareas| == |cs|
    ensures Render(|cs|, Layout(cfg, env, cs, containerWidth).value.subareas).Done?
  {
    var formed := Form(cfg.wrap, cs, env.maxWidth);
    var rows := Resolve(formed, env);
    var size := SetSize(env, Widest(rows), SumHeights(rows));
    ArrangeCount(cfg, rows, size.height, containerWidth);
    ResolveKeepsBounds(formed, env);
    SameBoundsCount(formed, rows);
  }

  /** One subarea per child of the rows. */
  lemma {:induction false} ArrangeCount(cfg: Config, rows: seq<Row>, available: real, containerWidth: real)
    requires ClampsChildren(cfg) ==> HeightsOk(rows)
    ensures |Arrange(cfg, rows, available, containerWidth)| == |Items(rows)|
  {
    StretchedKeepsBounds(cfg.alignContent, rows, available);
    SameBoundsCount(rows, Stretched(cfg.alignContent, rows, available));
  }

  /** A completed pass returns `set_size(widest row, summed row heights)`
      on the envelope. */
  lemma {:induction false} LayoutValue(cfg: Config, env: WidgetSize, cs: seq<WidgetSize>, containerWidth: real)
    requires Layout(cfg, env, cs, containerWidth).Done?
    ensures cfg.wrap != WrapReverse && env.WidthBoundsOk() && env.HeightBoundsOk()
    ensures Layout(cfg, env, cs, containerWidth).value.size
      == SetSize(env, Widest(Content(cfg, env, cs)), SumHeights(Content(cfg, env, cs)))
  {
  }

  /** The returned size is the envelope with only its width and height set:
      both inside the envelope's bounds, and equal to the widest row and the
      summed row heights whenever the bounds admit them. */
  lemma {:induction false} LayoutSize(cfg: Config, env: WidgetSize, cs: seq<WidgetSize>, containerWidth: real)
    requires Layout(cfg, env, cs, containerWidth).Done?
    ensures cfg.wrap != WrapReverse
    ensures var size := Layout(cfg, env, cs, containerWidth).value.size;
      var rows := Content(cfg, env, cs);
      && size.InRange()
      && size == env.(width := size.width, height := size.height)
      && (env.minWidth <= Widest(rows) <= env.maxWidth ==> size.width == Widest(rows))
      && (env.minHeight <= SumHeights(rows) <= env.maxHeight ==> size.height == SumHeights(rows))
  {
    LayoutValue(cfg, env, cs, containerWidth);
  }

  /** Clamping leaves a value below it only when the lower bound is above it,
      and then at that bound. */
  lemma {:induction false} ClampAbove(v: real, lo: real, hi: real)
    requires lo <= hi
    ensures Clamp(v, lo, hi) > v <==> lo > v
    ensures Clamp(v, lo, hi) > v ==> Clamp(v, lo, hi) == lo
  {
  }

  /** `align-content` measures the free height against the clamped content
      height, so there is free height only when the envelope's minimum
      height is above the content, and then the container is exactly that
      minimum. */
  lemma {:induction false} FreeHeightFromMinimum(cfg: Config, env: WidgetSize, cs: seq<WidgetSize>, containerWidth: real)
    requires Layout(cfg, env, cs, containerWidth).Done?
    ensures cfg.wrap != WrapReverse
    ensures var size := Layout(cfg, env, cs, containerWidth).value.size;
      var h := SumHeights(Content(cfg, env, cs));
      (size.height > h <==> env.minHeight > h) && (size.height > h ==> size.height == env.minHeight)
  {
    LayoutValue(cfg, env, cs, containerWidth);
    var rows := Content(cfg, env, cs);
    ClampAbove(SumHeights(rows), env.minHeight, env.maxHeight);
  }

  /** Stretched rows are exactly as much taller as the rows' count times the
      share. */
  lemma {:induction false} StretchRowsHeight(rows: seq<Row>, add: real)
    requires HeightsOk(rows)
    ensures SumHeights(StretchRows(rows, add)) == SumHeights(rows) + Gaps(|rows|, add)
    decreases |rows|
  {
    if |rows| > 0 {
      var n := |rows| - 1;
      var out := StretchRows(rows, add);
      assert HeightsOk(rows[..n]) by {
        assert forall i :: 0 <= i < n ==> rows[..n][i] == rows[i];
      }
      assert out[..n] == StretchRows(rows[..n], add);
      StretchRowsHeight(rows[..n], add);
    }
  }

  /** Under `AlignContent::Stretch` the rows grow to fill the container's
      height exactly, unless they already overflow it. */
  lemma {:induction false} StretchFillsHeight(rows: seq<Row>, available: real)
    requires HeightsOk(rows) && |rows| >= 1
    ensures var out := Stretched(AlignContent.Stretch, rows, available);
      SumHeights(out) == Max(SumHeights(rows), available)
  {
    var add := StretchShare(available, SumHeights(rows), |rows|);
    StretchRowsHeight(rows, add);
    GapsProduct(|rows|, add);
    StretchFills(available, SumHeights(rows), |rows|);
  }

  // ---------------------------------------------------------------------
  // The whole call

  /** Without an allocator the envelope's bounds are never inverted, so
      only the wrap mode and the children can make the call panic. */
  lemma {:induction false} AllocatePanics(cfg: Config, containerSize: (Usize, Usize), children: seq<Child>)
    ensures AllocateArea(cfg, None, containerSize, children).Panic? <==>
      cfg.wrap == WrapReverse || (ClampsChildren(cfg) && !AllHeightsOk(Measure(children, containerSize)))
  {
    var env := Envelope(None, containerSize);
    assert ToUsize(env.maxWidth) == containerSize.0;
    assert ToUsize(env.maxHeight) == containerSize.1;
    LayoutPanics(cfg, env, Measure(children, containerSize), containerSize.0 as real);
  }

  /** Allocating and then rendering never trips the length assertion. */
  lemma {:induction false} AllocateThenRender(cfg: Config, answer: Option<WidgetSize>, containerSize: (Usize, Usize), children: seq<Child>)
    requires AllocateArea(cfg, answer, containerSize, children).Done?
    ensures Render(|children|, AllocateArea(cfg, answer, containerSize, children).value.subareas).Done?
  {
    var env := Envelope(answer, containerSize);
    var cs := Measure(children, (ToUsize(env.maxWidth), ToUsize(env.maxHeight)));
    LayoutCoversChildren(cfg, env, cs, containerSize.0 as real);
  }
}
