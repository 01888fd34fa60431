/** The flexbox tests of src/containers/flexbox.rs:410-772, as lemmas: three
    buttons, each asking for 50 x 20 within 40..60 x 15..25, laid out with
    `Flexbox::new()`'s settings (`align-content: flex-start`, `align-items:
    stretch`, `justify-content: flex-start`). */
module FlexboxExamples {
  import opened Numeric
  import opened Faults
  import opened Sizes
  import opened Geometry
  import opened FlexRows
  import opened FlexShrink
  import opened FlexVertical
  import opened FlexAlign
  import opened FlexPlace
  import opened Flexbox

  const Button: WidgetSize := WidgetSize(40.0, 50.0, 60.0, 15.0, 20.0, 25.0)

  /** `Flexbox::new()` with the given wrap mode. */
  function Defaults(wrap: FlexWrap): Config
  {
    Config(AlignContent.FlexStart, AlignItems.Stretch, wrap, JustifyContent.FlexStart)
  }

  /** `n` copies of `x`. */
  function Repeat<T>(x: T, n: nat): (s: seq<T>)
    ensures |s| == n
    ensures forall k :: 0 <= k < n ==> s[k] == x
  {
    if n == 0 then [] else [x] + Repeat(x, n - 1)
  }

  /** Three buttons; a button answers the same whatever it is offered. */
  function Buttons(): seq<Child>
  {
    var b: Child := _ => Button;
    [b, b, b]
  }

  /** A formed row of `n` copies of `c`. */
  function RowOf(c: WidgetSize, n: nat): Row
  {
    Row(Repeat(c, n), Gaps(n, c.width), c.height)
  }

  // ---------------------------------------------------------------------
  // Generic steps

  lemma {:induction false} MeasureButtons(offered: (Usize, Usize))
    ensures Measure(Buttons(), offered) == Repeat(Button, 3)
  {
  }

  lemma {:induction false} RepeatFront<T>(x: T, n: nat)
    requires n >= 1
    ensures Repeat(x, n)[..n - 1] == Repeat(x, n - 1)
  {
  }

  /** The sums and folds over `n` copies of one child. */
  lemma {:induction false} SumRepeat(c: WidgetSize, n: nat)
    requires c.height >= 0.0 && c.minHeight >= 0.0
    ensures SumWidths(Repeat(c, n)) == Gaps(n, c.width)
    ensures Capacity(Repeat(c, n)) == Gaps(n, Cap(c))
    ensures MaxHeight(Repeat(c, n)) == (if n == 0 then 0.0 else c.height)
    ensures MinRowHeight(Repeat(c, n)) == (if n == 0 then 0.0 else c.minHeight)
    decreases n
  {
    if n > 0 {
      RepeatFront(c, n);
      SumRepeat(c, n - 1);
    }
  }

  /** The summed height of `n` copies of one row. */
  lemma {:induction false} SumHeightsRepeat(r: Row, n: nat)
    ensures SumHeights(Repeat(r, n)) == Gaps(n, r.height)
    decreases n
  {
    if n > 0 {
      RepeatFront(r, n);
      SumHeightsRepeat(r, n - 1);
    }
  }

  /** A row filled with copies of one child. */
  lemma {:induction false} FillRepeat(c: WidgetSize, n: nat)
    requires n >= 1 && c.height >= 0.0 && c.minHeight >= 0.0
    ensures Fill(EmptyRow, Repeat(c, n)) == RowOf(c, n)
  {
    SumRepeat(c, n);
  }

  /** An overflowing row of copies shrinks every copy by the same fraction
      of its capacity. */
  lemma {:induction false} ShrinkRepeat(c: WidgetSize, n: nat, maxWidth: real) returns (f: real)
    requires n >= 1 && c.minWidth <= c.width && c.height >= 0.0 && c.minHeight >= 0.0
    requires Gaps(n, c.width) > maxWidth
    ensures f == UniformFactor(Gaps(n, c.width) - maxWidth, Gaps(n, Cap(c)))
    ensures ShrinkRow(RowOf(c, n), maxWidth) == RowOf(c.(width := ShrunkWidth(c, f)), n)
  {
    var r := RowOf(c, n);
    SumRepeat(c, n);
    f := UniformFactor(Gaps(n, c.width) - maxWidth, Gaps(n, Cap(c)));
    ShrinkRowUniform(r, maxWidth);
    var c' := c.(width := ShrunkWidth(c, f));
    assert ShrinkRow(r, maxWidth).items == Repeat(c', n);
    SumRepeat(c', n);
  }

  /** Lowering a row of copies lowers every copy. */
  lemma {:induction false} LowerRepeat(c: WidgetSize, n: nat, a: real)
    ensures Lower(RowOf(c, n), a) == Row(Repeat(c.(height := c.height - a), n), Gaps(n, c.width), c.height - a)
  {
    assert Lower(RowOf(c, n), a).items == Repeat(c.(height := c.height - a), n);
  }

  /** One step of the wrap loop over copies of one child. */
  lemma {:induction false} WrapStep(done: seq<Row>, cur: Row, c: WidgetSize, n: nat, maxWidth: real)
    requires n >= 1
    ensures WrapFrom(done, cur, Repeat(c, n), maxWidth)
      == if cur.width + c.width > maxWidth then WrapFrom(done + [cur], Push(EmptyRow, c), Repeat(c, n - 1), maxWidth)
         else WrapFrom(done, Push(cur, c), Repeat(c, n - 1), maxWidth)
  {
    assert Repeat(c, n)[1..] == Repeat(c, n - 1);
  }

  /** Rows of one, two and three buttons. */
  lemma {:induction false} ButtonRows()
    ensures Push(EmptyRow, Button) == RowOf(Button, 1) == Row([Button], 50.0, 20.0)
    ensures Push(RowOf(Button, 1), Button) == RowOf(Button, 2) == Row([Button, Button], 100.0, 20.0)
    ensures Push(RowOf(Button, 2), Button) == RowOf(Button, 3) == Row([Button, Button, Button], 150.0, 20.0)
  {
    assert Repeat(Button, 1) == [Button];
    assert Repeat(Button, 2) == [Button, Button];
    assert Repeat(Button, 3) == [Button, Button, Button];
  }

  /** At 150 or more, the three buttons share one row. */
  lemma {:induction false} WrapWide(maxWidth: real)
    requires maxWidth >= 150.0
    ensures WrapRows(Repeat(Button, 3), maxWidth) == [RowOf(Button, 3)]
  {
    ButtonRows();
    WrapStep([], EmptyRow, Button, 3, maxWidth);
    WrapStep([], RowOf(Button, 1), Button, 2, maxWidth);
    WrapStep([], RowOf(Button, 2), Button, 1, maxWidth);
  }

  /** From 100 up to 150, two buttons fit on the first row. */
  lemma {:induction false} WrapPairs(maxWidth: real)
    requires 100.0 <= maxWidth < 150.0
    ensures WrapRows(Repeat(Button, 3), maxWidth) == [RowOf(Button, 2), RowOf(Button, 1)]
  {
    ButtonRows();
    WrapStep([], EmptyRow, Button, 3, maxWidth);
    WrapStep([], RowOf(Button, 1), Button, 2, maxWidth);
    WrapStep([], RowOf(Button, 2), Button, 1, maxWidth);
    assert [] + [RowOf(Button, 2)] + [RowOf(Button, 1)] == [RowOf(Button, 2), RowOf(Button, 1)];
  }

  /** From 50 up to 100, one button per row. */
  lemma {:induction false} WrapSingles(maxWidth: real)
    requires 50.0 <= maxWidth < 100.0
    ensures WrapRows(Repeat(Button, 3), maxWidth) == Repeat(RowOf(Button, 1), 3)
  {
    var r := RowOf(Button, 1);
    ButtonRows();
    WrapStep([], EmptyRow, Button, 3, maxWidth);
    WrapStep([], r, Button, 2, maxWidth);
    WrapStep([r], r, Button, 1, maxWidth);
    assert [r] + [r] + [r] == Repeat(r, 3);
  }

  /** Below 50 not even the first button fits: the empty first row is
      closed, then one button per row. */
  lemma {:induction false} WrapNarrow(maxWidth: real)
    requires maxWidth < 50.0
    ensures WrapRows(Repeat(Button, 3), maxWidth) == [EmptyRow] + Repeat(RowOf(Button, 1), 3)
  {
    var r := RowOf(Button, 1);
    ButtonRows();
    WrapStep([], EmptyRow, Button, 3, maxWidth);
    WrapStep([EmptyRow], r, Button, 2, maxWidth);
    WrapStep([EmptyRow, r], r, Button, 1, maxWidth);
    assert [EmptyRow, r] + [r] + [r] == [EmptyRow] + Repeat(r, 3);
  }

  /** No row wider than `maxWidth`: the horizontal pass changes nothing. */
  lemma {:induction false} ShrinkRowsKeep(rows: seq<Row>, maxWidth: real)
    requires forall i :: 0 <= i < |rows| ==> rows[i].width <= maxWidth
    ensures ShrinkRows(rows, maxWidth) == rows
  {
  }

  /** Rows that fit both ways come out of the overflow passes unchanged. */
  lemma {:induction false} ResolveKeep(rows: seq<Row>, env: WidgetSize)
    requires forall i :: 0 <= i < |rows| ==> rows[i].width <= env.maxWidth
    requires SumHeights(rows) <= env.maxHeight
    ensures Resolve(rows, env) == rows
  {
    ShrinkRowsKeep(rows, env.maxWidth);
  }

  /** The widest row, when row `i` is the widest. */
  lemma {:induction false} WidestIs(rows: seq<Row>, i: nat)
    requires i < |rows| && rows[i].width >= 0.0
    requires forall j :: 0 <= j < |rows| ==> rows[j].width <= rows[i].width
    ensures Widest(rows) == rows[i].width
  {
  }

  /** `n` boxes of width `w` and height `h` side by side from `x`. The
      `+ 0.0` is the gap `PlaceRow` adds after each item, zero under
      `FlexStart`; it is kept so that the terms match `PlaceRow`'s. */
  function Along(w: real, n: nat, x: real, y: real, h: real): seq<Rect>
  {
    if n == 0 then [] else [Rect((x, y), (x + w, y + h))] + Along(w, n - 1, x + w + 0.0, y, h)
  }

  /** `n` boxes of width `w` and height `h` stacked from `y` at the left edge.
      The `+ 0.0` is the row gap `PlaceRows` adds below each row, zero
      when `y_offset` is not set. */
  function Stack(w: real, h: real, n: nat, y: real): seq<Rect>
  {
    if n == 0 then [] else [Rect((0.0, y), (w, y + h))] + Stack(w, h, n - 1, y + h + 0.0)
  }

  /** Copies laid out with no gap and stretched to a row height inside
      their bounds sit side by side, each as wide as the copy and as tall as
      the row. */
  lemma {:induction false} PlaceAlong(c: WidgetSize, n: nat, x: real, y: real, h: real)
    requires c.minHeight <= h <= c.maxHeight
    ensures Placeable(AlignItems.Stretch, Repeat(c, n))
    ensures PlaceRow(Repeat(c, n), x, 0.0, y, h, AlignItems.Stretch) == Along(c.width, n, x, y, h)
    decreases n
  {
    if n > 0 {
      var items := Repeat(c, n);
      assert items[1..] == Repeat(c, n - 1);
      PlaceAlong(c, n - 1, x + items[0].width + 0.0, y, h);
    }
  }

  /** A row holding one child is one box at the left edge. */
  lemma {:induction false} SingleRowRects(c: WidgetSize, w: real, h: real, y: real, containerWidth: real)
    requires c.minHeight <= h <= c.maxHeight
    ensures Placeable(AlignItems.Stretch, [c])
    ensures RowRects(Row([c], w, h), y, JustifyContent.FlexStart, containerWidth, AlignItems.Stretch)
      == [Rect((0.0, y), (c.width, y + h))]
  {
    assert [c] == Repeat(c, 1);
    PlaceAlong(c, 1, 0.0, y, h);
  }

  /** `n` one-child rows stacked from `y`, one child per row at the left edge. */
  lemma {:induction false} StackSingles(c: WidgetSize, w: real, h: real, n: nat, y: real, containerWidth: real)
    requires c.minHeight <= h <= c.maxHeight
    ensures AllPlaceable(AlignItems.Stretch, Repeat(Row([c], w, h), n))
    ensures PlaceRows(Repeat(Row([c], w, h), n), y, 0.0, JustifyContent.FlexStart, containerWidth, AlignItems.Stretch)
      == Stack(c.width, h, n, y)
    decreases n
  {
    var row := Row([c], w, h);
    var rows := Repeat(row, n);
    SingleRowRects(c, w, h, y, containerWidth);
    if n == 0 {
      NoRows(y, containerWidth);
    } else {
      assert rows[0] == row;
      assert rows[1..] == Repeat(row, n - 1);
      StackSingles(c, w, h, n - 1, y + h + 0.0, containerWidth);
      PlaceRowsCons(rows, y, 0.0, JustifyContent.FlexStart, containerWidth, AlignItems.Stretch);
    }
  }

  /** A row of copies at the top of the rows still to place. */
  lemma {:induction false} TopRow(c: WidgetSize, n: nat, w: real, h: real, rest: seq<Row>, y: real, containerWidth: real)
    requires c.minHeight <= h <= c.maxHeight
    requires AllPlaceable(AlignItems.Stretch, rest)
    ensures AllPlaceable(AlignItems.Stretch, [Row(Repeat(c, n), w, h)] + rest)
    ensures PlaceRows([Row(Repeat(c, n), w, h)] + rest, y, 0.0, JustifyContent.FlexStart, containerWidth, AlignItems.Stretch)
      == Along(c.width, n, 0.0, y, h) + PlaceRows(rest, y + h + 0.0, 0.0, JustifyContent.FlexStart, containerWidth, AlignItems.Stretch)
  {
    var rows := [Row(Repeat(c, n), w, h)] + rest;
    PlaceAlong(c, n, 0.0, y, h);
    assert rows[1..] == rest;
    PlaceRowsCons(rows, y, 0.0, JustifyContent.FlexStart, containerWidth, AlignItems.Stretch);
  }

  /** An empty row at the top takes no room. */
  lemma {:induction false} EmptyTop(rest: seq<Row>, y: real, containerWidth: real)
    requires AllPlaceable(AlignItems.Stretch, rest)
    ensures AllPlaceable(AlignItems.Stretch, [EmptyRow] + rest)
    ensures PlaceRows([EmptyRow] + rest, y, 0.0, JustifyContent.FlexStart, containerWidth, AlignItems.Stretch)
      == PlaceRows(rest, y + 0.0 + 0.0, 0.0, JustifyContent.FlexStart, containerWidth, AlignItems.Stretch)
  {
    var rows := [EmptyRow] + rest;
    assert rows[1..] == rest;
    PlaceRowsCons(rows, y, 0.0, JustifyContent.FlexStart, containerWidth, AlignItems.Stretch);
  }

  lemma {:induction false} NoRows(y: real, containerWidth: real)
    ensures PlaceRows([], y, 0.0, JustifyContent.FlexStart, containerWidth, AlignItems.Stretch) == []
  {
  }

  /** With `Flexbox::new()`'s settings the rows are stacked from the top with
      no gaps. */
  lemma {:induction false} ArrangeFromTop(wrap: FlexWrap, rows: seq<Row>, available: real, containerWidth: real)
    requires HeightsOk(rows)
    ensures AllPlaceable(AlignItems.Stretch, rows)
    ensures Arrange(Defaults(wrap), rows, available, containerWidth)
      == PlaceRows(rows, 0.0, 0.0, JustifyContent.FlexStart, containerWidth, AlignItems.Stretch)
  {
    StretchedPlaceable(Defaults(wrap), rows, available);
  }

  /** The call, stage by stage: a completed call returns the clamped size
      and the arranged subareas of the content rows. */
  lemma {:induction false} AllocateVia(cfg: Config, answer: Option<WidgetSize>, containerSize: (Usize, Usize), children: seq<Child>,
                                       env: WidgetSize, cs: seq<WidgetSize>, rows: seq<Row>, size: WidgetSize, rects: seq<Rect>)
    requires cfg.wrap != WrapReverse
    requires env == Envelope(answer, containerSize) && env.WidthBoundsOk() && env.HeightBoundsOk()
    requires cs == Measure(children, (ToUsize(env.maxWidth), ToUsize(env.maxHeight)))
    requires rows == Content(cfg, env, cs)
    requires ClampsChildren(cfg) ==> HeightsOk(rows)
    requires size == SetSize(env, Widest(rows), SumHeights(rows))
    requires rects == Arrange(cfg, rows, size.height, containerSize.0 as real)
    ensures AllocateArea(cfg, answer, containerSize, children) == Done(Allocation(size, rects))
  {
  }

  // ---------------------------------------------------------------------
  // The stages for the three buttons

  /** The buttons as one row, 150 x 20. */
  const Row3: seq<Row> := [RowOf(Button, 3)]

  /** The three subareas of `Row3`. */
  const Row3Rects: seq<Rect> :=
    [Rect((0.0, 0.0), (50.0, 20.0)), Rect((50.0, 0.0), (100.0, 20.0)), Rect((100.0, 0.0), (150.0, 20.0))]

  lemma {:induction false} Row3Facts()
    ensures HeightsOk(Row3) && Widest(Row3) == 150.0 && SumHeights(Row3) == 20.0
  {
    ButtonRows();
    assert Row3[..0] == [];
    WidestIs(Row3, 0);
  }

  /** Without wrapping, an envelope at least 150 x 20 keeps the buttons'
      row as formed. */
  lemma {:induction false} NoWrapRoomy(env: WidgetSize)
    requires env.maxWidth >= 150.0 && env.maxHeight >= 20.0
    ensures Content(Defaults(NoWrap), env, Repeat(Button, 3)) == Row3
  {
    ButtonRows();
    FillRepeat(Button, 3);
    assert Form(NoWrap, Repeat(Button, 3), env.maxWidth) == Row3;
    Row3Facts();
    ResolveKeep(Row3, env);
  }

  /** Three boxes side by side, spelled out. */
  lemma {:induction false} AlongThree(w: real, h: real, y: real)
    ensures Along(w, 3, 0.0, y, h)
      == [Rect((0.0, y), (w, y + h)), Rect((w, y), (w + w, y + h)), Rect((w + w, y), (w + w + w, y + h))]
  {
    assert Along(w, 0, w + w + w, y, h) == [];
    assert Along(w, 1, w + w, y, h) == [Rect((w + w, y), (w + w + w, y + h))];
    assert Along(w, 2, w, y, h) == [Rect((w, y), (w + w, y + h)), Rect((w + w, y), (w + w + w, y + h))];
  }

  lemma {:induction false} Row3Placed(wrap: FlexWrap, available: real, containerWidth: real)
    ensures Arrange(Defaults(wrap), Row3, available, containerWidth) == Row3Rects
  {
    Row3Facts();
    ArrangeFromTop(wrap, Row3, available, containerWidth);
    var placed := PlaceRows(Row3, 0.0, 0.0, JustifyContent.FlexStart, containerWidth, AlignItems.Stretch);
    assert placed == Along(50.0, 3, 0.0, 0.0, 20.0) by {
      ButtonRows();
      NoRows(20.0, containerWidth);
      TopRow(Button, 3, 150.0, 20.0, [], 0.0, containerWidth);
      assert [RowOf(Button, 3)] + [] == Row3;
    }
    Row3Along();
  }

  lemma {:induction false} Row3Along()
    ensures Along(50.0, 3, 0.0, 0.0, 20.0) == Row3Rects
  {
    AlongThree(50.0, 20.0, 0.0);
  }

  lemma {:induction false} RowOfOne(c: WidgetSize)
    ensures RowOf(c, 1) == Single(c)
  {
    assert Repeat(c, 1) == [c];
    assert Gaps(1, c.width) == c.width;
  }

  /** Three boxes stacked, spelled out. */
  lemma {:induction false} StackThree(w: real, h: real)
    ensures Stack(w, h, 3, 0.0)
      == [Rect((0.0, 0.0), (w, h)), Rect((0.0, h), (w, h + h)), Rect((0.0, h + h), (w, h + h + h))]
  {
    assert Stack(w, h, 0, h + h + h) == [];
    assert Stack(w, h, 1, h + h) == [Rect((0.0, h + h), (w, h + h + h))];
    assert Stack(w, h, 2, h) == [Rect((0.0, h), (w, h + h)), Rect((0.0, h + h), (w, h + h + h))];
  }

  /** `n` one-child rows, possibly below an empty first row: their bounds,
      width and height. */
  lemma {:induction false} SinglesFacts(c: WidgetSize, n: nat)
    requires n >= 1 && c.HeightBoundsOk() && c.width >= 0.0
    ensures var rows := Repeat(Single(c), n);
      && HeightsOk(rows) && HeightsOk([EmptyRow] + rows)
      && Widest(rows) == c.width && Widest([EmptyRow] + rows) == c.width
      && SumHeights(rows) == Gaps(n, c.height) && SumHeights([EmptyRow] + rows) == Gaps(n, c.height)
  {
    var rows := Repeat(Single(c), n);
    SumHeightsRepeat(Single(c), n);
    SumHeightsCons(EmptyRow, rows);
    WidestIs(rows, 0);
    WidestIs([EmptyRow] + rows, 1);
  }

  /** One-child rows, possibly below an empty first row, are stacked from
      the top. */
  lemma {:induction false} SinglesPlaced(wrap: FlexWrap, c: WidgetSize, n: nat, available: real, containerWidth: real)
    requires c.minHeight <= c.height <= c.maxHeight
    ensures HeightsOk(Repeat(Single(c), n)) && HeightsOk([EmptyRow] + Repeat(Single(c), n))
    ensures Arrange(Defaults(wrap), Repeat(Single(c), n), available, containerWidth) == Stack(c.width, c.height, n, 0.0)
    ensures Arrange(Defaults(wrap), [EmptyRow] + Repeat(Single(c), n), available, containerWidth) == Stack(c.width, c.height, n, 0.0)
  {
    var rows := Repeat(Single(c), n);
    StackSingles(c, c.width, c.height, n, 0.0, containerWidth);
    EmptyTop(rows, 0.0, containerWidth);
    ArrangeFromTop(wrap, rows, available, containerWidth);
    ArrangeFromTop(wrap, [EmptyRow] + rows, available, containerWidth);
  }

  /** The horizontal pass over an empty first row and copies of one row. */
  lemma {:induction false} ShrinkBelowEmpty(r: Row, r': Row, n: nat, maxWidth: real)
    requires maxWidth >= 0.0 && ShrinkRow(r, maxWidth) == r'
    ensures ShrinkRows([EmptyRow] + Repeat(r, n), maxWidth) == [EmptyRow] + Repeat(r', n)
  {
  }

  // ---------------------------------------------------------------------
  // The stages of test_flexbox_no_wrap

  /** A button shrunk to its minimum width, then to its minimum height. */
  const Narrow: WidgetSize := WidgetSize(40.0, 40.0, 60.0, 15.0, 20.0, 25.0)
  const Low: WidgetSize := WidgetSize(40.0, 40.0, 60.0, 15.0, 15.0, 25.0)

  /** The buttons at their minimum size, in one row. */
  const LowRow: seq<Row> := [Row(Repeat(Low, 3), 120.0, 15.0)]

  const LowRects: seq<Rect> :=
    [Rect((0.0, 0.0), (40.0, 15.0)), Rect((40.0, 0.0), (80.0, 15.0)), Rect((80.0, 0.0), (120.0, 15.0))]

  lemma {:induction false} NoWrapForm(maxWidth: real)
    ensures Form(NoWrap, Repeat(Button, 3), maxWidth) == Row3
  {
    ButtonRows();
    FillRepeat(Button, 3);
  }

  /** An overflow at least as large as the capacity takes all of it. */
  lemma {:induction false} FactorOne(overflow: real, capacity: real)
    requires 0.0 < capacity <= overflow
    ensures UniformFactor(overflow, capacity) == 1.0
  {
    assert overflow / capacity >= 1.0;
  }

  /** At most 120 wide, every button gives up all of its capacity. */
  lemma {:induction false} ShrinkRow3(maxWidth: real)
    requires maxWidth <= 120.0
    ensures ShrinkRows(Row3, maxWidth) == [RowOf(Narrow, 3)]
  {
    assert Gaps(3, 50.0) == 150.0;
    assert Gaps(3, Cap(Button)) == 30.0;
    FactorOne(150.0 - maxWidth, 30.0);
    var f := ShrinkRepeat(Button, 3, maxWidth);
    assert Button.(width := ShrunkWidth(Button, f)) == Narrow;
  }

  /** At most 15 high, the row gives up all of its slack. */
  lemma {:induction false} LowerRow3(maxHeight: real)
    requires maxHeight <= 15.0
    ensures ShrinkVertical([RowOf(Narrow, 3)], maxHeight) == LowRow
  {
    var rows := [RowOf(Narrow, 3)];
    SumRepeat(Narrow, 3);
    assert SumHeights(rows) == 20.0 by {
      assert rows[..0] == [];
    }
    VerticalInRowOrder(rows, maxHeight);
    assert RowSlacks(rows) == [5.0];
    assert Amounts([5.0], 20.0 - maxHeight) == [5.0];
    LowerRepeat(Narrow, 3, 5.0);
    assert Gaps(3, 40.0) == 120.0;
  }

  lemma {:induction false} NoWrapCramped(env: WidgetSize)
    requires env.maxWidth <= 120.0 && env.maxHeight <= 15.0
    ensures Content(Defaults(NoWrap), env, Repeat(Button, 3)) == LowRow
  {
    NoWrapForm(env.maxWidth);
    ShrinkRow3(env.maxWidth);
    LowerRow3(env.maxHeight);
  }

  lemma {:induction false} LowRowFacts()
    ensures HeightsOk(LowRow) && Widest(LowRow) == 120.0 && SumHeights(LowRow) == 15.0
  {
    assert LowRow[..0] == [];
    WidestIs(LowRow, 0);
  }

  lemma {:induction false} LowRowPlaced(available: real, containerWidth: real)
    ensures Arrange(Defaults(NoWrap), LowRow, available, containerWidth) == LowRects
  {
    LowRowFacts();
    ArrangeFromTop(NoWrap, LowRow, available, containerWidth);
    var placed := PlaceRows(LowRow, 0.0, 0.0, JustifyContent.FlexStart, containerWidth, AlignItems.Stretch);
    assert placed == Along(40.0, 3, 0.0, 0.0, 15.0) by {
      NoRows(15.0, containerWidth);
      TopRow(Low, 3, 120.0, 15.0, [], 0.0, containerWidth);
      assert [Row(Repeat(Low, 3), 120.0, 15.0)] + [] == LowRow;
    }
    LowAlong();
  }

  lemma {:induction false} LowAlong()
    ensures Along(40.0, 3, 0.0, 0.0, 15.0) == LowRects
  {
    AlongThree(40.0, 15.0, 0.0);
  }

  // ---------------------------------------------------------------------
  // test_flexbox_no_wrap

  /** The three buttons fit in 200 x 100: one row, 150 x 20. */
  lemma {:induction false} NoWrapFits()
    ensures AllocateArea(Defaults(NoWrap), None, (200, 100), Buttons())
      == Done(Allocation(WidgetSize(0.0, 150.0, 200.0, 0.0, 20.0, 100.0), Row3Rects))
  {
    var env := Envelope(None, (200, 100));
    MeasureButtons((ToUsize(env.maxWidth), ToUsize(env.maxHeight)));
    NoWrapRoomy(env);
    Row3Facts();
    Row3Placed(NoWrap, 20.0, 200.0);
    AllocateVia(Defaults(NoWrap), None, (200, 100), Buttons(), env, Repeat(Button, 3), Row3,
      WidgetSize(0.0, 150.0, 200.0, 0.0, 20.0, 100.0), Row3Rects);
  }

  /** In 100 x 15 every button shrinks to its minimum size; the row still
      runs to 120, past the container's right edge. */
  lemma {:induction false} NoWrapShrinks()
    ensures AllocateArea(Defaults(NoWrap), None, (100, 15), Buttons())
      == Done(Allocation(WidgetSize(0.0, 100.0, 100.0, 0.0, 15.0, 15.0), LowRects))
  {
    var env := Envelope(None, (100, 15));
    MeasureButtons((ToUsize(env.maxWidth), ToUsize(env.maxHeight)));
    NoWrapCramped(env);
    LowRowFacts();
    LowRowPlaced(15.0, 100.0);
    AllocateVia(Defaults(NoWrap), None, (100, 15), Buttons(), env, Repeat(Button, 3), LowRow,
      WidgetSize(0.0, 100.0, 100.0, 0.0, 15.0, 15.0), LowRects);
  }

  /** In 10 x 10 the buttons overflow; the reported size is clamped to the
      container. */
  lemma {:induction false} NoWrapOverflows()
    ensures AllocateArea(Defaults(NoWrap), None, (10, 10), Buttons())
      == Done(Allocation(WidgetSize(0.0, 10.0, 10.0, 0.0, 10.0, 10.0), LowRects))
  {
    var env := Envelope(None, (10, 10));
    MeasureButtons((ToUsize(env.maxWidth), ToUsize(env.maxHeight)));
    NoWrapCramped(env);
    LowRowFacts();
    LowRowPlaced(10.0, 10.0);
    AllocateVia(Defaults(NoWrap), None, (10, 10), Buttons(), env, Repeat(Button, 3), LowRow,
      WidgetSize(0.0, 10.0, 10.0, 0.0, 10.0, 10.0), LowRects);
  }

  /** With an allocator the envelope is its answer, and the size is clamped
      into it. */
  lemma {:induction false} NoWrapAllocator()
    ensures AllocateArea(Defaults(NoWrap), Some(WidgetSize(30.0, 100.0, 200.0, 10.0, 10.0, 20.0)), (200, 100), Buttons())
      == Done(Allocation(WidgetSize(30.0, 150.0, 200.0, 10.0, 20.0, 20.0), Row3Rects))
  {
    var answer := Some(WidgetSize(30.0, 100.0, 200.0, 10.0, 10.0, 20.0));
    var env := Envelope(answer, (200, 100));
    MeasureButtons((ToUsize(env.maxWidth), ToUsize(env.maxHeight)));
    NoWrapRoomy(env);
    Row3Facts();
    Row3Placed(NoWrap, 20.0, 200.0);
    AllocateVia(Defaults(NoWrap), answer, (200, 100), Buttons(), env, Repeat(Button, 3), Row3,
      WidgetSize(30.0, 150.0, 200.0, 10.0, 20.0, 20.0), Row3Rects);
  }

  /** An allocator whose minimum exceeds the content: the size is raised to
      the minimum. */
  lemma {:induction false} NoWrapUnderflows()
    ensures AllocateArea(Defaults(NoWrap), Some(WidgetSize(250.0, 250.0, 300.0, 50.0, 50.0, 100.0)), (250, 100), Buttons())
      == Done(Allocation(WidgetSize(250.0, 250.0, 300.0, 50.0, 50.0, 100.0), Row3Rects))
  {
    var answer := Some(WidgetSize(250.0, 250.0, 300.0, 50.0, 50.0, 100.0));
    var env := Envelope(answer, (250, 100));
    MeasureButtons((ToUsize(env.maxWidth), ToUsize(env.maxHeight)));
    NoWrapRoomy(env);
    Row3Facts();
    Row3Placed(NoWrap, 50.0, 250.0);
    AllocateVia(Defaults(NoWrap), answer, (250, 100), Buttons(), env, Repeat(Button, 3), Row3,
      WidgetSize(250.0, 250.0, 300.0, 50.0, 50.0, 100.0), Row3Rects);
  }

  // ---------------------------------------------------------------------
  // The stages of test_flexbox_size_wrap

  const PairsRects: seq<Rect> :=
    [Rect((0.0, 0.0), (50.0, 20.0)), Rect((50.0, 0.0), (100.0, 20.0)), Rect((0.0, 20.0), (50.0, 40.0))]

  /** A button shrunk half-way to its minimum width. */
  const Half: WidgetSize := WidgetSize(40.0, 45.0, 60.0, 15.0, 20.0, 25.0)

  lemma {:induction false} WrapForm(maxWidth: real)
    ensures Form(Wrap, Repeat(Button, 3), maxWidth) == WrapRows(Repeat(Button, 3), maxWidth)
  {
  }

  /** With an envelope at least 150 x 20 the buttons share one row. */
  lemma {:induction false} WrapRoomy(env: WidgetSize)
    requires env.maxWidth >= 150.0 && env.maxHeight >= 20.0
    ensures Content(Defaults(Wrap), env, Repeat(Button, 3)) == Row3
  {
    WrapWide(env.maxWidth);
    Row3Facts();
    ResolveKeep(Row3, env);
  }

  /** Two rows: their height, and their width when the first is wider. */
  lemma {:induction false} TwoRows(a: Row, b: Row)
    requires 0.0 <= b.width <= a.width
    ensures SumHeights([a, b]) == a.height + b.height
    ensures Widest([a, b]) == a.width
  {
    assert [a, b][..1] == [a] && [a][..0] == [];
    assert SumHeights([a]) == a.height;
    assert SumHeights([a, b]) == SumHeights([a]) + b.height;
    WidestIs([a, b], 0);
  }

  /** Two rows of copies of one child, stacked from the top. */
  lemma {:induction false} TwoRowsPlaced(c: WidgetSize, m: nat, n: nat, a: Row, b: Row, containerWidth: real)
    requires a.items == Repeat(c, m) && b.items == Repeat(c, n)
    requires c.minHeight <= a.height <= c.maxHeight && c.minHeight <= b.height <= c.maxHeight
    ensures AllPlaceable(AlignItems.Stretch, [a, b])
    ensures PlaceRows([a, b], 0.0, 0.0, JustifyContent.FlexStart, containerWidth, AlignItems.Stretch)
      == Along(c.width, m, 0.0, 0.0, a.height) + Along(c.width, n, 0.0, 0.0 + a.height + 0.0, b.height)
  {
    var y := 0.0 + a.height + 0.0;
    var lower := PlaceRows([b], y, 0.0, JustifyContent.FlexStart, containerWidth, AlignItems.Stretch);
    assert lower == Along(c.width, n, 0.0, y, b.height) by {
      NoRows(y + b.height + 0.0, containerWidth);
      TopRow(c, n, b.width, b.height, [], y, containerWidth);
      assert [b] + [] == [b];
    }
    TopRow(c, m, a.width, a.height, [b], 0.0, containerWidth);
    assert [a] + [b] == [a, b];
  }

  /** From 100 up to 150 wide and at least 40 high: two buttons on the first
      row, one on the second. */
  lemma {:induction false} PairsContent(env: WidgetSize)
    requires 100.0 <= env.maxWidth < 150.0 && env.maxHeight >= 40.0
    ensures Content(Defaults(Wrap), env, Repeat(Button, 3)) == [RowOf(Button, 2), RowOf(Button, 1)]
  {
    WrapPairs(env.maxWidth);
    ButtonRows();
    TwoRows(RowOf(Button, 2), RowOf(Button, 1));
    ResolveKeep([RowOf(Button, 2), RowOf(Button, 1)], env);
  }

  lemma {:induction false} PairsPlaced(available: real, containerWidth: real)
    ensures HeightsOk([RowOf(Button, 2), RowOf(Button, 1)])
    ensures Arrange(Defaults(Wrap), [RowOf(Button, 2), RowOf(Button, 1)], available, containerWidth) == PairsRects
  {
    var rows := [RowOf(Button, 2), RowOf(Button, 1)];
    ButtonRows();
    assert HeightsOk(rows);
    ArrangeFromTop(Wrap, rows, available, containerWidth);
    TwoRowsPlaced(Button, 2, 1, RowOf(Button, 2), RowOf(Button, 1), containerWidth);
    PairsAlong();
  }

  lemma {:induction false} PairsAlong()
    ensures Along(50.0, 2, 0.0, 0.0, 20.0) + Along(50.0, 1, 0.0, 0.0 + 20.0 + 0.0, 20.0) == PairsRects
  {
    assert Along(50.0, 1, 0.0, 20.0, 20.0) == [Rect((0.0, 20.0), (50.0, 40.0))];
    assert Along(50.0, 2, 0.0, 0.0, 20.0) == [Rect((0.0, 0.0), (50.0, 20.0)), Rect((50.0, 0.0), (100.0, 20.0))];
  }

  /** Below 50 the empty first row is kept and each button row shrinks on
      its own. */
  lemma {:induction false} NarrowShrunk(maxWidth: real) returns (c: WidgetSize)
    requires 0.0 <= maxWidth < 50.0
    ensures c == Button.(width := ShrunkWidth(Button, UniformFactor(50.0 - maxWidth, 10.0)))
    ensures ShrinkRows(Form(Wrap, Repeat(Button, 3), maxWidth), maxWidth) == [EmptyRow] + Repeat(Single(c), 3)
  {
    assert Gaps(1, Button.width) == 50.0 && Gaps(1, Cap(Button)) == 10.0;
    var f := ShrinkRepeat(Button, 1, maxWidth);
    c := Button.(width := ShrunkWidth(Button, f));
    assert Form(Wrap, Repeat(Button, 3), maxWidth) == [EmptyRow] + Repeat(Single(Button), 3) by {
      WrapNarrow(maxWidth);
      RowOfOne(Button);
    }
    assert ShrinkRow(Single(Button), maxWidth) == Single(c) by {
      RowOfOne(Button);
      RowOfOne(c);
    }
    ShrinkBelowEmpty(Single(Button), Single(c), 3, maxWidth);
  }

  lemma {:induction false} SingleSlack(c: WidgetSize)
    requires 0.0 <= c.minHeight
    ensures Slack(Single(c)) == c.height - c.minHeight
  {
    assert [c][..0] == [];
    assert MinRowHeight([]) == 0.0;
    assert MinRowHeight([c]) == Max(MinRowHeight([]), c.minHeight);
  }

  /** Three one-child rows below an empty one `r`: no slack in `r`, the
      child's slack in the others, so the keys ascend. (`r` is a parameter
      rather than `EmptyRow` itself, which keeps the solver from evaluating
      the folds over a constant.) */
  lemma {:induction false} SinglesSlacks(r: Row, c: WidgetSize)
    requires |r.items| == 0 && r.height == 0.0 && 0.0 <= c.minHeight <= c.height
    ensures var sl := c.height - c.minHeight;
      var rows := [r, Single(c), Single(c), Single(c)];
      && RowSlacks(rows) == [0.0, sl, sl, sl]
      && forall i, j :: 0 <= i < j < |rows| ==> Keys(rows)[i] <= Keys(rows)[j]
  {
    var sl := c.height - c.minHeight;
    var rows := [r, Single(c), Single(c), Single(c)];
    SingleSlack(c);
    assert RowSlacks(rows) == [Slack(r), Slack(Single(c)), Slack(Single(c)), Slack(Single(c))];
    assert Keys(rows) == [SlackKey(0.0), SlackKey(sl), SlackKey(sl), SlackKey(sl)];
    TruncMonotone(0.0 * 1000.0, sl * 1000.0);
  }

  /** Three shares of an overflow of at least three slacks, after a row
      with none. */
  lemma {:induction false} AmountsOfSlacks(slack: real, overflow: real)
    requires 0.0 <= slack && 3.0 * slack <= overflow
    ensures Amounts([0.0, slack, slack, slack], overflow) == [0.0, slack, slack, slack]
  {
    var s := [0.0, slack, slack, slack];
    assert s[1..] == [slack, slack, slack] && s[1..][1..] == [slack, slack] && s[1..][1..][1..] == [slack];
    assert Amounts([slack], overflow - slack - slack) == [slack];
    assert Amounts([slack, slack], overflow - slack) == [slack, slack];
    assert Amounts([slack, slack, slack], overflow) == [slack, slack, slack];
  }

  /** An empty row and three one-child rows are three child heights high. */
  lemma {:induction false} SinglesHeight(r: Row, c: WidgetSize)
    requires |r.items| == 0 && r.height == 0.0
    ensures SumHeights([r, Single(c), Single(c), Single(c)]) == 3.0 * c.height
  {
    assert [r] + Repeat(Single(c), 3) == [r, Single(c), Single(c), Single(c)];
    SumHeightsRepeat(Single(c), 3);
    SumHeightsCons(r, Repeat(Single(c), 3));
    assert Gaps(3, c.height) == Gaps(2, c.height) + c.height;
    assert Gaps(2, c.height) == Gaps(1, c.height) + c.height;
    assert Gaps(1, c.height) == Gaps(0, c.height) + c.height;
  }

  /** The vertical pass over those rows, at most three minimum heights high:
      each one-child row gives up all its slack. */
  lemma {:induction false} SinglesLowered(r: Row, c: WidgetSize, maxHeight: real)
    requires |r.items| == 0 && r.height == 0.0 && 0.0 <= c.minHeight < c.height
    requires maxHeight <= 3.0 * c.minHeight
    ensures var out := ShrinkVertical([r, Single(c), Single(c), Single(c)], maxHeight);
      var lowered := Lower(Single(c), c.height - c.minHeight);
      && |out| == 4 && out[0] == Lower(r, 0.0)
      && out[1] == lowered && out[2] == lowered && out[3] == lowered
  {
    var rows := [r, Single(c), Single(c), Single(c)];
    var slack := c.height - c.minHeight;
    SinglesHeight(r, c);
    SinglesSlacks(r, c);
    AmountsOfSlacks(slack, 3.0 * c.height - maxHeight);
    VerticalInRowOrder(rows, maxHeight);
  }

  /** Three one-child rows below an empty one, at most three minimum heights
      high: every child drops to its minimum height. */
  lemma {:induction false} LowerSingles(r: Row, c: WidgetSize, maxHeight: real)
    requires |r.items| == 0 && r.height == 0.0 && 0.0 <= c.minHeight < c.height
    requires maxHeight <= 3.0 * c.minHeight
    ensures ShrinkVertical([r] + Repeat(Single(c), 3), maxHeight)
      == [r] + Repeat(Single(c.(height := c.minHeight)), 3)
  {
    var rows := [r, Single(c), Single(c), Single(c)];
    var low := Single(c.(height := c.minHeight));
    assert [r] + Repeat(Single(c), 3) == rows;
    assert [r] + Repeat(low, 3) == [r, low, low, low];
    SinglesLowered(r, c, maxHeight);
    assert Lower(r, 0.0) == r;
    assert Lower(Single(c), c.height - c.minHeight) == low;
  }

  // ---------------------------------------------------------------------
  // test_flexbox_size_wrap

  /** Wrapping changes nothing while the buttons fit on one row. */
  lemma {:induction false} WrapFits()
    ensures AllocateArea(Defaults(Wrap), None, (200, 100), Buttons())
      == Done(Allocation(WidgetSize(0.0, 150.0, 200.0, 0.0, 20.0, 100.0), Row3Rects))
  {
    var env := Envelope(None, (200, 100));
    MeasureButtons((ToUsize(env.maxWidth), ToUsize(env.maxHeight)));
    WrapRoomy(env);
    Row3Facts();
    Row3Placed(Wrap, 20.0, 200.0);
    AllocateVia(Defaults(Wrap), None, (200, 100), Buttons(), env, Repeat(Button, 3), Row3,
      WidgetSize(0.0, 150.0, 200.0, 0.0, 20.0, 100.0), Row3Rects);
  }

  /** In 100 x 100 the third button wraps onto a second row. */
  lemma {:induction false} WrapBreaks()
    ensures AllocateArea(Defaults(Wrap), None, (100, 100), Buttons())
      == Done(Allocation(WidgetSize(0.0, 100.0, 100.0, 0.0, 40.0, 100.0), PairsRects))
  {
    var env := Envelope(None, (100, 100));
    MeasureButtons((ToUsize(env.maxWidth), ToUsize(env.maxHeight)));
    var rows := [RowOf(Button, 2), RowOf(Button, 1)];
    PairsContent(env);
    ButtonRows();
    TwoRows(RowOf(Button, 2), RowOf(Button, 1));
    PairsPlaced(40.0, 100.0);
    AllocateVia(Defaults(Wrap), None, (100, 100), Buttons(), env, Repeat(Button, 3), rows,
      WidgetSize(0.0, 100.0, 100.0, 0.0, 40.0, 100.0), PairsRects);
  }

  /** In 45 x 100 each button gets a row of its own, shrunk to 45. */
  lemma {:induction false} WrapShrinks()
    ensures AllocateArea(Defaults(Wrap), None, (45, 100), Buttons())
      == Done(Allocation(WidgetSize(0.0, 45.0, 45.0, 0.0, 60.0, 100.0),
           [Rect((0.0, 0.0), (45.0, 20.0)), Rect((0.0, 20.0), (45.0, 40.0)), Rect((0.0, 40.0), (45.0, 60.0))]))
  {
    var env := Envelope(None, (45, 100));
    var rows := [EmptyRow] + Repeat(Single(Half), 3);
    MeasureButtons((ToUsize(env.maxWidth), ToUsize(env.maxHeight)));
    var c := NarrowShrunk(45.0);
    assert c == Half;
    SinglesFacts(Half, 3);
    assert Gaps(3, 20.0) == 60.0;
    assert Content(Defaults(Wrap), env, Repeat(Button, 3)) == rows;
    SinglesPlaced(Wrap, Half, 3, 60.0, 45.0);
    StackThree(45.0, 20.0);
    AllocateVia(Defaults(Wrap), None, (45, 100), Buttons(), env, Repeat(Button, 3), rows,
      WidgetSize(0.0, 45.0, 45.0, 0.0, 60.0, 100.0), Stack(45.0, 20.0, 3, 0.0));
  }

  /** In 10 x 10 every button shrinks to its minimum size, one per row. */
  lemma {:induction false} WrapOverflows()
    ensures AllocateArea(Defaults(Wrap), None, (10, 10), Buttons())
      == Done(Allocation(WidgetSize(0.0, 10.0, 10.0, 0.0, 10.0, 10.0),
           [Rect((0.0, 0.0), (40.0, 15.0)), Rect((0.0, 15.0), (40.0, 30.0)), Rect((0.0, 30.0), (40.0, 45.0))]))
  {
    var env := Envelope(None, (10, 10));
    var rows := [EmptyRow] + Repeat(Single(Low), 3);
    MeasureButtons((ToUsize(env.maxWidth), ToUsize(env.maxHeight)));
    var c := NarrowShrunk(10.0);
    FactorOne(40.0, 10.0);
    assert c == Narrow;
    LowerSingles(EmptyRow, Narrow, 10.0);
    assert Narrow.(height := Narrow.minHeight) == Low;
    assert Content(Defaults(Wrap), env, Repeat(Button, 3)) == rows;
    SinglesFacts(Low, 3);
    assert Gaps(3, 15.0) == 45.0;
    SinglesPlaced(Wrap, Low, 3, 10.0, 10.0);
    StackThree(40.0, 15.0);
    AllocateVia(Defaults(Wrap), None, (10, 10), Buttons(), env, Repeat(Button, 3), rows,
      WidgetSize(0.0, 10.0, 10.0, 0.0, 10.0, 10.0), Stack(40.0, 15.0, 3, 0.0));
  }

  /** An allocator 55 wide at most: one button per row, no shrinking. */
  lemma {:induction false} WrapAllocator()
    ensures AllocateArea(Defaults(Wrap), Some(WidgetSize(30.0, 45.0, 55.0, 10.0, 10.0, 100.0)), (200, 100), Buttons())
      == Done(Allocation(WidgetSize(30.0, 50.0, 55.0, 10.0, 60.0, 100.0),
           [Rect((0.0, 0.0), (50.0, 20.0)), Rect((0.0, 20.0), (50.0, 40.0)), Rect((0.0, 40.0), (50.0, 60.0))]))
  {
    var answer := Some(WidgetSize(30.0, 45.0, 55.0, 10.0, 10.0, 100.0));
    var env := Envelope(answer, (200, 100));
    var rows := Repeat(Single(Button), 3);
    MeasureButtons((ToUsize(env.maxWidth), ToUsize(env.maxHeight)));
    WrapSingles(55.0);
    RowOfOne(Button);
    SinglesFacts(Button, 3);
    assert Gaps(3, 20.0) == 60.0;
    ResolveKeep(rows, env);
    assert Content(Defaults(Wrap), env, Repeat(Button, 3)) == rows;
    SinglesPlaced(Wrap, Button, 3, 60.0, 200.0);
    StackThree(50.0, 20.0);
    AllocateVia(Defaults(Wrap), answer, (200, 100), Buttons(), env, Repeat(Button, 3), rows,
      WidgetSize(30.0, 50.0, 55.0, 10.0, 60.0, 100.0), Stack(50.0, 20.0, 3, 0.0));
  }

  /** An allocator whose minimum exceeds the content: the size is raised to
      the minimum. */
  lemma {:induction false} WrapUnderflows()
    ensures AllocateArea(Defaults(Wrap), Some(WidgetSize(150.0, 150.0, 200.0, 80.0, 80.0, 100.0)), (200, 100), Buttons())
      == Done(Allocation(WidgetSize(150.0, 150.0, 200.0, 80.0, 80.0, 100.0), Row3Rects))
  {
    var answer := Some(WidgetSize(150.0, 150.0, 200.0, 80.0, 80.0, 100.0));
    var env := Envelope(answer, (200, 100));
    MeasureButtons((ToUsize(env.maxWidth), ToUsize(env.maxHeight)));
    WrapRoomy(env);
    Row3Facts();
    Row3Placed(Wrap, 80.0, 200.0);
    AllocateVia(Defaults(Wrap), answer, (200, 100), Buttons(), env, Repeat(Button, 3), Row3,
      WidgetSize(150.0, 150.0, 200.0, 80.0, 80.0, 100.0), Row3Rects);
  }
}
