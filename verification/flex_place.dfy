/** Placement of the children (src/containers/flexbox.rs:233-299): the rows
    are stacked from the `align-content` start, each followed by its height
    and the `align-content` gap; inside a row the children run from the
    `justify-content` start, each followed by its width and the
    `justify-content` gap, and sit at the `align-items` offset. */
module FlexPlace {
  import opened Numeric
  import opened Sizes
  import opened Geometry
  import opened FlexRows
  import opened FlexVertical
  import opened FlexAlign

  /** `Place` does not panic on `c`: `Stretch` needs its height bounds the
      right way round. */
  predicate Fits(mode: AlignItems, c: WidgetSize)
  {
    mode == AlignItems.Stretch ==> c.HeightBoundsOk()
  }

  /** No child of `items` makes `Place` panic. */
  predicate Placeable(mode: AlignItems, items: seq<WidgetSize>)
  {
    forall k :: 0 <= k < |items| ==> Fits(mode, items[k])
  }

  /** The subarea of one child at horizontal position `x`, in a row whose
      top is `y`: `Rect::sized(x, y + widget_y_offset, widget.width, widget_height)`. */
  function Subarea(c: WidgetSize, x: real, y: real, rowHeight: real, mode: AlignItems): (r: Rect)
    requires Fits(mode, c)
    ensures Width(r) == c.width && r.min.0 == x
  {
    var (offset, height) := Place(mode, rowHeight, c).value;
    Sized(x, y + offset, c.width, height)
  }

  /** The children of one row, from left to right: `x += widget.width + x_offset`. */
  function PlaceRow(items: seq<WidgetSize>, x: real, gap: real, y: real, rowHeight: real, mode: AlignItems): (rects: seq<Rect>)
    requires Placeable(mode, items)
    ensures |rects| == |items|
    decreases |items|
  {
    if |items| == 0 then []
    else
      [Subarea(items[0], x, y, rowHeight, mode)]
        + PlaceRow(items[1..], x + items[0].width + gap, gap, y, rowHeight, mode)
  }

  /** All children of the rows can be placed. */
  predicate AllPlaceable(mode: AlignItems, rows: seq<Row>)
  {
    forall i :: 0 <= i < |rows| ==> Placeable(mode, rows[i].items)
  }

  /** The children of row `r` with its top at `y`, spread by
      `justify-content` over the container width `available`. */
  function RowRects(r: Row, y: real, justify: JustifyContent, available: real, mode: AlignItems): (rects: seq<Rect>)
    requires Placeable(mode, r.items)
    ensures |rects| == |r.items|
  {
    var s := Justify(justify, available, r.width, |r.items|);
    PlaceRow(r.items, s.start, s.gap, y, r.height, mode)
  }

  /** The top of each row: the first row starts at `y`, and each next row
      starts below the previous one plus the gap (`y += row_height + y_offset`). */
  function Tops(rows: seq<Row>, y: real, yGap: real): (tops: seq<real>)
    ensures |tops| == |rows|
    decreases |rows|
  {
    if |rows| == 0 then []
    else [y] + Tops(rows[1..], y + rows[0].height + yGap, yGap)
  }

  /** The parts joined in order. */
  function Flatten<T>(parts: seq<seq<T>>): seq<T>
    decreases |parts|
  {
    if |parts| == 0 then [] else Flatten(parts[..|parts| - 1]) + parts[|parts| - 1]
  }

  /** The children of each row, each row at its top. */
  function RowsRects(rows: seq<Row>, y: real, yGap: real, justify: JustifyContent, available: real, mode: AlignItems): (parts: seq<seq<Rect>>)
    requires AllPlaceable(mode, rows)
    ensures |parts| == |rows|
    ensures forall i :: 0 <= i < |rows| ==> |parts[i]| == |rows[i].items|
    decreases |rows|
  {
    if |rows| == 0 then []
    else
      [RowRects(rows[0], y, justify, available, mode)]
        + RowsRects(rows[1..], y + rows[0].height + yGap, yGap, justify, available, mode)
  }

  /** One subarea per child, in child order: the rows from top to bottom and
      the children of each row from left to right. */
  function PlaceRows(rows: seq<Row>, y: real, yGap: real, justify: JustifyContent, available: real, mode: AlignItems): (rects: seq<Rect>)
    requires AllPlaceable(mode, rows)
    ensures |rects| == |Items(rows)|
  {
    var parts := RowsRects(rows, y, yGap, justify, available, mode);
    FlattenShape(parts, rows);
    Flatten(parts)
  }

  // ---------------------------------------------------------------------
  // Sums read from the front

  lemma {:induction false} ItemsCons(r: Row, rest: seq<Row>)
    ensures Items([r] + rest) == r.items + Items(rest)
  {
    ItemsAppend([r], rest);
    ItemsSingle(r);
  }

  lemma {:induction false} SumWidthsCons(c: WidgetSize, s: seq<WidgetSize>)
    ensures SumWidths([c] + s) == c.width + SumWidths(s)
    decreases |s|
  {
    if |s| == 0 {
      assert ([c] + s)[..0] == [];
    } else {
      var n := |s| - 1;
      assert ([c] + s)[..|s|] == [c] + s[..n];
      assert ([c] + s)[|s|] == s[n];
      SumWidthsCons(c, s[..n]);
    }
  }

  lemma {:induction false} SumHeightsCons(r: Row, rest: seq<Row>)
    ensures SumHeights([r] + rest) == r.height + SumHeights(rest)
    decreases |rest|
  {
    if |rest| == 0 {
      assert ([r] + rest)[..0] == [];
    } else {
      var n := |rest| - 1;
      assert ([r] + rest)[..|rest|] == [r] + rest[..n];
      assert ([r] + rest)[|rest|] == rest[n];
      SumHeightsCons(r, rest[..n]);
    }
  }

  /** With non-negative widths, a prefix is never wider than the whole. */
  lemma {:induction false} SumWidthsPrefixBelow(s: seq<WidgetSize>, k: nat)
    requires k <= |s|
    requires forall j :: 0 <= j < |s| ==> s[j].width >= 0.0
    ensures SumWidths(s[..k]) <= SumWidths(s)
    decreases |s|
  {
    if k < |s| {
      var n := |s| - 1;
      assert s[..n][..k] == s[..k];
      SumWidthsPrefixBelow(s[..n], k);
    } else {
      assert s[..k] == s;
    }
  }

  // ---------------------------------------------------------------------
  // Inside one row

  /** Each child starts where the previous one ended plus the gap. */
  lemma {:induction false} PlaceRowStep(items: seq<WidgetSize>, x: real, gap: real, y: real, rowHeight: real, mode: AlignItems, k: nat)
    requires Placeable(mode, items)
    requires k + 1 < |items|
    ensures var rects := PlaceRow(items, x, gap, y, rowHeight, mode);
      rects[k + 1].min.0 == rects[k].max.0 + gap
    decreases k
  {
    var x' := x + items[0].width + gap;
    if k > 0 {
      PlaceRowStep(items[1..], x', gap, y, rowHeight, mode, k - 1);
    }
  }

  /** `k` gaps, added one at a time as the loops do. */
  function Gaps(k: nat, gap: real): real
  {
    if k == 0 then 0.0 else Gaps(k - 1, gap) + gap
  }

  lemma {:induction false} GapsProduct(k: nat, gap: real)
    ensures Gaps(k, gap) == (k as real) * gap
  {
    if k > 0 {
      GapsProduct(k - 1, gap);
    }
  }

  /** The row loop with the gaps counted one by one. */
  lemma {:induction false} PlaceRowAtGaps(items: seq<WidgetSize>, x: real, gap: real, y: real, rowHeight: real, mode: AlignItems, k: nat)
    requires Placeable(mode, items)
    requires k < |items|
    ensures PlaceRow(items, x, gap, y, rowHeight, mode)[k]
      == Subarea(items[k], x + SumWidths(items[..k]) + Gaps(k, gap), y, rowHeight, mode)
    decreases k
  {
    if k == 0 {
      assert items[..0] == [];
    } else {
      var rest := items[1..];
      var x' := x + items[0].width + gap;
      PlaceRowAtGaps(rest, x', gap, y, rowHeight, mode, k - 1);
      SumWidthsAfterFirst(items, k);
      assert rest[k - 1] == items[k];
    }
  }

  lemma {:induction false} SumWidthsAfterFirst(items: seq<WidgetSize>, k: nat)
    requires 1 <= k <= |items|
    ensures SumWidths(items[..k]) == items[0].width + SumWidths(items[1..][..k - 1])
  {
    assert items[..k] == [items[0]] + items[1..][..k - 1];
    SumWidthsCons(items[0], items[1..][..k - 1]);
  }

  /** The closed form of the row loop: child `k` is the subarea placed after
      the widths of the children before it and `k` gaps. */
  lemma {:induction false} PlaceRowAt(items: seq<WidgetSize>, x: real, gap: real, y: real, rowHeight: real, mode: AlignItems, k: nat)
    requires Placeable(mode, items)
    requires k < |items|
    ensures PlaceRow(items, x, gap, y, rowHeight, mode)[k]
      == Subarea(items[k], x + SumWidths(items[..k]) + (k as real) * gap, y, rowHeight, mode)
  {
    PlaceRowAtGaps(items, x, gap, y, rowHeight, mode, k);
    GapsProduct(k, gap);
  }

  lemma GapsBelow(k: nat, n: nat, gap: real)
    requires k < n && gap >= 0.0
    ensures 0.0 <= (k as real) * gap <= ((n - 1) as real) * gap
  {
  }

  /** The horizontal extent of child `k` of a row. */
  lemma {:induction false} ChildAt(items: seq<WidgetSize>, s: Spacing, y: real, rowHeight: real, mode: AlignItems, k: nat)
    requires Placeable(mode, items)
    requires k < |items|
    ensures var rect := PlaceRow(items, s.start, s.gap, y, rowHeight, mode)[k];
      && rect.min.0 == s.start + SumWidths(items[..k]) + (k as real) * s.gap
      && rect.max.0 == rect.min.0 + items[k].width
  {
    PlaceRowAt(items, s.start, s.gap, y, rowHeight, mode, k);
  }

  /** With non-negative widths, the children before `k` and child `k`
      together take no more than the whole row. */
  lemma {:induction false} PrefixWidths(items: seq<WidgetSize>, k: nat)
    requires forall j :: 0 <= j < |items| ==> items[j].width >= 0.0
    requires k < |items|
    ensures 0.0 <= SumWidths(items[..k])
    ensures SumWidths(items[..k]) + items[k].width <= SumWidths(items)
  {
    assert SumWidths(items[..k + 1]) == SumWidths(items[..k]) + items[k].width by {
      assert items[..k + 1][..k] == items[..k];
    }
    SumWidthsNonNeg(items[..k]);
    SumWidthsPrefixBelow(items, k + 1);
  }

  /** Child `k` of a row laid out from a non-negative start with
      non-negative gaps starts and ends between 0 and the row's far edge. */
  lemma {:induction false} ChildSpan(items: seq<WidgetSize>, s: Spacing, available: real, k: nat)
    requires forall j :: 0 <= j < |items| ==> items[j].width >= 0.0
    requires k < |items|
    requires 0.0 <= s.start && 0.0 <= s.gap
    requires End(s, SumWidths(items), |items|) <= available
    ensures var lo := s.start + SumWidths(items[..k]) + (k as real) * s.gap;
      0.0 <= lo && lo + items[k].width <= available
  {
    var n := |items|;
    var before := SumWidths(items[..k]);
    PrefixWidths(items, k);
    GapsBelow(k, n, s.gap);
    Within(s.start, before, items[k].width, before + items[k].width, SumWidths(items), (k as real) * s.gap, ((n - 1) as real) * s.gap, available);
  }

  /** A row laid out from a non-negative start with non-negative gaps, whose
      far edge is inside `[0, available]`, keeps every child inside. */
  lemma {:induction false} ChildInside(items: seq<WidgetSize>, s: Spacing, y: real, rowHeight: real, mode: AlignItems, available: real, k: nat)
    requires Placeable(mode, items)
    requires forall j :: 0 <= j < |items| ==> items[j].width >= 0.0
    requires k < |items|
    requires 0.0 <= s.start && 0.0 <= s.gap
    requires End(s, SumWidths(items), |items|) <= available
    ensures var rect := PlaceRow(items, s.start, s.gap, y, rowHeight, mode)[k];
      0.0 <= rect.min.0 <= rect.max.0 <= available
  {
    ChildAt(items, s, y, rowHeight, mode, k);
    ChildSpan(items, s, available, k);
  }

  /** The linear step of `ChildInside`: a child that starts after a part of
      the widths and gaps of the row ends before the row does. */
  lemma Within(start: real, before: real, w: real, upTo: real, total: real, gapsBefore: real, gapsAll: real, available: real)
    requires 0.0 <= start && 0.0 <= before && 0.0 <= w
    requires upTo == before + w && upTo <= total
    requires 0.0 <= gapsBefore <= gapsAll
    requires start + total + gapsAll <= available
    ensures 0.0 <= start + before + gapsBefore
    ensures start + before + gapsBefore + w <= available
  {
  }

  /** When the row fits and `justify-content` is applied, every child lies
      inside `[0, available]`. */
  lemma {:induction false} RowInside(r: Row, justify: JustifyContent, available: real, y: real, mode: AlignItems, k: nat)
    requires Placeable(mode, r.items)
    requires r.width == SumWidths(r.items) && r.width <= available
    requires forall j :: 0 <= j < |r.items| ==> r.items[j].width >= 0.0
    requires k < |r.items|
    ensures var s := Justify(justify, available, r.width, |r.items|);
      var rect := PlaceRow(r.items, s.start, s.gap, y, r.height, mode)[k];
      0.0 <= rect.min.0 <= rect.max.0 <= available
  {
    var n := |r.items|;
    var s := Justify(justify, available, r.width, n);
    assert s.start >= 0.0 && s.gap >= 0.0 && End(s, r.width, n) <= available by {
      JustifyFills(justify, available, r.width, n);
    }
    ChildInside(r.items, s, y, r.height, mode, available, k);
  }

  /** With non-negative gaps, neighbouring children do not overlap. */
  lemma {:induction false} RowDisjoint(items: seq<WidgetSize>, x: real, gap: real, y: real, rowHeight: real, mode: AlignItems, k: nat)
    requires Placeable(mode, items)
    requires gap >= 0.0 && k + 1 < |items|
    ensures var rects := PlaceRow(items, x, gap, y, rowHeight, mode);
      rects[k].max.0 <= rects[k + 1].min.0
  {
    PlaceRowStep(items, x, gap, y, rowHeight, mode, k);
  }

  lemma {:induction false} SumWidthsNonNeg(s: seq<WidgetSize>)
    requires forall j :: 0 <= j < |s| ==> s[j].width >= 0.0
    ensures SumWidths(s) >= 0.0
    decreases |s|
  {
    if |s| > 0 {
      SumWidthsNonNeg(s[..|s| - 1]);
    }
  }

  // ---------------------------------------------------------------------
  // The stack of rows

  /** Parts as long as the rows' item lists flatten to as many elements as
      the rows have children. */
  lemma {:induction false} FlattenShape<T>(parts: seq<seq<T>>, rows: seq<Row>)
    requires |parts| == |rows|
    requires forall i :: 0 <= i < |rows| ==> |parts[i]| == |rows[i].items|
    ensures |Flatten(parts)| == |Items(rows)|
    decreases |rows|
  {
    if |rows| > 0 {
      var n := |rows| - 1;
      FlattenShape(parts[..n], rows[..n]);
    }
  }

  /** Element `k` of part `i` sits after the elements of the parts before it. */
  lemma {:induction false} FlattenIndex<T>(parts: seq<seq<T>>, i: nat, k: nat)
    requires i < |parts| && k < |parts[i]|
    ensures |Flatten(parts[..i])| + k < |Flatten(parts)|
    ensures Flatten(parts)[|Flatten(parts[..i])| + k] == parts[i][k]
    decreases |parts|
  {
    var n := |parts| - 1;
    var front := Flatten(parts[..n]);
    assert Flatten(parts) == front + parts[n];
    if i == n {
      assert (front + parts[n])[|front| + k] == parts[n][k];
    } else {
      assert parts[..n][..i] == parts[..i];
      FlattenIndex(parts[..n], i, k);
      assert (front + parts[n])[|Flatten(parts[..i])| + k] == front[|Flatten(parts[..i])| + k];
    }
  }

  /** Each row starts where the previous one ended plus the gap. */
  lemma {:induction false} TopsStep(rows: seq<Row>, y: real, yGap: real, i: nat)
    requires i + 1 < |rows|
    ensures Tops(rows, y, yGap)[i + 1] == Tops(rows, y, yGap)[i] + rows[i].height + yGap
    decreases i
  {
    if i > 0 {
      TopsStep(rows[1..], y + rows[0].height + yGap, yGap, i - 1);
    }
  }

  /** The heights of the rows before row `i` are the first row's height and
      the heights of the rest before it. */
  lemma {:induction false} HeightsAfterFirst(rows: seq<Row>, i: nat)
    requires 1 <= i <= |rows|
    ensures SumHeights(rows[..i]) == rows[0].height + SumHeights(rows[1..][..i - 1])
  {
    assert rows[..i] == [rows[0]] + rows[1..][..i - 1];
    SumHeightsCons(rows[0], rows[1..][..i - 1]);
  }

  lemma {:induction false} TopsAtGaps(rows: seq<Row>, y: real, yGap: real, i: nat)
    requires i < |rows|
    ensures Tops(rows, y, yGap)[i] == y + SumHeights(rows[..i]) + Gaps(i, yGap)
    decreases i
  {
    if i == 0 {
      assert rows[..0] == [];
    } else {
      var y' := y + rows[0].height + yGap;
      assert Tops(rows, y, yGap)[i] == Tops(rows[1..], y', yGap)[i - 1];
      TopsAtGaps(rows[1..], y', yGap, i - 1);
      HeightsAfterFirst(rows, i);
    }
  }

  /** The closed form of the row loop: row `i` starts below the rows before
      it and `i` gaps. */
  lemma {:induction false} TopsAt(rows: seq<Row>, y: real, yGap: real, i: nat)
    requires i < |rows|
    ensures Tops(rows, y, yGap)[i] == y + SumHeights(rows[..i]) + (i as real) * yGap
  {
    TopsAtGaps(rows, y, yGap, i);
    GapsProduct(i, yGap);
  }

  lemma {:induction false} AllPlaceableTail(mode: AlignItems, rows: seq<Row>)
    requires AllPlaceable(mode, rows) && |rows| > 0
    ensures AllPlaceable(mode, rows[1..])
  {
    forall j | 0 <= j < |rows| - 1
      ensures Placeable(mode, rows[1..][j].items)
    {
      assert rows[1..][j] == rows[j + 1];
    }
  }

  /** Row `i` is laid out at its top. */
  lemma {:induction false} RowsRectsAt(rows: seq<Row>, y: real, yGap: real, justify: JustifyContent, available: real, mode: AlignItems, i: nat)
    requires AllPlaceable(mode, rows) && i < |rows|
    ensures RowsRects(rows, y, yGap, justify, available, mode)[i] == RowRects(rows[i], Tops(rows, y, yGap)[i], justify, available, mode)
    decreases i
  {
    if i > 0 {
      AllPlaceableTail(mode, rows);
      RowsRectsAt(rows[1..], y + rows[0].height + yGap, yGap, justify, available, mode, i - 1);
    }
  }


  /** `Flatten` read from the front. */
  lemma {:induction false} FlattenCons<T>(p: seq<T>, ps: seq<seq<T>>)
    ensures Flatten([p] + ps) == p + Flatten(ps)
    decreases |ps|
  {
    if |ps| == 0 {
      assert [p] + ps == [p];
      assert [p][..0] == [];
    } else {
      var n := |ps| - 1;
      assert ([p] + ps)[..n + 1] == [p] + ps[..n];
      FlattenCons(p, ps[..n]);
    }
  }

  /** The rows are placed one after another: the first row's children at
      `y`, then the rest from below it. */
  lemma {:induction false} PlaceRowsCons(rows: seq<Row>, y: real, yGap: real, justify: JustifyContent, available: real, mode: AlignItems)
    requires AllPlaceable(mode, rows) && |rows| >= 1
    ensures AllPlaceable(mode, rows[1..])
    ensures PlaceRows(rows, y, yGap, justify, available, mode)
      == RowRects(rows[0], y, justify, available, mode)
         + PlaceRows(rows[1..], y + rows[0].height + yGap, yGap, justify, available, mode)
  {
    AllPlaceableTail(mode, rows);
    FlattenCons(RowRects(rows[0], y, justify, available, mode),
                RowsRects(rows[1..], y + rows[0].height + yGap, yGap, justify, available, mode));
  }
}
