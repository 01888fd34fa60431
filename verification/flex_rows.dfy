/** Wrap-line formation of the flexbox (src/containers/flexbox.rs:53-93): the
    measured children are cut into rows, each carrying its running width and
    height exactly as the `(row, row_width, row_height)` triples do. */
module FlexRows {
  import opened Numeric
  import opened Sizes

  /** One wrap line: its children's sizes, its width and its height. After
      formation the width is the sum of the widths and the height the
      largest height (starting from 0); the shrink and stretch passes later
      change the three fields independently, as the source does. */
  datatype Row = Row(items: seq<WidgetSize>, width: real, height: real)

  const EmptyRow: Row := Row([], 0.0, 0.0)

  /** A row opened by one child and holding only it: `(width, height, vec![size])`. */
  function Single(c: WidgetSize): Row
  {
    Row([c], c.width, c.height)
  }

  /** Sum of the widths, accumulated from the left as `row_width += width`. */
  function SumWidths(s: seq<WidgetSize>): real
  {
    if |s| == 0 then 0.0 else SumWidths(s[..|s| - 1]) + s[|s| - 1].width
  }

  /** Largest height, folded from 0 with `max` as `row_height` is. */
  function MaxHeight(s: seq<WidgetSize>): real
  {
    if |s| == 0 then 0.0 else Max(MaxHeight(s[..|s| - 1]), s[|s| - 1].height)
  }

  /** A row's width and height are the ones formation gives it. */
  predicate Measured(r: Row)
  {
    r.width == SumWidths(r.items) && r.height == MaxHeight(r.items)
  }

  /** All children of the rows, row after row. */
  function Items(rows: seq<Row>): seq<WidgetSize>
  {
    if |rows| == 0 then [] else Items(rows[..|rows| - 1]) + rows[|rows| - 1].items
  }

  /** Appends one child to a row: `row_width += width; row_height =
      max(row_height, height); row.push(size)`. */
  function Push(r: Row, c: WidgetSize): (out: Row)
    ensures Measured(r) ==> Measured(out)
    ensures out.items == r.items + [c]
  {
    var out := Row(r.items + [c], r.width + c.width, Max(r.height, c.height));
    assert out.items[..|out.items| - 1] == r.items;
    out
  }

  /** Pushes every child of `cs` onto `r`, in order. */
  function Fill(r: Row, cs: seq<WidgetSize>): (out: Row)
    requires Measured(r)
    ensures Measured(out)
    ensures out.items == r.items + cs
    decreases |cs|
  {
    if |cs| == 0 then r
    else
      var out := Fill(Push(r, cs[0]), cs[1..]);
      assert r.items + [cs[0]] + cs[1..] == r.items + cs;
      out
  }

  /** `FlexWrap::NoWrap`: every child in one row. */
  function NoWrapRows(cs: seq<WidgetSize>): (rows: seq<Row>)
    ensures |rows| == 1
    ensures rows[0].items == cs
    ensures Measured(rows[0])
  {
    [Fill(EmptyRow, cs)]
  }

  /** Every child of `r` kept its place: the row, up to and including it, is
      at most `maxWidth` wide. On rows after the first, the first child is
      exempt: it is the one that did not fit on the previous row. */
  predicate RowFits(r: Row, first: bool, maxWidth: real)
  {
    forall k :: 0 <= k < |r.items| && (first || k > 0) ==>
      SumWidths(r.items[..k]) + r.items[k].width <= maxWidth
  }

  /** `r` was opened by a child that made `prev` strictly wider than `maxWidth`. */
  predicate Breaks(prev: Row, r: Row, maxWidth: real)
  {
    |r.items| > 0 && prev.width + r.items[0].width > maxWidth
  }

  /** The greedy line-breaking rule of `FlexWrap::Wrap`, stated on a finished
      sequence of rows: every row is measured, every child fits on its row
      (`RowFits`), and every row after the first is non-empty and starts with
      the child that overflowed the previous row (`Breaks`). */
  predicate WrapShaped(rows: seq<Row>, maxWidth: real)
  {
    && (forall i :: 0 <= i < |rows| ==> Measured(rows[i]))
    && (forall i :: 0 <= i < |rows| ==> RowFits(rows[i], i == 0, maxWidth))
    && (forall i :: 0 < i < |rows| ==> Breaks(rows[i - 1], rows[i], maxWidth))
  }

  /** The loop of src/containers/flexbox.rs:71-88: `done` holds the closed
      rows, `cur` the open one. A child that would make the open row
      strictly wider than `maxWidth` closes it, even when the open row is
      still empty. */
  function WrapFrom(done: seq<Row>, cur: Row, cs: seq<WidgetSize>, maxWidth: real): (rows: seq<Row>)
    decreases |cs|
  {
    if |cs| == 0 then done + [cur]
    else if cur.width + cs[0].width > maxWidth then
      WrapFrom(done + [cur], Push(EmptyRow, cs[0]), cs[1..], maxWidth)
    else
      WrapFrom(done, Push(cur, cs[0]), cs[1..], maxWidth)
  }

  /** `FlexWrap::Wrap`. */
  function WrapRows(cs: seq<WidgetSize>, maxWidth: real): (rows: seq<Row>)
  {
    WrapFrom([], EmptyRow, cs, maxWidth)
  }

  lemma {:induction false} ItemsAppend(a: seq<Row>, b: seq<Row>)
    ensures Items(a + b) == Items(a) + Items(b)
    decreases |b|
  {
    if |b| == 0 {
      assert a + b == a;
    } else {
      var front, last := b[..|b| - 1], b[|b| - 1];
      assert (a + b)[..|a + b| - 1] == a + front;
      assert (a + b)[|a + b| - 1] == last;
      ItemsAppend(a, front);
      assert Items(b) == Items(front) + last.items;
      assert Items(a) + Items(front) + last.items == Items(a) + (Items(front) + last.items);
    }
  }

  lemma {:induction false} ItemsSingle(r: Row)
    ensures Items([r]) == r.items
  {
    assert [r][..0] == [];
  }

  lemma {:induction false} SumWidthsPrefix(s: seq<WidgetSize>, k: nat)
    requires k < |s|
    ensures SumWidths(s[..k + 1]) == SumWidths(s[..k]) + s[k].width
  {
    assert s[..k + 1][..k] == s[..k];
  }

  /** A child that fits keeps the row fitting. */
  lemma {:induction false} PushFits(r: Row, c: WidgetSize, first: bool, maxWidth: real)
    requires r.width == SumWidths(r.items) && RowFits(r, first, maxWidth)
    requires r.width + c.width <= maxWidth
    ensures RowFits(Push(r, c), first, maxWidth)
  {
    var grown := Push(r, c);
    forall k | 0 <= k < |grown.items| && (first || k > 0)
      ensures SumWidths(grown.items[..k]) + grown.items[k].width <= maxWidth
    {
      if k < |r.items| {
        assert grown.items[..k] == r.items[..k];
        assert grown.items[k] == r.items[k];
      } else {
        assert grown.items[..k] == r.items;
      }
    }
  }

  /** A freshly opened row holding one child fits when it is not the first row. */
  lemma {:induction false} SingleFits(c: WidgetSize, maxWidth: real)
    ensures RowFits(Push(EmptyRow, c), false, maxWidth)
  {
  }

  /** Closing the open row and opening a new one keeps the line-breaking rule. */
  lemma {:induction false} WrapCloseShaped(rows: seq<Row>, c: WidgetSize, maxWidth: real)
    requires |rows| > 0 && WrapShaped(rows, maxWidth)
    requires rows[|rows| - 1].width + c.width > maxWidth
    ensures WrapShaped(rows + [Push(EmptyRow, c)], maxWidth)
  {
    var next := Push(EmptyRow, c);
    var rows' := rows + [next];
    SingleFits(c, maxWidth);
    forall i | 0 <= i < |rows'|
      ensures Measured(rows'[i]) && RowFits(rows'[i], i == 0, maxWidth)
    {
      if i < |rows| {
        assert rows'[i] == rows[i];
      }
    }
    forall i | 0 < i < |rows'|
      ensures Breaks(rows'[i - 1], rows'[i], maxWidth)
    {
      assert rows'[i - 1] == rows[i - 1];
      if i < |rows| {
        assert rows'[i] == rows[i];
      }
    }
  }

  /** Growing the open row with a child that fits keeps the line-breaking rule. */
  lemma {:induction false} WrapGrowShaped(done: seq<Row>, cur: Row, c: WidgetSize, maxWidth: real)
    requires WrapShaped(done + [cur], maxWidth)
    requires cur.width + c.width <= maxWidth
    ensures WrapShaped(done + [Push(cur, c)], maxWidth)
  {
    var rows := done + [cur];
    var grown := Push(cur, c);
    var rows' := done + [grown];
    assert rows[|done|] == cur;
    assert forall i :: 0 <= i < |done| ==> rows'[i] == rows[i] == done[i];
    assert rows'[|done|] == grown;
    PushFits(cur, c, |done| == 0, maxWidth);
    if |done| > 0 {
      assert Breaks(rows[|done| - 1], cur, maxWidth);
      assert grown.items[0] == cur.items[0];
      assert Breaks(rows'[|done| - 1], grown, maxWidth);
    }
  }

  /** The rows `WrapFrom` returns extend the closed ones. */
  lemma {:induction false} WrapFromExtends(done: seq<Row>, cur: Row, cs: seq<WidgetSize>, maxWidth: real)
    ensures |WrapFrom(done, cur, cs, maxWidth)| > |done|
    ensures WrapFrom(done, cur, cs, maxWidth)[..|done|] == done
    decreases |cs|
  {
    if |cs| == 0 {
    } else if cur.width + cs[0].width > maxWidth {
      var rows := WrapFrom(done, cur, cs, maxWidth);
      WrapFromExtends(done + [cur], Push(EmptyRow, cs[0]), cs[1..], maxWidth);
      assert rows[..|done| + 1] == done + [cur];
      assert rows[..|done|] == (done + [cur])[..|done|];
    } else {
      WrapFromExtends(done, Push(cur, cs[0]), cs[1..], maxWidth);
    }
  }

  /** Closing `cur` and opening a row with `c` keeps the children in order. */
  lemma {:induction false} ItemsClose(done: seq<Row>, cur: Row, c: WidgetSize, rest: seq<WidgetSize>)
    ensures Items(done + [cur]) + Push(EmptyRow, c).items + rest == Items(done) + cur.items + ([c] + rest)
  {
    ItemsAppend(done, [cur]);
    ItemsSingle(cur);
  }

  /** The rows `WrapFrom` returns hold every child, in order. */
  lemma {:induction false} WrapFromItems(done: seq<Row>, cur: Row, cs: seq<WidgetSize>, maxWidth: real)
    ensures Items(WrapFrom(done, cur, cs, maxWidth)) == Items(done) + cur.items + cs
    decreases |cs|
  {
    if |cs| == 0 {
      ItemsAppend(done, [cur]);
      ItemsSingle(cur);
    } else {
      var c, rest := cs[0], cs[1..];
      assert cs == [c] + rest;
      if cur.width + c.width > maxWidth {
        WrapFromItems(done + [cur], Push(EmptyRow, c), rest, maxWidth);
        ItemsClose(done, cur, c, rest);
      } else {
        WrapFromItems(done, Push(cur, c), rest, maxWidth);
        assert Push(cur, c).items + rest == cur.items + ([c] + rest);
      }
    }
  }

  /** A non-empty open row stays non-empty. */
  lemma {:induction false} WrapFromKeepsOpen(done: seq<Row>, cur: Row, cs: seq<WidgetSize>, maxWidth: real)
    requires cur.items != []
    ensures |WrapFrom(done, cur, cs, maxWidth)| > |done|
    ensures WrapFrom(done, cur, cs, maxWidth)[|done|].items != []
    decreases |cs|
  {
    if |cs| == 0 {
    } else if cur.width + cs[0].width > maxWidth {
      WrapFromExtends(done + [cur], Push(EmptyRow, cs[0]), cs[1..], maxWidth);
      var rows := WrapFrom(done, cur, cs, maxWidth);
      assert rows[..|done| + 1] == done + [cur];
      assert rows[|done|] == rows[..|done| + 1][|done|];
    } else {
      WrapFromKeepsOpen(done, Push(cur, cs[0]), cs[1..], maxWidth);
    }
  }

  /** `WrapFrom` keeps the line-breaking rule. */
  lemma {:induction false} WrapFromShaped(done: seq<Row>, cur: Row, cs: seq<WidgetSize>, maxWidth: real)
    requires WrapShaped(done + [cur], maxWidth)
    ensures WrapShaped(WrapFrom(done, cur, cs, maxWidth), maxWidth)
    decreases |cs|
  {
    if |cs| == 0 {
    } else if cur.width + cs[0].width > maxWidth {
      WrapCloseShaped(done + [cur], cs[0], maxWidth);
      WrapFromShaped(done + [cur], Push(EmptyRow, cs[0]), cs[1..], maxWidth);
    } else {
      WrapGrowShaped(done, cur, cs[0], maxWidth);
      WrapFromShaped(done, Push(cur, cs[0]), cs[1..], maxWidth);
    }
  }

  /** Wrap formation: the rows hold the children in their original order,
      obey the line-breaking rule, and only the first row can be empty — it
      is, exactly when the first child alone is wider than `maxWidth` (or
      there are no children). */
  lemma {:induction false} WrapRowsCorrect(cs: seq<WidgetSize>, maxWidth: real)
    ensures var rows := WrapRows(cs, maxWidth);
      && |rows| >= 1
      && Items(rows) == cs
      && WrapShaped(rows, maxWidth)
      && (|rows[0].items| == 0 <==> (|cs| == 0 || cs[0].width > maxWidth))
  {
    var rows := WrapRows(cs, maxWidth);
    assert [] + [EmptyRow] == [EmptyRow];
    assert WrapShaped([EmptyRow], maxWidth);
    WrapFromShaped([], EmptyRow, cs, maxWidth);
    WrapFromItems([], EmptyRow, cs, maxWidth);
    assert Items([]) == [];
    if |cs| > 0 && cs[0].width > maxWidth {
      assert rows == WrapFrom([EmptyRow], Push(EmptyRow, cs[0]), cs[1..], maxWidth);
      WrapFromExtends([EmptyRow], Push(EmptyRow, cs[0]), cs[1..], maxWidth);
      assert rows[..1] == [EmptyRow];
      assert rows[0] == rows[..1][0];
    } else if |cs| > 0 {
      WrapFromKeepsOpen([], Push(EmptyRow, cs[0]), cs[1..], maxWidth);
    }
  }
}
