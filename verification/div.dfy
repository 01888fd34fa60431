/** `Div::allocate_area` and `Div::render` (src/containers/div.rs:52-128): a
    block/inline line flow in the manner of an HTML div. Each child is
    measured against the container, then either joins the last line (an
    inline child after an inline child that still fits) or opens a new line
    after being fitted into the envelope. Lines are stacked from the top,
    children run from the left edge of their line, and the div takes the
    size of its widest line and of all its lines together, kept inside the
    envelope. */
module Div {
  import opened Numeric
  import opened Faults
  import opened Sizes
  import opened Geometry
  import opened FlexRows
  import opened FlexVertical
  import opened FlexPlace
  import Flexbox

  /** A child and its `is_inline` flag, as `push_inline` / `push_block`
      store them. */
  datatype Entry = Entry(child: Flexbox.Child, inline: bool)

  /** A measured child and its flag. */
  datatype Piece = Piece(size: WidgetSize, inline: bool)

  /** `WidgetSize::fit_width_in` and `fit_height_in`, which the div calls
      with the envelope but which the repository does not define: they are
      parameters of the model, each taking the child's size and the
      envelope. */
  datatype Fitters = Fitters(
    width: (WidgetSize, WidgetSize) -> WidgetSize,
    height: (WidgetSize, WidgetSize) -> WidgetSize)

  /** A child's size after `fit_width_in` and then `fit_height_in`. */
  function Fitted(c: WidgetSize, env: WidgetSize, fit: Fitters): WidgetSize
  {
    fit.height(fit.width(c, env), env)
  }

  /** Every child measured against the container size, in order, with its flag. */
  function Measure(entries: seq<Entry>, containerSize: (Usize, Usize)): (ps: seq<Piece>)
    ensures |ps| == |entries|
    ensures forall i :: 0 <= i < |entries| ==>
      ps[i].size == entries[i].child(containerSize) && ps[i].inline == entries[i].inline
  {
    seq(|entries|, i requires 0 <= i < |entries| => Piece(entries[i].child(containerSize), entries[i].inline))
  }

  // ---------------------------------------------------------------------
  // Lines

  /** The width of the last line, or 0 when there is none yet. */
  function LastWidth(rows: seq<Row>): real
  {
    if |rows| == 0 then 0.0 else rows[|rows| - 1].width
  }

  /** The joining rule: an inline child right after an inline child joins
      the last line when that line stays at most `maxWidth` wide. */
  predicate Joins(rows: seq<Row>, p: Piece, prevInline: bool, maxWidth: real)
  {
    p.inline && prevInline && LastWidth(rows) + p.size.width <= maxWidth
  }

  /** One turn of the loop: the child joins the last line (or, when there is
      no line yet, opens one as it is), or is fitted and opens a new line. */
  function Step(rows: seq<Row>, p: Piece, prevInline: bool, env: WidgetSize, fit: Fitters): (out: seq<Row>)
    ensures |out| > 0
    ensures |out| == |rows| <==> (Joins(rows, p, prevInline, env.maxWidth) && |rows| > 0)
    ensures |out| == |rows| || |out| == |rows| + 1
    ensures |rows| > 0 ==> out[..|rows| - 1] == rows[..|rows| - 1]
    ensures Items(out) == Items(rows) + [if Joins(rows, p, prevInline, env.maxWidth) then p.size else Fitted(p.size, env, fit)]
  {
    if Joins(rows, p, prevInline, env.maxWidth) then
      if |rows| == 0 then
        ItemsSingle(Single(p.size));
        [Single(p.size)]
      else
        var n := |rows| - 1;
        var out := rows[..n] + [Push(rows[n], p.size)];
        assert out[..n] == rows[..n];
        assert Items(rows) == Items(rows[..n]) + rows[n].items;
        out
    else
      var out := rows + [Single(Fitted(p.size, env, fit))];
      assert out[..|rows|] == rows;
      out
  }

  /** The loop over the children from the current lines and the flag of the
      previous child. */
  function Flow(rows: seq<Row>, prevInline: bool, ps: seq<Piece>, env: WidgetSize, fit: Fitters): seq<Row>
    decreases |ps|
  {
    if |ps| == 0 then rows
    else Flow(Step(rows, ps[0], prevInline, env, fit), ps[0].inline, ps[1..], env, fit)
  }

  /** The lines of a div: no line yet, and the flag of the child before the
      first taken to be inline. */
  function Lines(ps: seq<Piece>, env: WidgetSize, fit: Fitters): seq<Row>
  {
    Flow([], true, ps, env, fit)
  }

  /** The tallest height of a non-empty line, folded with `max` from its
      first child. */
  function Tallest(items: seq<WidgetSize>): (t: real)
    requires |items| > 0
    ensures forall k :: 0 <= k < |items| ==> items[k].height <= t
    ensures exists k :: 0 <= k < |items| && items[k].height == t
    decreases |items|
  {
    if |items| == 1 then items[0].height
    else
      var n := |items| - 1;
      var t := Tallest(items[..n]);
      assert forall k :: 0 <= k < n ==> items[..n][k] == items[k];
      Max(t, items[n].height)
  }

  /** A line as the loop builds it: non-empty, as wide as its children side
      by side, as tall as its tallest child. */
  predicate Formed(r: Row)
  {
    |r.items| > 0 && r.width == SumWidths(r.items) && r.height == Tallest(r.items)
  }

  /** Every line is formed, and every child after the first of its line was
      let in because the line stayed at most `maxWidth` wide. */
  predicate Shaped(rows: seq<Row>, maxWidth: real)
  {
    forall i :: 0 <= i < |rows| ==> Formed(rows[i]) && RowFits(rows[i], false, maxWidth)
  }

  /** The flag the loop carries after `ps`: the last piece's `inline`, or
      `prevInline` when there is none. */
  function LastInline(prevInline: bool, ps: seq<Piece>): bool
  {
    if |ps| == 0 then prevInline else ps[|ps| - 1].inline
  }

  // ---------------------------------------------------------------------
  // What the loop builds

  lemma {:induction false} SingleFormed(c: WidgetSize, maxWidth: real)
    ensures Formed(Single(c)) && RowFits(Single(c), false, maxWidth)
  {
    assert [c][..0] == [];
  }

  lemma {:induction false} PushFormed(r: Row, c: WidgetSize)
    requires Formed(r)
    ensures Formed(Push(r, c))
  {
    var items := r.items + [c];
    assert items[..|items| - 1] == r.items;
  }

  /** One turn of the loop keeps every line formed and fitting. */
  lemma {:induction false} StepShaped(rows: seq<Row>, p: Piece, prevInline: bool, env: WidgetSize, fit: Fitters)
    requires Shaped(rows, env.maxWidth)
    ensures Shaped(Step(rows, p, prevInline, env, fit), env.maxWidth)
  {
    var out := Step(rows, p, prevInline, env, fit);
    if Joins(rows, p, prevInline, env.maxWidth) && |rows| > 0 {
      var n := |rows| - 1;
      PushFormed(rows[n], p.size);
      PushFits(rows[n], p.size, false, env.maxWidth);
      forall i | 0 <= i < |out|
        ensures Formed(out[i]) && RowFits(out[i], false, env.maxWidth)
      {
        if i < n {
          assert out[i] == rows[i];
        }
      }
    } else {
      var c := if Joins(rows, p, prevInline, env.maxWidth) then p.size else Fitted(p.size, env, fit);
      SingleFormed(c, env.maxWidth);
      assert out == rows + [Single(c)];
      forall i | 0 <= i < |out|
        ensures Formed(out[i]) && RowFits(out[i], false, env.maxWidth)
      {
        if i < |rows| {
          assert out[i] == rows[i];
        }
      }
    }
  }

  lemma {:induction false} FlowShaped(rows: seq<Row>, prevInline: bool, ps: seq<Piece>, env: WidgetSize, fit: Fitters)
    requires Shaped(rows, env.maxWidth)
    ensures Shaped(Flow(rows, prevInline, ps, env, fit), env.maxWidth)
    decreases |ps|
  {
    if |ps| > 0 {
      StepShaped(rows, ps[0], prevInline, env, fit);
      FlowShaped(Step(rows, ps[0], prevInline, env, fit), ps[0].inline, ps[1..], env, fit);
    }
  }

  /** Every line of a div is non-empty, as wide as its children and as tall
      as the tallest of them; a line holds more than one child only while it
      stays within the envelope's maximum width. */
  lemma {:induction false} LinesShaped(ps: seq<Piece>, env: WidgetSize, fit: Fitters)
    ensures Shaped(Lines(ps, env, fit), env.maxWidth)
  {
    FlowShaped([], true, ps, env, fit);
  }

  /** How child `p` appears in the lines: as measured or as fitted, and
      always fitted when it is a block child. */
  predicate Laid(x: WidgetSize, p: Piece, env: WidgetSize, fit: Fitters)
  {
    && (x == p.size || x == Fitted(p.size, env, fit))
    && (!p.inline ==> x == Fitted(p.size, env, fit))
  }

  /** Child `i` of `ps` is laid as `xs[i]`, for every `i`. */
  predicate AllLaid(xs: seq<WidgetSize>, ps: seq<Piece>, env: WidgetSize, fit: Fitters)
  {
    |xs| == |ps| && forall i :: 0 <= i < |xs| ==> Laid(xs[i], ps[i], env, fit)
  }

  /** A sequence is what comes before position `j`, its element at `j`,
      and what comes after. */
  lemma SplitAt<T>(s: seq<T>, j: nat)
    requires j < |s|
    ensures s == s[..j] + ([s[j]] + s[j + 1..])
  {
    assert s[j..] == [s[j]] + s[j + 1..];
    assert s == s[..j] + s[j..];
  }

  /** A sequence that starts with `a + [x]` starts with `a`, and after `a`
      comes `x`. */
  lemma PrefixSnoc<T>(s: seq<T>, a: seq<T>, x: T)
    requires |s| >= |a| + 1 && s[..|a| + 1] == a + [x]
    ensures s[..|a|] == a && s[|a|..] == [x] + s[|a| + 1..]
  {
    assert s[..|a|] == s[..|a| + 1][..|a|];
    assert s[|a|] == s[..|a| + 1][|a|];
  }

  lemma {:induction false} AllLaidCons(x: WidgetSize, xs: seq<WidgetSize>, p: Piece, ps: seq<Piece>, env: WidgetSize, fit: Fitters)
    requires Laid(x, p, env, fit) && AllLaid(xs, ps, env, fit)
    ensures AllLaid([x] + xs, [p] + ps, env, fit)
  {
    forall i | 1 <= i < |xs| + 1
      ensures Laid(([x] + xs)[i], ([p] + ps)[i], env, fit)
    {
      assert ([x] + xs)[i] == xs[i - 1] && ([p] + ps)[i] == ps[i - 1];
    }
  }

  /** The loop keeps every line before it and every child, in order: each
      child appears once after them, laid as `Laid` says. */
  lemma {:induction false} FlowItems(rows: seq<Row>, prevInline: bool, ps: seq<Piece>, env: WidgetSize, fit: Fitters)
    ensures var out := Items(Flow(rows, prevInline, ps, env, fit));
      var m := |Items(rows)|;
      |out| >= m && out[..m] == Items(rows) && AllLaid(out[m..], ps, env, fit)
    decreases |ps|
  {
    var m := |Items(rows)|;
    if |ps| == 0 {
      assert Items(rows)[m..] == [];
    } else {
      var rows' := Step(rows, ps[0], prevInline, env, fit);
      var x := Items(rows')[m];
      assert Items(rows') == Items(rows) + [x] && Laid(x, ps[0], env, fit);
      FlowItems(rows', ps[0].inline, ps[1..], env, fit);
      var out := Items(Flow(rows', ps[0].inline, ps[1..], env, fit));
      PrefixSnoc(out, Items(rows), x);
      AllLaidCons(x, out[m + 1..], ps[0], ps[1..], env, fit);
      assert [ps[0]] + ps[1..] == ps;
    }
  }

  /** A line once left behind is never touched again. */
  lemma {:induction false} FlowKeeps(rows: seq<Row>, prevInline: bool, ps: seq<Piece>, env: WidgetSize, fit: Fitters)
    requires |rows| > 0
    ensures var out := Flow(rows, prevInline, ps, env, fit);
      |out| >= |rows| && out[..|rows| - 1] == rows[..|rows| - 1]
    decreases |ps|
  {
    if |ps| > 0 {
      var rows' := Step(rows, ps[0], prevInline, env, fit);
      FlowKeeps(rows', ps[0].inline, ps[1..], env, fit);
      var out := Flow(rows', ps[0].inline, ps[1..], env, fit);
      assert out[..|rows| - 1] == out[..|rows'| - 1][..|rows| - 1];
      assert rows'[..|rows| - 1] == rows'[..|rows'| - 1][..|rows| - 1];
    }
  }

  /** Running the loop over `a + b` is running it over `a` and then over `b`. */
  lemma {:induction false} FlowSplit(rows: seq<Row>, prevInline: bool, a: seq<Piece>, b: seq<Piece>, env: WidgetSize, fit: Fitters)
    ensures Flow(rows, prevInline, a + b, env, fit)
      == Flow(Flow(rows, prevInline, a, env, fit), LastInline(prevInline, a), b, env, fit)
    decreases |a|
  {
    if |a| == 0 {
      assert a + b == b;
    } else {
      assert (a + b)[0] == a[0] && (a + b)[1..] == a[1..] + b;
      FlowSplit(Step(rows, a[0], prevInline, env, fit), a[0].inline, a[1..], b, env, fit);
      if |a| > 1 {
        assert a[1..][|a[1..]| - 1] == a[|a| - 1];
      }
    }
  }

  /** A block child opens a line of its own and the child after it opens
      the next one, so the block child ends up alone on its line. */
  lemma {:induction false} BlockAlone(rows: seq<Row>, prevInline: bool, p: Piece, rest: seq<Piece>, env: WidgetSize, fit: Fitters)
    requires !p.inline
    ensures var out := Flow(rows, prevInline, [p] + rest, env, fit);
      |out| > |rows| && out[|rows|] == Single(Fitted(p.size, env, fit))
  {
    var line := Single(Fitted(p.size, env, fit));
    var rows1 := Step(rows, p, prevInline, env, fit);
    assert rows1 == rows + [line];
    assert ([p] + rest)[0] == p && ([p] + rest)[1..] == rest;
    if |rest| == 0 {
      assert Flow(rows1, false, rest, env, fit) == rows1;
    } else {
      var rows2 := Step(rows1, rest[0], false, env, fit);
      assert |rows2| == |rows1| + 1;
      assert rows2[..|rows|] == rows1[..|rows|];
      FlowKeeps(rows2, rest[0].inline, rest[1..], env, fit);
      var out := Flow(rows2, rest[0].inline, rest[1..], env, fit);
      assert out[|rows|] == out[..|rows2| - 1][|rows|];
    }
  }

  /** In the lines of a div, every block child sits alone on a line, fitted. */
  lemma {:induction false} BlockOnOwnLine(ps: seq<Piece>, env: WidgetSize, fit: Fitters, j: nat)
    requires j < |ps| && !ps[j].inline
    ensures exists i :: 0 <= i < |Lines(ps, env, fit)| && Lines(ps, env, fit)[i] == Single(Fitted(ps[j].size, env, fit))
  {
    var before := Flow([], true, ps[..j], env, fit);
    var rest := [ps[j]] + ps[j + 1..];
    var out := Flow(before, LastInline(true, ps[..j]), rest, env, fit);
    assert Lines(ps, env, fit) == out by {
      SplitAt(ps, j);
      FlowSplit([], true, ps[..j], rest, env, fit);
    }
    BlockAlone(before, LastInline(true, ps[..j]), ps[j], ps[j + 1..], env, fit);
    assert out[|before|] == Single(Fitted(ps[j].size, env, fit));
  }

  // ---------------------------------------------------------------------
  // Subareas

  /** The children of one line from `x` rightwards: `Rect::sized(x, y,
      widget.width, widget.height)`, then `x += widget.width`. */
  function PlaceLine(items: seq<WidgetSize>, x: real, y: real): (rects: seq<Rect>)
    ensures |rects| == |items|
    decreases |items|
  {
    if |items| == 0 then []
    else [Sized(x, y, items[0].width, items[0].height)] + PlaceLine(items[1..], x + items[0].width, y)
  }

  /** The lines from `y` downwards, each starting at the left edge:
      `x = 0.0` per line, then `y += row_height`. */
  function PlaceLines(rows: seq<Row>, y: real): seq<Rect>
    decreases |rows|
  {
    if |rows| == 0 then []
    else PlaceLine(rows[0].items, 0.0, y) + PlaceLines(rows[1..], y + rows[0].height)
  }

  /** One subarea per child of the lines. */
  lemma {:induction false} LinesCount(rows: seq<Row>, y: real)
    ensures |PlaceLines(rows, y)| == |Items(rows)|
    decreases |rows|
  {
    if |rows| > 0 {
      var r, rest := rows[0], rows[1..];
      LinesCount(rest, y + r.height);
      assert PlaceLines(rows, y) == PlaceLine(r.items, 0.0, y) + PlaceLines(rest, y + r.height);
      assert Items(rows) == r.items + Items(rest) by {
        ItemsCons(r, rest);
        assert [r] + rest == rows;
      }
    }
  }

  /** Each child's subarea in a line has the child's extent. */
  lemma {:induction false} LineExtent(items: seq<WidgetSize>, x: real, y: real)
    ensures var rects := PlaceLine(items, x, y);
      forall k :: 0 <= k < |items| ==> Width(rects[k]) == items[k].width && Height(rects[k]) == items[k].height
    decreases |items|
  {
    if |items| > 0 {
      LineExtent(items[1..], x + items[0].width, y);
      assert forall k :: 1 <= k < |items| ==> items[k] == items[1..][k - 1];
    }
  }

  /** Each child's subarea has the child's extent: `Rect::sized` with the
      child's own width and height. */
  lemma {:induction false} LinesExtent(rows: seq<Row>, y: real)
    ensures var rects := PlaceLines(rows, y);
      && |rects| == |Items(rows)|
      && forall j :: 0 <= j < |rects| ==> Width(rects[j]) == Items(rows)[j].width && Height(rects[j]) == Items(rows)[j].height
    decreases |rows|
  {
    LinesCount(rows, y);
    if |rows| > 0 {
      var r, rest := rows[0], rows[1..];
      var head, tail := PlaceLine(r.items, 0.0, y), PlaceLines(rest, y + r.height);
      LineExtent(r.items, 0.0, y);
      LinesExtent(rest, y + r.height);
      assert PlaceLines(rows, y) == head + tail;
      assert Items(rows) == r.items + Items(rest) by {
        ItemsCons(r, rest);
        assert [r] + rest == rows;
      }
      forall j | 0 <= j < |Items(rows)|
        ensures Width((head + tail)[j]) == Items(rows)[j].width && Height((head + tail)[j]) == Items(rows)[j].height
      {
        if j >= |head| {
          assert (head + tail)[j] == tail[j - |head|];
          assert Items(rows)[j] == Items(rest)[j - |head|];
        }
      }
    }
  }

  /** Child `k` of a line sits right of the children before it. */
  lemma {:induction false} LineAt(items: seq<WidgetSize>, x: real, y: real, k: nat)
    requires k < |items|
    ensures PlaceLine(items, x, y)[k] == Sized(x + SumWidths(items[..k]), y, items[k].width, items[k].height)
    decreases k
  {
    if k == 0 {
      assert items[..0] == [];
    } else {
      LineAt(items[1..], x + items[0].width, y, k - 1);
      assert [items[0]] + items[1..][..k - 1] == items[..k];
      SumWidthsCons(items[0], items[1..][..k - 1]);
      assert items[1..][k - 1] == items[k];
    }
  }

  /** Lines placed one after the other: the second group starts below the
      first. */
  lemma {:induction false} LinesConcat(a: seq<Row>, b: seq<Row>, y: real)
    ensures PlaceLines(a + b, y) == PlaceLines(a, y) + PlaceLines(b, y + SumHeights(a))
    decreases |a|
  {
    if |a| == 0 {
      assert a + b == b;
    } else {
      var top := PlaceLine(a[0].items, 0.0, y);
      var y' := y + a[0].height;
      assert (a + b)[0] == a[0] && (a + b)[1..] == a[1..] + b;
      assert PlaceLines(a + b, y) == top + PlaceLines(a[1..] + b, y');
      LinesConcat(a[1..], b, y');
      var middle, bottom := PlaceLines(a[1..], y'), PlaceLines(b, y + SumHeights(a));
      assert PlaceLines(a, y) == top + middle;
      assert y' + SumHeights(a[1..]) == y + SumHeights(a) by {
        SumHeightsCons(a[0], a[1..]);
        assert [a[0]] + a[1..] == a;
      }
      assert top + (middle + bottom) == (top + middle) + bottom;
    }
  }

  /** Where child `k` of line `i` goes: `x` restarts at 0 on every line and
      advances by the widths before it, and `y` is the total height of the
      lines above. Nothing depends on the envelope's maximum height, so the
      lines run on below it when they are taller. */
  lemma {:induction false} SubareaAt(rows: seq<Row>, i: nat, k: nat)
    requires i < |rows| && k < |rows[i].items|
    ensures var j := |Items(rows[..i])| + k;
      && |PlaceLines(rows, 0.0)| == |Items(rows)|
      && j < |Items(rows)| && Items(rows)[j] == rows[i].items[k]
      && PlaceLines(rows, 0.0)[j]
        == Sized(SumWidths(rows[i].items[..k]), SumHeights(rows[..i]), rows[i].items[k].width, rows[i].items[k].height)
  {
    var above, row := rows[..i], rows[i];
    var top := 0.0 + SumHeights(above);
    LinesAround(rows, i);
    LinesCount(above, 0.0);
    LinesCount(rows, 0.0);
    LineAt(row.items, 0.0, top, k);
  }

  /** The children and the subareas of the lines, split around line `i`. */
  lemma {:induction false} LinesAround(rows: seq<Row>, i: nat)
    requires i < |rows|
    ensures Items(rows) == Items(rows[..i]) + (rows[i].items + Items(rows[i + 1..]))
    ensures PlaceLines(rows, 0.0)
      == PlaceLines(rows[..i], 0.0)
         + (PlaceLine(rows[i].items, 0.0, 0.0 + SumHeights(rows[..i]))
            + PlaceLines(rows[i + 1..], 0.0 + SumHeights(rows[..i]) + rows[i].height))
  {
    var above, below, row := rows[..i], rows[i..], rows[i];
    assert rows == above + below && below[0] == row && below[1..] == rows[i + 1..];
    assert Items(rows) == Items(above) + (row.items + Items(below[1..])) by {
      ItemsAppend(above, below);
      assert below == [row] + below[1..];
      ItemsCons(row, below[1..]);
    }
    LinesConcat(above, below, 0.0);
  }

  // ---------------------------------------------------------------------
  // The div

  /** `Div::allocate_area`: the envelope, the lines, the subareas, and the
      envelope resized to the content. `set_size` clamps, which panics when
      the envelope's bounds are inverted. */
  function AllocateArea(answer: Option<WidgetSize>, containerSize: (Usize, Usize), entries: seq<Entry>, fit: Fitters): (r: Result<Flexbox.Allocation>)
  {
    var env := Flexbox.Envelope(answer, containerSize);
    var rows := Lines(Measure(entries, containerSize), env, fit);
    if !(env.WidthBoundsOk() && env.HeightBoundsOk()) then Panic(InvertedBounds)
    else Done(Flexbox.Allocation(SetSize(env, Flexbox.Widest(rows), SumHeights(rows)), PlaceLines(rows, 0.0)))
  }

  /** The div panics exactly when the envelope's bounds are inverted, which
      the default envelope never is. */
  lemma {:induction false} AllocatePanics(answer: Option<WidgetSize>, containerSize: (Usize, Usize), entries: seq<Entry>, fit: Fitters)
    ensures var env := Flexbox.Envelope(answer, containerSize);
      AllocateArea(answer, containerSize, entries, fit).Panic? <==> !(env.WidthBoundsOk() && env.HeightBoundsOk())
    ensures answer.None? ==> AllocateArea(answer, containerSize, entries, fit).Done?
  {
  }

  /** One subarea per child, in order; each has the extent of the child as
      measured, or as fitted, and a block child's is the fitted one. */
  lemma {:induction false} AllocateCovers(answer: Option<WidgetSize>, containerSize: (Usize, Usize), entries: seq<Entry>, fit: Fitters)
    requires AllocateArea(answer, containerSize, entries, fit).Done?
    ensures var env := Flexbox.Envelope(answer, containerSize);
      var rects := AllocateArea(answer, containerSize, entries, fit).value.subareas;
      && |rects| == |entries|
      && forall i :: 0 <= i < |entries| ==>
        var c := entries[i].child(containerSize);
        var f := Fitted(c, env, fit);
        && ((Width(rects[i]) == c.width && Height(rects[i]) == c.height)
            || (Width(rects[i]) == f.width && Height(rects[i]) == f.height))
        && (!entries[i].inline ==> Width(rects[i]) == f.width && Height(rects[i]) == f.height)
  {
    var env := Flexbox.Envelope(answer, containerSize);
    var ps := Measure(entries, containerSize);
    var rows := Lines(ps, env, fit);
    FlowItems([], true, ps, env, fit);
    LinesExtent(rows, 0.0);
    assert Items([]) == [];
    assert Items(rows)[0..] == Items(rows);
  }

  /** The size handed back is the envelope with its width set to the widest
      line and its height to the lines' total height, each kept within the
      envelope's bounds; with no area allocator the div is as small as its
      content and at most as large as the container. */
  lemma {:induction false} AllocateSize(answer: Option<WidgetSize>, containerSize: (Usize, Usize), entries: seq<Entry>, fit: Fitters)
    requires AllocateArea(answer, containerSize, entries, fit).Done?
    ensures var env := Flexbox.Envelope(answer, containerSize);
      var rows := Lines(Measure(entries, containerSize), env, fit);
      var size := AllocateArea(answer, containerSize, entries, fit).value.size;
      && size == env.(width := size.width, height := size.height)
      && size.width == Clamp(Flexbox.Widest(rows), env.minWidth, env.maxWidth)
      && size.height == Clamp(SumHeights(rows), env.minHeight, env.maxHeight)
      && (answer.None? ==> size.width == Min(Flexbox.Widest(rows), containerSize.0 as real))
      && (answer.None? ==> size.height == Clamp(SumHeights(rows), 0.0, containerSize.1 as real))
  {
  }

  /** `Div::render`: the debug assertion on the counts holds after
      `allocate_area`. */
  lemma {:induction false} AllocateThenRender(answer: Option<WidgetSize>, containerSize: (Usize, Usize), entries: seq<Entry>, fit: Fitters)
    requires AllocateArea(answer, containerSize, entries, fit).Done?
    ensures var rects := AllocateArea(answer, containerSize, entries, fit).value.subareas;
      Flexbox.Render(|entries|, rects) == Done(rects)
  {
    AllocateCovers(answer, containerSize, entries, fit);
  }
}
