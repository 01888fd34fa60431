/** The div tests of src/containers/div.rs:170-377, as lemmas: two block
    buttons followed by three inline ones, each button asking for 50 x 20
    within 40..60 x 15..25. The fit functions are parameters of the model,
    so each lemma takes as hypothesis what fitting does to a button in that
    test's envelope. */
module DivExamples {
  import opened Numeric
  import opened Faults
  import opened Sizes
  import opened Geometry
  import opened FlexRows
  import opened FlexVertical
  import opened Div
  import Flexbox
  import FlexboxExamples

  /** `add_block` twice, then `add_inline` three times. */
  function Entries(): seq<Entry>
  {
    var b: Flexbox.Child := _ => FlexboxExamples.Button;
    [Entry(b, false), Entry(b, false), Entry(b, true), Entry(b, true), Entry(b, true)]
  }

  /** The same, measured: every button measures the same whatever it is offered. */
  function Pieces(c: WidgetSize): seq<Piece>
  {
    [Piece(c, false), Piece(c, false), Piece(c, true), Piece(c, true), Piece(c, true)]
  }

  /** The default envelope of a div in a `w` x `h` container. */
  function Env(w: real, h: real): WidgetSize
  {
    WidgetSize(0.0, 0.0, w, 0.0, 0.0, h)
  }

  lemma {:induction false} MeasureEntries(containerSize: (Usize, Usize))
    ensures Measure(Entries(), containerSize) == Pieces(FlexboxExamples.Button)
  {
  }

  // ---------------------------------------------------------------------
  // One turn of the loop at a time

  /** A child that does not join opens a line of its own, fitted. */
  lemma {:induction false} Opens(rows: seq<Row>, prevInline: bool, p: Piece, rest: seq<Piece>, env: WidgetSize, fit: Fitters)
    requires !Joins(rows, p, prevInline, env.maxWidth)
    ensures Flow(rows, prevInline, [p] + rest, env, fit) == Flow(rows + [Single(Fitted(p.size, env, fit))], p.inline, rest, env, fit)
  {
    assert ([p] + rest)[0] == p && ([p] + rest)[1..] == rest;
  }

  /** An inline child after an inline one that fits joins the last line. */
  lemma {:induction false} JoinsLast(rows: seq<Row>, p: Piece, rest: seq<Piece>, env: WidgetSize, fit: Fitters)
    requires |rows| > 0 && Joins(rows, p, true, env.maxWidth)
    ensures Flow(rows, true, [p] + rest, env, fit)
      == Flow(rows[..|rows| - 1] + [Push(rows[|rows| - 1], p.size)], true, rest, env, fit)
  {
    assert ([p] + rest)[0] == p && ([p] + rest)[1..] == rest;
  }

  /** The two block children, then the first inline one, each open a line,
      fitted from `b` into `c`. */
  lemma {:induction false} ThreeOpen(b: WidgetSize, c: WidgetSize, env: WidgetSize, fit: Fitters, rest: seq<Piece>)
    requires Fitted(b, env, fit) == c
    ensures Flow([], true, [Piece(b, false)] + ([Piece(b, false)] + ([Piece(b, true)] + rest)), env, fit)
      == Flow([Single(c), Single(c), Single(c)], true, rest, env, fit)
  {
    var pb, pi := Piece(b, false), Piece(b, true);
    Opens([], true, pb, [pb] + ([pi] + rest), env, fit);
    assert [] + [Single(c)] == [Single(c)];
    Opens([Single(c)], false, pb, [pi] + rest, env, fit);
    assert [Single(c)] + [Single(c)] == [Single(c), Single(c)];
    Opens([Single(c), Single(c)], false, pi, rest, env, fit);
    assert [Single(c), Single(c)] + [Single(c)] == [Single(c), Single(c), Single(c)];
  }

  /** When three children fit side by side, the next two inline ones join
      the third line. */
  lemma {:induction false} JoinTwice(c: WidgetSize, env: WidgetSize, fit: Fitters, rest: seq<Piece>)
    requires 0.0 <= c.width && c.width + c.width + c.width <= env.maxWidth
    ensures Flow([Single(c), Single(c), Single(c)], true, [Piece(c, true)] + ([Piece(c, true)] + rest), env, fit)
      == Flow([Single(c), Single(c), Push(Push(Single(c), c), c)], true, rest, env, fit)
  {
    var p := Piece(c, true);
    JoinsLast([Single(c), Single(c), Single(c)], p, [p] + rest, env, fit);
    assert [Single(c), Single(c), Single(c)][..2] + [Push(Single(c), c)] == [Single(c), Single(c), Push(Single(c), c)];
    assert LastWidth([Single(c), Single(c), Push(Single(c), c)]) == c.width + c.width;
    JoinsLast([Single(c), Single(c), Push(Single(c), c)], p, rest, env, fit);
    assert [Single(c), Single(c), Push(Single(c), c)][..2] + [Push(Push(Single(c), c), c)]
      == [Single(c), Single(c), Push(Push(Single(c), c), c)];
  }

  /** When two fit side by side but three do not, the fourth child joins
      the third line and the fifth opens a fourth. */
  lemma {:induction false} JoinThenWrap(c: WidgetSize, env: WidgetSize, fit: Fitters, rest: seq<Piece>)
    requires Fitted(c, env, fit) == c
    requires c.width + c.width <= env.maxWidth < c.width + c.width + c.width
    ensures Flow([Single(c), Single(c), Single(c)], true, [Piece(c, true)] + ([Piece(c, true)] + rest), env, fit)
      == Flow([Single(c), Single(c), Push(Single(c), c), Single(c)], true, rest, env, fit)
  {
    var p := Piece(c, true);
    JoinsLast([Single(c), Single(c), Single(c)], p, [p] + rest, env, fit);
    assert [Single(c), Single(c), Single(c)][..2] + [Push(Single(c), c)] == [Single(c), Single(c), Push(Single(c), c)];
    Opens([Single(c), Single(c), Push(Single(c), c)], true, p, rest, env, fit);
    assert [Single(c), Single(c), Push(Single(c), c)] + [Single(c)] == [Single(c), Single(c), Push(Single(c), c), Single(c)];
  }

  /** When a fitted child and the next do not fit side by side, the next
      two inline children each open a line. */
  lemma {:induction false} OpenTwice(b: WidgetSize, c: WidgetSize, env: WidgetSize, fit: Fitters, rest: seq<Piece>)
    requires Fitted(b, env, fit) == c && c.width + b.width > env.maxWidth
    ensures Flow([Single(c), Single(c), Single(c)], true, [Piece(b, true)] + ([Piece(b, true)] + rest), env, fit)
      == Flow([Single(c), Single(c), Single(c), Single(c), Single(c)], true, rest, env, fit)
  {
    var p := Piece(b, true);
    Opens([Single(c), Single(c), Single(c)], true, p, [p] + rest, env, fit);
    assert [Single(c), Single(c), Single(c)] + [Single(c)] == [Single(c), Single(c), Single(c), Single(c)];
    Opens([Single(c), Single(c), Single(c), Single(c)], true, p, rest, env, fit);
    assert [Single(c), Single(c), Single(c), Single(c)] + [Single(c)] == [Single(c), Single(c), Single(c), Single(c), Single(c)];
  }

  /** The five buttons, as the loop sees them. */
  lemma {:induction false} PiecesNested(b: WidgetSize)
    ensures Pieces(b) == [Piece(b, false)] + ([Piece(b, false)] + ([Piece(b, true)] + ([Piece(b, true)] + ([Piece(b, true)] + []))))
  {
  }

  lemma {:induction false} InlineShare(c: WidgetSize, env: WidgetSize, fit: Fitters)
    requires Fitted(c, env, fit) == c && 0.0 <= c.width && c.width + c.width + c.width <= env.maxWidth
    ensures Lines(Pieces(c), env, fit) == [Single(c), Single(c), Push(Push(Single(c), c), c)]
  {
    var pi := Piece(c, true);
    PiecesNested(c);
    ThreeOpen(c, c, env, fit, [pi] + ([pi] + []));
    JoinTwice(c, env, fit, []);
  }

  lemma {:induction false} InlineWrap(c: WidgetSize, env: WidgetSize, fit: Fitters)
    requires Fitted(c, env, fit) == c
    requires c.width + c.width <= env.maxWidth < c.width + c.width + c.width
    ensures Lines(Pieces(c), env, fit) == [Single(c), Single(c), Push(Single(c), c), Single(c)]
  {
    var pi := Piece(c, true);
    PiecesNested(c);
    ThreeOpen(c, c, env, fit, [pi] + ([pi] + []));
    JoinThenWrap(c, env, fit, []);
  }

  /** Measured buttons `b` that fitting turns into `c`, which fitting keeps,
      each get a line of their own when `c` and `b` do not fit side by side. */
  lemma {:induction false} AllAlone(b: WidgetSize, c: WidgetSize, env: WidgetSize, fit: Fitters)
    requires Fitted(b, env, fit) == c && c.width + b.width > env.maxWidth
    ensures Lines(Pieces(b), env, fit) == [Single(c), Single(c), Single(c), Single(c), Single(c)]
  {
    var pi := Piece(b, true);
    PiecesNested(b);
    ThreeOpen(b, c, env, fit, [pi] + ([pi] + []));
    OpenTwice(b, c, env, fit, []);
  }

  // ---------------------------------------------------------------------
  // Subareas and sizes of those lines

  /** The first line of a stack, then the rest below it. */
  lemma {:induction false} LineCons(r: Row, rest: seq<Row>, y: real)
    ensures PlaceLines([r] + rest, y) == PlaceLine(r.items, 0.0, y) + PlaceLines(rest, y + r.height)
  {
    assert ([r] + rest)[0] == r && ([r] + rest)[1..] == rest;
  }

  /** One to three copies of `c` side by side from `x`. */
  lemma {:induction false} LineOfOne(c: WidgetSize, x: real, y: real)
    ensures PlaceLine([c], x, y) == [Sized(x, y, c.width, c.height)]
  {
    assert [c][1..] == [];
  }

  lemma {:induction false} LineOfTwo(c: WidgetSize, x: real, y: real)
    ensures PlaceLine([c, c], x, y) == [Sized(x, y, c.width, c.height), Sized(x + c.width, y, c.width, c.height)]
  {
    assert [c, c][1..] == [c];
    LineOfOne(c, x + c.width, y);
  }

  lemma {:induction false} LineOfThree(c: WidgetSize, x: real, y: real)
    ensures PlaceLine([c, c, c], x, y)
      == [Sized(x, y, c.width, c.height), Sized(x + c.width, y, c.width, c.height), Sized(x + c.width + c.width, y, c.width, c.height)]
  {
    assert [c, c, c][1..] == [c, c];
    LineOfTwo(c, x + c.width, y);
  }

  /** Three, four and five lines stacked from `y`. */
  lemma {:induction false} StackOfThree(a: Row, b: Row, d: Row, y: real)
    ensures PlaceLines([a, b, d], y)
      == PlaceLine(a.items, 0.0, y) + (PlaceLine(b.items, 0.0, y + a.height) + PlaceLine(d.items, 0.0, y + a.height + b.height))
  {
    var (y1, y2) := (y + a.height, y + a.height + b.height);
    var (lb, ld) := (PlaceLine(b.items, 0.0, y1), PlaceLine(d.items, 0.0, y2));
    assert PlaceLines([d], y2) == ld by {
      LineCons(d, [], y2);
      assert [d] + [] == [d];
      assert PlaceLines([], y2 + d.height) == [];
      assert ld + [] == ld;
    }
    assert PlaceLines([b, d], y1) == lb + ld by {
      LineCons(b, [d], y1);
      assert [b] + [d] == [b, d];
    }
    LineCons(a, [b, d], y);
    assert [a] + [b, d] == [a, b, d];
  }

  lemma {:induction false} StackOfFour(a: Row, b: Row, d: Row, e: Row, y: real)
    ensures PlaceLines([a, b, d, e], y)
      == PlaceLine(a.items, 0.0, y) + (PlaceLine(b.items, 0.0, y + a.height) + (PlaceLine(d.items, 0.0, y + a.height + b.height)
         + PlaceLine(e.items, 0.0, y + a.height + b.height + d.height)))
  {
    StackOfThree(b, d, e, y + a.height);
    LineCons(a, [b, d, e], y);
    assert [a] + [b, d, e] == [a, b, d, e];
  }

  lemma {:induction false} StackOfFive(a: Row, b: Row, d: Row, e: Row, f: Row, y: real)
    ensures PlaceLines([a, b, d, e, f], y)
      == PlaceLine(a.items, 0.0, y) + (PlaceLine(b.items, 0.0, y + a.height) + (PlaceLine(d.items, 0.0, y + a.height + b.height)
         + (PlaceLine(e.items, 0.0, y + a.height + b.height + d.height)
         + PlaceLine(f.items, 0.0, y + a.height + b.height + d.height + e.height))))
  {
    StackOfFour(b, d, e, f, y + a.height);
    LineCons(a, [b, d, e, f], y);
    assert [a] + [b, d, e, f] == [a, b, d, e, f];
  }

  lemma {:induction false} ShareRects(c: WidgetSize)
    ensures var w, h := c.width, c.height;
      PlaceLines([Single(c), Single(c), Push(Push(Single(c), c), c)], 0.0)
        == [Sized(0.0, 0.0, w, h), Sized(0.0, 0.0 + h, w, h),
            Sized(0.0, 0.0 + h + h, w, h), Sized(0.0 + w, 0.0 + h + h, w, h), Sized(0.0 + w + w, 0.0 + h + h, w, h)]
  {
    var (s, three) := (Single(c), Push(Push(Single(c), c), c));
    var h := c.height;
    assert three.items == [c, c, c];
    StackOfThree(s, s, three, 0.0);
    LineOfOne(c, 0.0, 0.0);
    LineOfOne(c, 0.0, 0.0 + h);
    LineOfThree(c, 0.0, 0.0 + h + h);
  }

  lemma {:induction false} WrapRects(c: WidgetSize)
    ensures var w, h := c.width, c.height;
      PlaceLines([Single(c), Single(c), Push(Single(c), c), Single(c)], 0.0)
        == [Sized(0.0, 0.0, w, h), Sized(0.0, 0.0 + h, w, h),
            Sized(0.0, 0.0 + h + h, w, h), Sized(0.0 + w, 0.0 + h + h, w, h), Sized(0.0, 0.0 + h + h + Max(h, h), w, h)]
  {
    var (s, two) := (Single(c), Push(Single(c), c));
    var h := c.height;
    assert two.items == [c, c] && two.height == Max(h, h);
    StackOfFour(s, s, two, s, 0.0);
    LineOfOne(c, 0.0, 0.0);
    LineOfOne(c, 0.0, 0.0 + h);
    LineOfTwo(c, 0.0, 0.0 + h + h);
    LineOfOne(c, 0.0, 0.0 + h + h + Max(h, h));
  }

  /** Five boxes of `w` x `h`, one below the other from the top left. */
  function Column(w: real, h: real): seq<Rect>
  {
    [Sized(0.0, 0.0, w, h), Sized(0.0, 0.0 + h, w, h), Sized(0.0, 0.0 + h + h, w, h),
     Sized(0.0, 0.0 + h + h + h, w, h), Sized(0.0, 0.0 + h + h + h + h, w, h)]
  }

  lemma {:induction false} AloneRects(c: WidgetSize)
    ensures var w, h := c.width, c.height;
      PlaceLines([Single(c), Single(c), Single(c), Single(c), Single(c)], 0.0)
        == Column(w, h)
  {
    var s := Single(c);
    var h := c.height;
    StackOfFive(s, s, s, s, s, 0.0);
    LineOfOne(c, 0.0, 0.0);
    LineOfOne(c, 0.0, 0.0 + h);
    LineOfOne(c, 0.0, 0.0 + h + h);
    LineOfOne(c, 0.0, 0.0 + h + h + h);
    LineOfOne(c, 0.0, 0.0 + h + h + h + h);
  }

  /** The total height and the widest line of the three-line layout. */
  lemma {:induction false} ShareMeasures(c: WidgetSize)
    requires c.width >= 0.0
    ensures var (s, three) := (Single(c), Push(Push(Single(c), c), c));
      && SumHeights([s, s, three]) == c.height + c.height + Max(Max(c.height, c.height), c.height)
      && Flexbox.Widest([s, s, three]) == Max(Max(Max(0.0, c.width), c.width), c.width + c.width + c.width)
  {
    var (s, three) := (Single(c), Push(Push(Single(c), c), c));
    assert [s, s, three][..2] == [s, s] && [s, s][..1] == [s] && [s][..0] == [];
    assert SumHeights([s]) == c.height && Flexbox.Widest([s]) == Max(0.0, c.width);
    assert SumHeights([s, s]) == c.height + c.height && Flexbox.Widest([s, s]) == Max(Max(0.0, c.width), c.width);
  }

  /** The total height and the widest line of the four-line layout. */
  lemma {:induction false} WrapMeasures(c: WidgetSize)
    requires c.width >= 0.0
    ensures var (s, two) := (Single(c), Push(Single(c), c));
      && SumHeights([s, s, two, s]) == c.height + c.height + Max(c.height, c.height) + c.height
      && Flexbox.Widest([s, s, two, s]) == Max(Max(Max(Max(0.0, c.width), c.width), c.width + c.width), c.width)
  {
    var (s, two) := (Single(c), Push(Single(c), c));
    assert [s, s, two, s][..3] == [s, s, two] && [s, s, two][..2] == [s, s] && [s, s][..1] == [s] && [s][..0] == [];
    assert SumHeights([s]) == c.height && Flexbox.Widest([s]) == Max(0.0, c.width);
    assert SumHeights([s, s]) == c.height + c.height && Flexbox.Widest([s, s]) == Max(Max(0.0, c.width), c.width);
    assert SumHeights([s, s, two]) == c.height + c.height + Max(c.height, c.height);
  }

  /** The total height and the widest line of five lines of one child each. */
  lemma {:induction false} AloneMeasures(c: WidgetSize)
    requires c.width >= 0.0
    ensures var s := Single(c);
      && SumHeights([s, s, s, s, s]) == c.height + c.height + c.height + c.height + c.height
      && Flexbox.Widest([s, s, s, s, s]) == c.width
  {
    var s := Single(c);
    assert [s, s, s, s, s][..4] == [s, s, s, s] && [s, s, s, s][..3] == [s, s, s];
    assert [s, s, s][..2] == [s, s] && [s, s][..1] == [s] && [s][..0] == [];
    assert SumHeights([s]) == c.height && Flexbox.Widest([s]) == c.width;
    assert SumHeights([s, s]) == c.height + c.height && Flexbox.Widest([s, s]) == c.width;
    assert SumHeights([s, s, s]) == c.height + c.height + c.height && Flexbox.Widest([s, s, s]) == c.width;
    assert SumHeights([s, s, s, s]) == c.height + c.height + c.height + c.height && Flexbox.Widest([s, s, s, s]) == c.width;
  }

  // ---------------------------------------------------------------------
  // The tests

  const Button := FlexboxExamples.Button

  /** The allocation in terms of the lines the loop forms. */
  lemma {:induction false} AllocateFrom(answer: Option<WidgetSize>, containerSize: (Usize, Usize), fit: Fitters,
                                        rows: seq<Row>, rects: seq<Rect>, w: real, h: real)
    requires Lines(Measure(Entries(), containerSize), Flexbox.Envelope(answer, containerSize), fit) == rows
    requires PlaceLines(rows, 0.0) == rects && Flexbox.Widest(rows) == w && SumHeights(rows) == h
    requires var env := Flexbox.Envelope(answer, containerSize); env.WidthBoundsOk() && env.HeightBoundsOk()
    ensures AllocateArea(answer, containerSize, Entries(), fit)
      == Done(Flexbox.Allocation(SetSize(Flexbox.Envelope(answer, containerSize), w, h), rects))
  {
  }

  /** Buttons that fitting keeps, three of which fit side by side: the
      inline ones share the third line. */
  lemma {:induction false} SharedLayout(answer: Option<WidgetSize>, containerSize: (Usize, Usize), fit: Fitters)
    requires var env := Flexbox.Envelope(answer, containerSize);
      && env.WidthBoundsOk() && env.HeightBoundsOk()
      && Fitted(Button, env, fit) == Button && Button.width + Button.width + Button.width <= env.maxWidth
    ensures var w, h := Button.width, Button.height;
      AllocateArea(answer, containerSize, Entries(), fit)
        == Done(Flexbox.Allocation(
             SetSize(Flexbox.Envelope(answer, containerSize), Max(Max(Max(0.0, w), w), w + w + w), h + h + Max(Max(h, h), h)),
             [Sized(0.0, 0.0, w, h), Sized(0.0, 0.0 + h, w, h),
              Sized(0.0, 0.0 + h + h, w, h), Sized(0.0 + w, 0.0 + h + h, w, h), Sized(0.0 + w + w, 0.0 + h + h, w, h)]))
  {
    var c := Button;
    var rows := [Single(c), Single(c), Push(Push(Single(c), c), c)];
    MeasureEntries(containerSize);
    InlineShare(c, Flexbox.Envelope(answer, containerSize), fit);
    ShareRects(c);
    ShareMeasures(c);
    AllocateFrom(answer, containerSize, fit, rows, PlaceLines(rows, 0.0), Flexbox.Widest(rows), SumHeights(rows));
  }

  /** Buttons that fitting keeps, two but not three of which fit side by
      side: the fifth wraps onto a fourth line. */
  lemma {:induction false} WrappedLayout(answer: Option<WidgetSize>, containerSize: (Usize, Usize), fit: Fitters)
    requires var env := Flexbox.Envelope(answer, containerSize);
      && env.WidthBoundsOk() && env.HeightBoundsOk() && Fitted(Button, env, fit) == Button
      && Button.width + Button.width <= env.maxWidth < Button.width + Button.width + Button.width
    ensures var w, h := Button.width, Button.height;
      AllocateArea(answer, containerSize, Entries(), fit)
        == Done(Flexbox.Allocation(
             SetSize(Flexbox.Envelope(answer, containerSize), Max(Max(Max(Max(0.0, w), w), w + w), w), h + h + Max(h, h) + h),
             [Sized(0.0, 0.0, w, h), Sized(0.0, 0.0 + h, w, h),
              Sized(0.0, 0.0 + h + h, w, h), Sized(0.0 + w, 0.0 + h + h, w, h), Sized(0.0, 0.0 + h + h + Max(h, h), w, h)]))
  {
    var c := Button;
    var rows := [Single(c), Single(c), Push(Single(c), c), Single(c)];
    MeasureEntries(containerSize);
    InlineWrap(c, Flexbox.Envelope(answer, containerSize), fit);
    WrapRects(c);
    WrapMeasures(c);
    AllocateFrom(answer, containerSize, fit, rows, PlaceLines(rows, 0.0), Flexbox.Widest(rows), SumHeights(rows));
  }

  /** Buttons that fitting turns into `c`, which does not fit beside a
      button, are each alone on a line; the lines' extent and rectangles. */
  lemma {:induction false} AloneLines(answer: Option<WidgetSize>, containerSize: (Usize, Usize), fit: Fitters, c: WidgetSize)
    requires var env := Flexbox.Envelope(answer, containerSize);
      Fitted(Button, env, fit) == c && 0.0 <= c.width && c.width + Button.width > env.maxWidth
    ensures var rows := [Single(c), Single(c), Single(c), Single(c), Single(c)];
      var w, h := c.width, c.height;
      && Lines(Measure(Entries(), containerSize), Flexbox.Envelope(answer, containerSize), fit) == rows
      && PlaceLines(rows, 0.0)
        == Column(w, h)
      && Flexbox.Widest(rows) == w && SumHeights(rows) == h + h + h + h + h
  {
    var rows := [Single(c), Single(c), Single(c), Single(c), Single(c)];
    var w, h := c.width, c.height;
    assert PlaceLines(rows, 0.0)
      == Column(w, h) by {
      AloneRects(c);
    }
    assert Flexbox.Widest(rows) == w && SumHeights(rows) == h + h + h + h + h by {
      AloneMeasures(c);
    }
    assert Lines(Measure(Entries(), containerSize), Flexbox.Envelope(answer, containerSize), fit) == rows by {
      MeasureEntries(containerSize);
      AllAlone(Button, c, Flexbox.Envelope(answer, containerSize), fit);
    }
  }

  /** Buttons that fitting turns into `c`, which does not fit beside a
      button: every button is alone on its line. */
  lemma {:induction false} AloneLayout(answer: Option<WidgetSize>, containerSize: (Usize, Usize), fit: Fitters, c: WidgetSize)
    requires var env := Flexbox.Envelope(answer, containerSize);
      && env.WidthBoundsOk() && env.HeightBoundsOk()
      && Fitted(Button, env, fit) == c && 0.0 <= c.width && c.width + Button.width > env.maxWidth
    ensures var w, h := c.width, c.height;
      AllocateArea(answer, containerSize, Entries(), fit)
        == Done(Flexbox.Allocation(
             SetSize(Flexbox.Envelope(answer, containerSize), w, h + h + h + h + h),
             Column(w, h)))
  {
    var w, h := c.width, c.height;
    AloneLines(answer, containerSize, fit, c);
    AllocateFrom(answer, containerSize, fit, [Single(c), Single(c), Single(c), Single(c), Single(c)],
      Column(w, h),
      w, h + h + h + h + h);
  }

  /** `test_div_basic`: in 1000 x 1000 the blocks take a line each and the
      three inline buttons share the third. */
  lemma {:induction false} Basic(fit: Fitters)
    requires Fitted(Button, Env(1000.0, 1000.0), fit) == Button
    ensures AllocateArea(None, (1000, 1000), Entries(), fit)
      == Done(Flexbox.Allocation(WidgetSize(0.0, 150.0, 1000.0, 0.0, 60.0, 1000.0),
           [Rect((0.0, 0.0), (50.0, 20.0)), Rect((0.0, 20.0), (50.0, 40.0)), Rect((0.0, 40.0), (50.0, 60.0)),
            Rect((50.0, 40.0), (100.0, 60.0)), Rect((100.0, 40.0), (150.0, 60.0))]))
  {
    SharedLayout(None, (1000, 1000), fit);
  }


  /** `test_div_wrapping`: in 100 x 100 the fifth button wraps onto a fourth line. */
  lemma {:induction false} Wrapping(fit: Fitters)
    requires Fitted(Button, Env(100.0, 100.0), fit) == Button
    ensures AllocateArea(None, (100, 100), Entries(), fit)
      == Done(Flexbox.Allocation(WidgetSize(0.0, 100.0, 100.0, 0.0, 80.0, 100.0),
           [Rect((0.0, 0.0), (50.0, 20.0)), Rect((0.0, 20.0), (50.0, 40.0)), Rect((0.0, 40.0), (50.0, 60.0)),
            Rect((50.0, 40.0), (100.0, 60.0)), Rect((0.0, 60.0), (50.0, 80.0))]))
  {
    WrappedLayout(None, (100, 100), fit);
  }


  /** `test_div_resizing`, first call: in 45 x 100, with fitting narrowing a
      button to 45, every button is alone on its line. */
  lemma {:induction false} Resizing(fit: Fitters)
    requires Fitted(Button, Env(45.0, 100.0), fit) == Button.(width := 45.0)
    ensures AllocateArea(None, (45, 100), Entries(), fit)
      == Done(Flexbox.Allocation(WidgetSize(0.0, 45.0, 45.0, 0.0, 100.0, 100.0),
           [Rect((0.0, 0.0), (45.0, 20.0)), Rect((0.0, 20.0), (45.0, 40.0)), Rect((0.0, 40.0), (45.0, 60.0)),
            Rect((0.0, 60.0), (45.0, 80.0)), Rect((0.0, 80.0), (45.0, 100.0))]))
  {
    AloneLayout(None, (45, 100), fit, Button.(width := 45.0));
  }



  /** `test_div_resizing`, second call: in 35 x 50, with fitting holding a
      button at its minimum width of 40, every button is alone on its line;
      the lines run down to 100, below the envelope's maximum height of 50,
      while the size handed back is clamped to 35 x 50. */
  lemma {:induction false} ResizingSmaller(fit: Fitters)
    requires Fitted(Button, Env(35.0, 50.0), fit) == Button.(width := 40.0)
    ensures AllocateArea(None, (35, 50), Entries(), fit)
      == Done(Flexbox.Allocation(WidgetSize(0.0, 35.0, 35.0, 0.0, 50.0, 50.0),
           [Rect((0.0, 0.0), (40.0, 20.0)), Rect((0.0, 20.0), (40.0, 40.0)), Rect((0.0, 40.0), (40.0, 60.0)),
            Rect((0.0, 60.0), (40.0, 80.0)), Rect((0.0, 80.0), (40.0, 100.0))]))
  {
    AloneLayout(None, (35, 50), fit, Button.(width := 40.0));
  }



  /** `test_div_custom_allocator`: a fixed 200 x 200 envelope lays the
      buttons out as in 1000 x 1000 and keeps its own size. */
  lemma {:induction false} CustomAllocator(fit: Fitters)
    requires Fitted(Button, WidgetSize(200.0, 200.0, 200.0, 200.0, 200.0, 200.0), fit) == Button
    ensures AllocateArea(Some(WidgetSize(200.0, 200.0, 200.0, 200.0, 200.0, 200.0)), (20, 20), Entries(), fit)
      == Done(Flexbox.Allocation(WidgetSize(200.0, 200.0, 200.0, 200.0, 200.0, 200.0),
           [Rect((0.0, 0.0), (50.0, 20.0)), Rect((0.0, 20.0), (50.0, 40.0)), Rect((0.0, 40.0), (50.0, 60.0)),
            Rect((50.0, 40.0), (100.0, 60.0)), Rect((100.0, 40.0), (150.0, 60.0))]))
  {
    SharedLayout(Some(WidgetSize(200.0, 200.0, 200.0, 200.0, 200.0, 200.0)), (20, 20), fit);
  }

}
