/** The integer flexbox's own scenarios (fgui/src/containers/flexbox.rs:
    the two size tests): three identical buttons, measured with and without
    wrapping against several containers and area allocators. */
module FgFlexboxExamples {
  import opened Faults
  import opened Numeric
  import opened FgSizes
  import opened FgShrink
  import opened FgFlexbox
  import Flexbox

  /** The test button: 40 to 60 wide, preferring 50; 15 to 25 tall, preferring 20. */
  const Button := WidgetSize(40, 50, 60, 15, 20, 25)

  const Press: Child := (screen: (nat, nat), container: (nat, nat)) => Button

  const Buttons: seq<Child> := [Press, Press, Press]

  const Screen: (nat, nat) := (1000, 1000)

  lemma {:induction false} ButtonsMeasured(offered: (nat, nat))
    ensures Measure(Buttons, Screen, offered) == [Button, Button, Button]
  {
    var cs := Measure(Buttons, Screen, offered);
    assert cs[0] == Button && cs[1] == Button && cs[2] == Button;
  }

  lemma {:induction false} ThreeSizes(a: WidgetSize, b: WidgetSize, c: WidgetSize)
    ensures SumWidths([a, b, c]) == a.width + b.width + c.width
    ensures SumMinWidths([a, b, c]) == a.minWidth + b.minWidth + c.minWidth
  {
    assert [a, b, c][1..] == [b, c];
    assert [b, c][1..] == [c];
    assert [c][1..] == [];
    assert SumWidths([c]) == c.width;
    assert SumWidths([b, c]) == b.width + c.width;
    assert SumMinWidths([c]) == c.minWidth;
    assert SumMinWidths([b, c]) == b.minWidth + c.minWidth;
  }

  lemma {:induction false} ThreeButtons()
    ensures SumWidths([Button, Button, Button]) == 150
    ensures SumMinWidths([Button, Button, Button]) == 120
    ensures Tallest([Button, Button, Button]) == 20
    ensures AllAboveMinimum([Button, Button, Button])
  {
    ThreeSizes(Button, Button, Button);
  }

  /** Without wrapping, every envelope that leaves room for the row reports
      the row's 150 x 20, clamped into the envelope, and keeps the buttons. */
  lemma {:induction false} NoWrapRoomy(answer: Option<WidgetSize>, containerSize: (nat, nat))
    requires BoundsOk(Envelope(answer, containerSize)) && 150 <= Envelope(answer, containerSize).maxWidth
    ensures var env := Envelope(answer, containerSize);
      AllocateArea(Flexbox.NoWrap, answer, Screen, containerSize, Buttons) ==
        Done(Allocation(env.(width := NatClamp(150, env.minWidth, env.maxWidth),
                             height := NatClamp(20, env.minHeight, env.maxHeight)),
                        [Button, Button, Button]))
  {
    var env := Envelope(answer, containerSize);
    ButtonsMeasured((env.maxWidth, env.maxHeight));
    ThreeButtons();
    NoWrapMeasures(env, [Button, Button, Button]);
  }

  /** Without wrapping, an envelope narrower than the buttons' 120 of
      minimum width squeezes every button to 40 and reports the envelope's
      maximum width. */
  lemma {:induction false} NoWrapSqueezed(containerSize: (nat, nat))
    requires containerSize.0 < 120
    ensures AllocateArea(Flexbox.NoWrap, None, Screen, containerSize, Buttons) ==
      Done(Allocation(WidgetSize(0, containerSize.0, containerSize.0, 0, NatMin(20, containerSize.1), containerSize.1),
                      [Button.(width := 40), Button.(width := 40), Button.(width := 40)]))
  {
    ButtonsMeasured(containerSize);
    ButtonsAtMinimum(Envelope(None, containerSize));
  }

  /** The row of buttons in an envelope narrower than their 120 of minimum
      width: each button at its minimum width of 40. */
  lemma {:induction false} ButtonsAtMinimum(env: WidgetSize)
    requires BoundsOk(env) && env.maxWidth < 120
    ensures NoWrap(env, [Button, Button, Button]).Done?
    ensures NoWrap(env, [Button, Button, Button]).value
      == Allocation(env.(width := NatClamp(120, env.minWidth, env.maxWidth),
                         height := NatClamp(20, env.minHeight, env.maxHeight)),
                    [Button.(width := 40), Button.(width := 40), Button.(width := 40)])
  {
    var s := [Button, Button, Button];
    ThreeButtons();
    NoWrapMeasures(env, s);
    ShrunkNarrows(env, s);
    var out := NoWrap(env, s).value.sizes;
    assert out == [Button.(width := 40), Button.(width := 40), Button.(width := 40)];
  }

  /** fgui/src/containers/flexbox.rs:247-258: plenty of room. */
  lemma {:induction false} NoWrapSimple()
    ensures var r := AllocateArea(Flexbox.NoWrap, None, Screen, (200, 100), Buttons); r.Done? && r.value.size == WidgetSize(0, 150, 200, 0, 20, 100)
  {
    NoWrapRoomy(None, (200, 100));
  }

  /** fgui/src/containers/flexbox.rs:261-272: the buttons shrink. */
  lemma {:induction false} NoWrapResizing()
    ensures var r := AllocateArea(Flexbox.NoWrap, None, Screen, (100, 15), Buttons); r.Done? && r.value.size == WidgetSize(0, 100, 100, 0, 15, 15)
  {
    NoWrapSqueezed((100, 15));
  }

  /** fgui/src/containers/flexbox.rs:275-286: a container too small even for the minimum widths. */
  lemma {:induction false} NoWrapOverflow()
    ensures var r := AllocateArea(Flexbox.NoWrap, None, Screen, (10, 10), Buttons); r.Done? && r.value.size == WidgetSize(0, 10, 10, 0, 10, 10)
  {
    NoWrapSqueezed((10, 10));
  }

  /** fgui/src/containers/flexbox.rs:289-308: a custom allocator. */
  lemma {:induction false} NoWrapCustomAllocator()
    ensures var r := AllocateArea(Flexbox.NoWrap, Some(WidgetSize(30, 100, 200, 10, 10, 20)), Screen, (200, 100), Buttons);
       r.Done? && r.value.size == WidgetSize(30, 150, 200, 10, 20, 20)
  {
    NoWrapRoomy(Some(WidgetSize(30, 100, 200, 10, 10, 20)), (200, 100));
  }

  /** fgui/src/containers/flexbox.rs:311-330: an allocator whose minimum exceeds the row. */
  lemma {:induction false} NoWrapUnderflow()
    ensures var r := AllocateArea(Flexbox.NoWrap, Some(WidgetSize(250, 250, 300, 50, 50, 100)), Screen, (250, 100), Buttons);
       r.Done? && r.value.size == WidgetSize(250, 250, 300, 50, 50, 100)
  {
    NoWrapRoomy(Some(WidgetSize(250, 250, 300, 50, 50, 100)), (250, 100));
  }

  // ---------------------------------------------------------------------
  // With wrapping

  /** With room for the row, wrapping reports what the row reports. */
  lemma {:induction false} WrapRoomy(answer: Option<WidgetSize>, containerSize: (nat, nat))
    requires BoundsOk(Envelope(answer, containerSize)) && 150 <= Envelope(answer, containerSize).maxWidth
    ensures AllocateArea(Flexbox.Wrap, answer, Screen, containerSize, Buttons) ==
      AllocateArea(Flexbox.NoWrap, answer, Screen, containerSize, Buttons)
  {
    var env := Envelope(answer, containerSize);
    ButtonsMeasured((env.maxWidth, env.maxHeight));
    ThreeButtons();
    WrapAgreesWithNoWrap(env, [Button, Button, Button]);
  }

  /** Three children go through the line-breaking step one after the other. */
  lemma {:induction false} ThreeSteps(a: WidgetSize, b: WidgetSize, c: WidgetSize, env: WidgetSize)
    requires BoundsOk(env)
    ensures WrapLines([a, b, c], env) == WrapStep(WrapStep(WrapStep([(0, 0)], a, env), b, env), c, env)
  {
    assert [a, b, c][..2] == [a, b];
    assert [a, b][..1] == [a];
    assert [a][..0] == [];
    assert WrapLines([a], env) == WrapStep([(0, 0)], a, env);
    assert WrapLines([a, b], env) == WrapStep(WrapLines([a], env), b, env);
  }

  /** The widest line and the stacked height of a few lines. */
  lemma {:induction false} LineTotals(x: (nat, nat), rest: seq<(nat, nat)>)
    ensures Widest([x] + rest) == NatMax(x.0, Widest(rest))
    ensures StackHeight([x] + rest) == x.1 + StackHeight(rest)
  {
    assert ([x] + rest)[1..] == rest;
  }

  lemma {:induction false} TwoLines(x: (nat, nat), y: (nat, nat))
    ensures Widest([x, y]) == NatMax(x.0, y.0) && StackHeight([x, y]) == x.1 + y.1
  {
    LineTotals(y, []);
    assert [y] == [y] + [];
    LineTotals(x, [y]);
  }

  lemma {:induction false} OneAndThreeLines(o: (nat, nat), x: (nat, nat))
    ensures Widest([x, x, x]) == x.0 && StackHeight([x, x, x]) == 3 * x.1
    ensures Widest([o, x, x, x]) == NatMax(o.0, x.0) && StackHeight([o, x, x, x]) == o.1 + 3 * x.1
  {
    TwoLines(x, x);
    LineTotals(x, [x, x]);
    assert [x, x, x] == [x] + [x, x];
    LineTotals(o, [x, x, x]);
  }

  /** The lines of three buttons when two fit on a line. */
  lemma {:induction false} TwoThenOne(env: WidgetSize)
    requires BoundsOk(env) && 100 <= env.maxWidth < 150
    ensures var h := NatClamp(20, env.minHeight, env.maxHeight);
      WrapLines([Button, Button, Button], env) == [(100, h), (NatClamp(50, env.minWidth, env.maxWidth), h)]
  {
    var h := NatClamp(20, env.minHeight, env.maxHeight);
    ThreeSteps(Button, Button, Button, env);
    assert WrapStep([(0, 0)], Button, env) == [(50, h)];
    assert WrapStep([(50, h)], Button, env) == [(100, h)];
  }

  /** The lines of three buttons when each needs a line of its own. */
  lemma {:induction false} OnePerLine(env: WidgetSize)
    requires BoundsOk(env) && env.maxWidth < 50
    ensures var line := (NatClamp(50, env.minWidth, env.maxWidth), NatClamp(20, env.minHeight, env.maxHeight));
      WrapLines([Button, Button, Button], env) == [(0, 0), line, line, line]
  {
    var line := (NatClamp(50, env.minWidth, env.maxWidth), NatClamp(20, env.minHeight, env.maxHeight));
    ThreeSteps(Button, Button, Button, env);
    assert WrapStep([(0, 0)], Button, env) == [(0, 0), line];
    assert WrapStep([(0, 0), line], Button, env) == [(0, 0), line, line];
  }

  /** The lines of three buttons when each fills a line by itself. */
  lemma {:induction false} OneFillsEach(env: WidgetSize)
    requires BoundsOk(env) && env.minWidth <= 50 <= env.maxWidth < 100
    ensures var line := (50, NatClamp(20, env.minHeight, env.maxHeight));
      WrapLines([Button, Button, Button], env) == [line, line, line]
  {
    var line := (50, NatClamp(20, env.minHeight, env.maxHeight));
    ThreeSteps(Button, Button, Button, env);
    assert WrapStep([(0, 0)], Button, env) == [line];
    assert WrapStep([line], Button, env) == [line, line];
  }

  /** fgui/src/containers/flexbox.rs:342-353: plenty of room. */
  lemma {:induction false} WrapSimple()
    ensures var r := AllocateArea(Flexbox.Wrap, None, Screen, (200, 100), Buttons); r.Done? && r.value.size == WidgetSize(0, 150, 200, 0, 20, 100)
  {
    WrapRoomy(None, (200, 100));
    NoWrapSimple();
  }

  /** fgui/src/containers/flexbox.rs:356-367: the third button wraps. */
  lemma {:induction false} WrapWrapping()
    ensures var r := AllocateArea(Flexbox.Wrap, None, Screen, (100, 100), Buttons); r.Done? && r.value.size == WidgetSize(0, 100, 100, 0, 40, 100)
  {
    var env := Envelope(None, (100, 100));
    ButtonsMeasured((100, 100));
    TwoThenOne(env);
    TwoLines((100, 20), (50, 20));
  }

  /** fgui/src/containers/flexbox.rs:370-381: every button on a line of its own, clamped. */
  lemma {:induction false} WrapResizing()
    ensures var r := AllocateArea(Flexbox.Wrap, None, Screen, (45, 100), Buttons); r.Done? && r.value.size == WidgetSize(0, 45, 45, 0, 60, 100)
  {
    var env := Envelope(None, (45, 100));
    ButtonsMeasured((45, 100));
    OnePerLine(env);
    OneAndThreeLines((0, 0), (45, 20));
  }

  /** fgui/src/containers/flexbox.rs:384-395: the lines overflow the container's height. */
  lemma {:induction false} WrapOverflow()
    ensures var r := AllocateArea(Flexbox.Wrap, None, Screen, (10, 10), Buttons); r.Done? && r.value.size == WidgetSize(0, 10, 10, 0, 10, 10)
  {
    var env := Envelope(None, (10, 10));
    ButtonsMeasured((10, 10));
    OnePerLine(env);
    OneAndThreeLines((0, 0), (10, 10));
  }

  /** fgui/src/containers/flexbox.rs:398-417: a custom allocator narrower than the row. */
  lemma {:induction false} WrapCustomAllocator()
    ensures var r := AllocateArea(Flexbox.Wrap, Some(WidgetSize(30, 100, 50, 10, 10, 100)), Screen, (200, 100), Buttons);
       r.Done? && r.value.size == WidgetSize(30, 50, 50, 10, 60, 100)
  {
    var env := WidgetSize(30, 100, 50, 10, 10, 100);
    ButtonsMeasured((50, 100));
    OneFillsEach(env);
    OneAndThreeLines((0, 0), (50, 20));
  }

  /** fgui/src/containers/flexbox.rs:420-437: an allocator whose minimum exceeds the row. */
  lemma {:induction false} WrapUnderflow()
    ensures var r := AllocateArea(Flexbox.Wrap, Some(WidgetSize(150, 150, 200, 80, 80, 100)), Screen, (200, 100), Buttons);
       r.Done? && r.value.size == WidgetSize(150, 150, 200, 80, 80, 100)
  {
    WrapRoomy(Some(WidgetSize(150, 150, 200, 80, 80, 100)), (200, 100));
    NoWrapRoomy(Some(WidgetSize(150, 150, 200, 80, 80, 100)), (200, 100));
  }
}
