/** The flexbox of the integer crate (fgui/src/containers/flexbox.rs): the
    render handshake and the two measuring passes, without and with
    wrapping. Children are lined up horizontally; without wrapping they
    shrink towards their minimum widths when the row is too wide, with
    wrapping they move to a new line instead. */
module FgFlexbox {
  import opened Numeric
  import opened Faults
  import opened FgSizes
  import opened StableOrder
  import opened FgShrink
  import Flexbox

  /** What a measuring pass leaves behind: the size the flexbox reports and
      the sizes it keeps for its children. */
  datatype Allocation = Allocation(size: WidgetSize, sizes: seq<WidgetSize>)

  /** A child, as far as layout is concerned: the size it asks for given the
      screen size and the container size it is offered. */
  type Child = ((nat, nat), (nat, nat)) -> WidgetSize

  // ---------------------------------------------------------------------
  // The render handshake

  /** The first child that accepts to render, if any. */
  function FirstAccepting(answers: seq<bool>): (r: Option<nat>)
    ensures r.Some? ==> r.value < |answers| && answers[r.value]
    ensures r.Some? ==> forall k :: 0 <= k < r.value ==> !answers[k]
    ensures r.None? <==> forall k :: 0 <= k < |answers| ==> !answers[k]
    decreases |answers|
  {
    if |answers| == 0 then None
    else if answers[0] then Some(0)
    else
      match FirstAccepting(answers[1..])
      case None => None
      case Some(k) => Some(k + 1)
  }

  /** `accept_render`: a flexbox with a pending change accepts at once and
      clears the flag; otherwise the children are asked in order, and the
      asking stops at the first child that accepts. `answers[i]` is what
      child `i` answers; `polled` is how many children were asked. */
  method AcceptRender(mustRender: bool, answers: seq<bool>) returns (accepted: bool, mustRenderAfter: bool, polled: nat)
    ensures !mustRenderAfter
    ensures polled <= |answers|
    ensures mustRender ==> accepted && polled == 0
    ensures !mustRender ==> (accepted <==> exists k :: 0 <= k < |answers| && answers[k])
    ensures !mustRender ==> polled == match FirstAccepting(answers) case Some(k) => k + 1 case None => |answers|
  {
    if mustRender {
      return true, false, 0;
    }
    var i := 0;
    while i < |answers|
      invariant 0 <= i <= |answers|
      invariant forall k :: 0 <= k < i ==> !answers[k]
    {
      if answers[i] {
        return true, false, i + 1;
      }
      i := i + 1;
    }
    return false, false, |answers|;
  }

  // ---------------------------------------------------------------------
  // Measuring

  /** The envelope: what the area allocator answered, or else a box that may
      grow from nothing up to the container. */
  function Envelope(answer: Option<WidgetSize>, containerSize: (nat, nat)): (env: WidgetSize)
    ensures answer.Some? ==> env == answer.value
    ensures answer.None? ==> env.InRange() && env.width == 0 && env.height == 0
    ensures answer.None? ==> env.minWidth == 0 && env.maxWidth == containerSize.0
    ensures answer.None? ==> env.minHeight == 0 && env.maxHeight == containerSize.1
  {
    match answer
    case Some(size) => size
    case None => WidgetSize(0, 0, containerSize.0, 0, 0, containerSize.1)
  }

  /** Every child measured against the same screen and container size, in order. */
  function Measure(children: seq<Child>, screenSize: (nat, nat), offered: (nat, nat)): (cs: seq<WidgetSize>)
    ensures |cs| == |children|
    ensures forall i :: 0 <= i < |children| ==> cs[i] == children[i](screenSize, offered)
  {
    seq(|children|, i requires 0 <= i < |children| => children[i](screenSize, offered))
  }

  /** The running maximum of the children's heights, starting from 0. */
  function Tallest(s: seq<WidgetSize>): (h: nat)
    ensures forall i :: 0 <= i < |s| ==> s[i].height <= h
    ensures |s| == 0 ==> h == 0
    ensures |s| > 0 ==> exists i :: 0 <= i < |s| && s[i].height == h
    decreases |s|
  {
    if |s| == 0 then 0
    else
      var h := Tallest(s[..|s| - 1]);
      if s[|s| - 1].height > h then s[|s| - 1].height else h
  }

  predicate BoundsOk(env: WidgetSize)
  {
    env.WidthBoundsOk() && env.HeightBoundsOk()
  }

  /** `size_restriction.set_size(width, height)`, which panics through
      `Ord::clamp` when the envelope's bounds are inverted. */
  function Finish(env: WidgetSize, sizes: seq<WidgetSize>, width: nat, height: nat): (r: Result<Allocation>)
    ensures r.Done? <==> BoundsOk(env)
    ensures r.Panic? ==> r.fault == InvertedBounds
    ensures r.Done? ==> r.value.sizes == sizes && r.value.size.InRange()
  {
    if !BoundsOk(env) then Panic(InvertedBounds)
    else Done(Allocation(SetSize(env, width, height), sizes))
  }

  predicate AllAboveMinimum(sizes: seq<WidgetSize>)
  {
    forall i :: 0 <= i < |sizes| ==> sizes[i].minWidth <= sizes[i].width
  }

  /** The shrinking branch of `allocate_area_no_wrap`: capacities, a stable
      sort by capacity, and the shrink loop over the sorted children. */
  function Shrunk(env: WidgetSize, sizes: seq<WidgetSize>): (r: Result<seq<WidgetSize>>)
    requires env.maxWidth < SumWidths(sizes)
    ensures r.Panic? ==> r.fault == Underflow
  {
    match Capacities(sizes)
    case Panic(f) => Panic(f)
    case Done(amounts) =>
      var plan := PlanCuts(amounts, SumWidths(sizes) - env.maxWidth);
      NarrowLoop(sizes, plan.order, plan.cuts)
  }

  /** `allocate_area_no_wrap`: the children side by side; when they are
      wider than the envelope allows, they shrink first. */
  function NoWrap(env: WidgetSize, sizes: seq<WidgetSize>): (r: Result<Allocation>)
  {
    var width := SumWidths(sizes);
    if env.maxWidth < width then
      match Shrunk(env, sizes)
      case Panic(f) => Panic(f)
      case Done(narrowed) => Finish(env, narrowed, SumWidths(narrowed), Tallest(narrowed))
    else Finish(env, sizes, width, Tallest(sizes))
  }

  /** One child of `allocate_area_wrap`: it starts a new line, its width
      clamped into the envelope, when it does not fit on the last line;
      otherwise the last line grows by its width and to its clamped height. */
  function WrapStep(lines: seq<(nat, nat)>, s: WidgetSize, env: WidgetSize): (r: seq<(nat, nat)>)
    requires |lines| > 0 && BoundsOk(env)
    ensures |r| == |lines| || |r| == |lines| + 1
    ensures r[..|lines| - 1] == lines[..|lines| - 1]
  {
    var last := lines[|lines| - 1];
    var h := NatClamp(s.height, env.minHeight, env.maxHeight);
    if last.0 + s.width > env.maxWidth then lines + [(NatClamp(s.width, env.minWidth, env.maxWidth), h)]
    else lines[..|lines| - 1] + [(last.0 + s.width, NatMax(last.1, h))]
  }

  /** The lines, as (width, height), after placing the children in order,
      starting from one empty line. */
  function WrapLines(sizes: seq<WidgetSize>, env: WidgetSize): (lines: seq<(nat, nat)>)
    requires BoundsOk(env)
    ensures 1 <= |lines| <= |sizes| + 1
    decreases |sizes|
  {
    if |sizes| == 0 then [(0, 0)]
    else WrapStep(WrapLines(sizes[..|sizes| - 1], env), sizes[|sizes| - 1], env)
  }

  /** The widest line. */
  function Widest(lines: seq<(nat, nat)>): (w: nat)
    ensures forall k :: 0 <= k < |lines| ==> lines[k].0 <= w
    ensures |lines| > 0 ==> exists k :: 0 <= k < |lines| && lines[k].0 == w
    decreases |lines|
  {
    if |lines| == 0 then 0 else NatMax(lines[0].0, Widest(lines[1..]))
  }

  /** The lines' heights added up. */
  function StackHeight(lines: seq<(nat, nat)>): nat
  {
    if |lines| == 0 then 0 else lines[0].1 + StackHeight(lines[1..])
  }

  /** The lines' widths added up. */
  function LinesWidth(lines: seq<(nat, nat)>): nat
  {
    if |lines| == 0 then 0 else LinesWidth(lines[..|lines| - 1]) + lines[|lines| - 1].0
  }

  /** `allocate_area_wrap`. Every clamp in it uses the envelope's bounds, and
      `set_size` runs whatever the children are, so the pass panics exactly
      when those bounds are inverted. */
  function Wrap(env: WidgetSize, sizes: seq<WidgetSize>): (r: Result<Allocation>)
    ensures r.Done? <==> BoundsOk(env)
    ensures r.Panic? ==> r.fault == InvertedBounds
    ensures r.Done? ==> r.value.sizes == sizes && r.value.size.InRange()
  {
    if !BoundsOk(env) then Panic(InvertedBounds)
    else
      var lines := WrapLines(sizes, env);
      Done(Allocation(SetSize(env, Widest(lines), StackHeight(lines)), sizes))
  }

  /** `allocate_area` of the integer flexbox. */
  function AllocateArea(wrap: Flexbox.FlexWrap, answer: Option<WidgetSize>, screenSize: (nat, nat),
                        containerSize: (nat, nat), children: seq<Child>): (r: Result<Allocation>)
  {
    var env := Envelope(answer, containerSize);
    var sizes := Measure(children, screenSize, (env.maxWidth, env.maxHeight));
    match wrap
    case NoWrap => NoWrap(env, sizes)
    case Wrap => Wrap(env, sizes)
    case WrapReverse => Panic(Unimplemented)
  }

  /** `render` of the integer flexbox is still a `todo!()`: drawing a
      flexbox of this crate always stops at the unfinished part, whatever
      the area it is handed (so the area is not a parameter here). */
  function Render(): (r: Result<()>)
    ensures r.Panic? && r.fault == Unimplemented
  {
    Panic(Unimplemented)
  }

  // ---------------------------------------------------------------------
  // Without wrapping

  lemma {:induction false} SplitLast(s: seq<WidgetSize>)
    requires |s| > 0
    ensures s[..|s| - 1] + [s[|s| - 1]] == s
  {
  }

  lemma {:induction false} SumWidthsSnoc(s: seq<WidgetSize>, x: WidgetSize)
    ensures SumWidths(s + [x]) == SumWidths(s) + x.width
    decreases |s|
  {
    if |s| == 0 {
      assert s + [x] == [x];
    } else {
      assert (s + [x])[1..] == s[1..] + [x];
      SumWidthsSnoc(s[1..], x);
    }
  }

  /** Children of the same heights have the same tallest height. */
  lemma {:induction false} TallestSameHeights(a: seq<WidgetSize>, b: seq<WidgetSize>)
    requires |a| == |b|
    requires forall i :: 0 <= i < |a| ==> a[i].height == b[i].height
    ensures Tallest(a) == Tallest(b)
    decreases |a|
  {
    if |a| > 0 {
      TallestSameHeights(a[..|a| - 1], b[..|b| - 1]);
    }
  }

  /** The children visited by ascending capacity. */
  lemma {:induction false} VisitAscending(amounts: seq<nat>)
    ensures IsPermutation(Order(amounts), |amounts|)
    ensures Ascending(Visit(amounts, Order(amounts)))
  {
    var order := Order(amounts);
    OrderPermutes(amounts);
    OrderIsStableSort(amounts);
    var v := Visit(amounts, order);
    forall k, l | 0 <= k < l < |v|
      ensures v[k] <= v[l]
    {
      assert v[k] == amounts[order[k]] && v[l] == amounts[order[l]];
    }
  }

  /** The cuts of the shrink loop: each child can afford its own; they take
      off the whole overflow when the capacities allow it, and otherwise
      every child gives up all it can. */
  lemma {:induction false} ShrinkCuts(sizes: seq<WidgetSize>, overflow: nat)
    requires Capacities(sizes).Done?
    ensures var p := PlanCuts(Capacities(sizes).value, overflow);
      forall k :: 0 <= k < |p.order| ==> p.cuts[k] + sizes[p.order[k]].minWidth <= sizes[p.order[k]].width
    ensures var p := PlanCuts(Capacities(sizes).value, overflow);
      SumMinWidths(sizes) + overflow <= SumWidths(sizes) ==> Total(p.cuts) == overflow
    ensures var p := PlanCuts(Capacities(sizes).value, overflow);
      SumWidths(sizes) < SumMinWidths(sizes) + overflow ==>
        && Total(p.cuts) + SumMinWidths(sizes) == SumWidths(sizes)
        && (forall k :: 0 <= k < |p.order| ==> p.cuts[k] + sizes[p.order[k]].minWidth == sizes[p.order[k]].width)
  {
    var amounts := Capacities(sizes).value;
    var p := PlanCuts(amounts, overflow);
    var order, cuts := p.order, p.cuts;
    VisitAscending(amounts);
    var v := Visit(amounts, order);
    CutsWithin(v, overflow);
    forall k | 0 <= k < |order|
      ensures cuts[k] + sizes[order[k]].minWidth <= sizes[order[k]].width
    {
      assert v[k] == amounts[order[k]];
    }
    assert Total(v) + SumMinWidths(sizes) == SumWidths(sizes) by {
      CapacitiesTotal(sizes);
      TotalPermuted(amounts, order);
    }
    if SumMinWidths(sizes) + overflow <= SumWidths(sizes) {
      CutsAbsorb(v, overflow);
    } else {
      CutsExhaust(v, overflow);
      forall k | 0 <= k < |order|
        ensures cuts[k] + sizes[order[k]].minWidth == sizes[order[k]].width
      {
        assert v[k] == amounts[order[k]];
      }
    }
  }

  /** The shrink loop over children all at or above their minimum widths:
      it does not panic; each child keeps all but its width, which stays
      between its minimum and what it asked for; the row ends exactly as
      wide as the envelope allows when the minimum widths leave room for
      that, and otherwise every child is at its minimum. */
  lemma {:induction false} ShrunkNarrows(env: WidgetSize, sizes: seq<WidgetSize>)
    requires env.maxWidth < SumWidths(sizes)
    requires AllAboveMinimum(sizes)
    ensures Shrunk(env, sizes).Done?
    ensures |Shrunk(env, sizes).value| == |sizes|
    ensures forall i :: 0 <= i < |sizes| ==>
      var n := Shrunk(env, sizes).value[i];
      n == sizes[i].(width := n.width) && sizes[i].minWidth <= n.width <= sizes[i].width
    ensures SumWidths(Shrunk(env, sizes).value) == NatMax(env.maxWidth, SumMinWidths(sizes))
    ensures env.maxWidth < SumMinWidths(sizes) ==>
      forall i :: 0 <= i < |sizes| ==> Shrunk(env, sizes).value[i].width == sizes[i].minWidth
  {
    var overflow := SumWidths(sizes) - env.maxWidth;
    var plan := PlanCuts(Capacities(sizes).value, overflow);
    ShrinkCuts(sizes, overflow);
    NarrowLoopPermuted(sizes, plan.order, plan.cuts);
    assert Shrunk(env, sizes) == NarrowLoop(sizes, plan.order, plan.cuts);
    var out := NarrowLoop(sizes, plan.order, plan.cuts).value;
    WidthAfterCuts(SumWidths(out), Total(plan.cuts), SumWidths(sizes), SumMinWidths(sizes), env.maxWidth);
  }

  /** The arithmetic of the row width after the cuts: the whole overflow when
      the children can give it up, and every child's spare width otherwise. */
  lemma WidthAfterCuts(width: nat, cut: nat, sum: nat, minSum: nat, maxWidth: nat)
    requires maxWidth < sum && width + cut == sum
    requires minSum + (sum - maxWidth) <= sum ==> cut == sum - maxWidth
    requires sum < minSum + (sum - maxWidth) ==> cut + minSum == sum
    ensures width == NatMax(maxWidth, minSum)
  {
  }

  /** When the pass panics, and why: inverted envelope bounds, or a child
      narrower than its own minimum when the row has to shrink. */
  lemma {:induction false} NoWrapPanics(env: WidgetSize, sizes: seq<WidgetSize>)
    ensures NoWrap(env, sizes).Panic? <==>
      !BoundsOk(env) || (env.maxWidth < SumWidths(sizes) && !AllAboveMinimum(sizes))
    ensures NoWrap(env, sizes).Panic? ==>
      (NoWrap(env, sizes).fault == if env.maxWidth < SumWidths(sizes) && !AllAboveMinimum(sizes) then Underflow else InvertedBounds)
  {
    if env.maxWidth < SumWidths(sizes) {
      if AllAboveMinimum(sizes) {
        ShrunkNarrows(env, sizes);
      } else {
        assert Capacities(sizes).Panic?;
      }
    }
  }

  /** What the pass measures: children that fit are kept as they asked;
      otherwise each child is narrowed towards its minimum, the row becomes
      as wide as the envelope allows or as narrow as the minimum widths, and
      nothing but widths changes. The flexbox reports the row's width and
      the tallest child's height, clamped into the envelope. */
  lemma {:induction false} NoWrapMeasures(env: WidgetSize, sizes: seq<WidgetSize>)
    requires BoundsOk(env)
    requires SumWidths(sizes) <= env.maxWidth || AllAboveMinimum(sizes)
    ensures NoWrap(env, sizes).Done?
    ensures var a := NoWrap(env, sizes).value;
      && |a.sizes| == |sizes|
      && (forall i :: 0 <= i < |sizes| ==> a.sizes[i] == sizes[i].(width := a.sizes[i].width))
      && (SumWidths(sizes) <= env.maxWidth ==> a.sizes == sizes)
      && (env.maxWidth < SumWidths(sizes) ==>
            && (forall i :: 0 <= i < |sizes| ==> sizes[i].minWidth <= a.sizes[i].width <= sizes[i].width)
            && SumWidths(a.sizes) == NatMax(env.maxWidth, SumMinWidths(sizes)))
      && a.size == env.(width := NatClamp(SumWidths(a.sizes), env.minWidth, env.maxWidth),
                        height := NatClamp(Tallest(sizes), env.minHeight, env.maxHeight))
  {
    if env.maxWidth < SumWidths(sizes) {
      ShrunkNarrows(env, sizes);
      var out := Shrunk(env, sizes).value;
      TallestSameHeights(out, sizes);
    }
  }

  // ---------------------------------------------------------------------
  // With wrapping

  /** No line is wider or taller than the envelope's maximum. */
  lemma {:induction false} WrapLinesFit(sizes: seq<WidgetSize>, env: WidgetSize)
    requires BoundsOk(env)
    ensures forall k :: 0 <= k < |WrapLines(sizes, env)| ==>
      WrapLines(sizes, env)[k].0 <= env.maxWidth && WrapLines(sizes, env)[k].1 <= env.maxHeight
    decreases |sizes|
  {
    if |sizes| > 0 {
      WrapLinesFit(sizes[..|sizes| - 1], env);
    }
  }

  lemma {:induction false} LinesWidthSnoc(lines: seq<(nat, nat)>, p: (nat, nat))
    ensures LinesWidth(lines + [p]) == LinesWidth(lines) + p.0
  {
    assert (lines + [p])[..|lines|] == lines;
  }

  /** A child whose width needs no clamping adds exactly its width to the lines. */
  lemma {:induction false} WrapStepWidth(lines: seq<(nat, nat)>, x: WidgetSize, env: WidgetSize)
    requires |lines| > 0 && BoundsOk(env)
    requires env.minWidth <= x.width <= env.maxWidth
    ensures LinesWidth(WrapStep(lines, x, env)) == LinesWidth(lines) + x.width
  {
    var last := lines[|lines| - 1];
    var h := NatClamp(x.height, env.minHeight, env.maxHeight);
    if last.0 + x.width > env.maxWidth {
      LinesWidthSnoc(lines, (x.width, h));
    } else {
      var init := lines[..|lines| - 1];
      LinesWidthSnoc(init, (last.0 + x.width, NatMax(last.1, h)));
      assert init + [last] == lines;
      LinesWidthSnoc(init, last);
    }
  }

  /** When every child's width is already within the envelope's bounds, the
      lines share out the children's widths exactly. */
  lemma {:induction false} WrapLinesShareWidths(sizes: seq<WidgetSize>, env: WidgetSize)
    requires BoundsOk(env)
    requires forall i :: 0 <= i < |sizes| ==> env.minWidth <= sizes[i].width <= env.maxWidth
    ensures LinesWidth(WrapLines(sizes, env)) == SumWidths(sizes)
    decreases |sizes|
  {
    if |sizes| > 0 {
      var init := sizes[..|sizes| - 1];
      var x := sizes[|sizes| - 1];
      assert forall i :: 0 <= i < |init| ==> init[i] == sizes[i];
      WrapLinesShareWidths(init, env);
      assert SumWidths(sizes) == SumWidths(init) + x.width by {
        SplitLast(sizes);
        SumWidthsSnoc(init, x);
      }
      assert WrapLines(sizes, env) == WrapStep(WrapLines(init, env), x, env);
      WrapStepWidth(WrapLines(init, env), x, env);
    }
  }

  /** Clamping commutes with taking the larger of two heights. */
  lemma {:induction false} ClampTaller(t: nat, h: nat, lo: nat, hi: nat)
    requires lo <= hi
    ensures NatMax(NatClamp(t, lo, hi), NatClamp(h, lo, hi)) == NatClamp(if h > t then h else t, lo, hi)
  {
  }

  /** A child that still fits on the only line joins it. */
  lemma {:induction false} JoinOnlyLine(width: nat, height: nat, x: WidgetSize, env: WidgetSize)
    requires BoundsOk(env) && width + x.width <= env.maxWidth
    ensures |WrapStep([(width, height)], x, env)| == 1
    ensures WrapStep([(width, height)], x, env)[0] == (width + x.width, NatMax(height, NatClamp(x.height, env.minHeight, env.maxHeight)))
  {
  }

  /** A row that fits stays one line: as wide as the children together, as
      tall as the tallest child's clamped height. */
  lemma {:induction false} WrapOneLine(sizes: seq<WidgetSize>, env: WidgetSize)
    requires BoundsOk(env)
    requires SumWidths(sizes) <= env.maxWidth
    ensures |WrapLines(sizes, env)| == 1
    ensures WrapLines(sizes, env)[0] ==
      (SumWidths(sizes), if |sizes| == 0 then 0 else NatClamp(Tallest(sizes), env.minHeight, env.maxHeight))
    decreases |sizes|
  {
    if |sizes| > 0 {
      var init := sizes[..|sizes| - 1];
      var x := sizes[|sizes| - 1];
      assert SumWidths(sizes) == SumWidths(init) + x.width by {
        SplitLast(sizes);
        SumWidthsSnoc(init, x);
      }
      WrapOneLine(init, env);
      var height := if |init| == 0 then 0 else NatClamp(Tallest(init), env.minHeight, env.maxHeight);
      var taller := NatMax(height, NatClamp(x.height, env.minHeight, env.maxHeight));
      assert taller == NatClamp(Tallest(sizes), env.minHeight, env.maxHeight) by {
        assert Tallest(sizes) == if x.height > Tallest(init) then x.height else Tallest(init);
        if |init| > 0 {
          ClampTaller(Tallest(init), x.height, env.minHeight, env.maxHeight);
        }
      }
      assert WrapLines(init, env) == [(SumWidths(init), height)];
      assert WrapLines(sizes, env) == WrapStep(WrapLines(init, env), x, env);
      JoinOnlyLine(SumWidths(init), height, x, env);
    }
  }

  /** When the children fit side by side, wrapping makes no difference. */
  lemma {:induction false} WrapAgreesWithNoWrap(env: WidgetSize, sizes: seq<WidgetSize>)
    requires SumWidths(sizes) <= env.maxWidth
    ensures Wrap(env, sizes) == NoWrap(env, sizes)
  {
    if BoundsOk(env) {
      var lines := WrapLines(sizes, env);
      assert Widest(lines) == SumWidths(sizes) && StackHeight(lines) == lines[0].1 by {
        WrapOneLine(sizes, env);
      }
      assert SetSize(env, Widest(lines), StackHeight(lines)) == SetSize(env, SumWidths(sizes), Tallest(sizes)) by {
        WrapOneLine(sizes, env);
      }
      assert Wrap(env, sizes) == Done(Allocation(SetSize(env, SumWidths(sizes), Tallest(sizes)), sizes));
    }
  }

  /** The wrapped flexbox is never wider than the envelope's maximum and
      never narrower than its widest line, nor than the envelope's minimum. */
  lemma {:induction false} WrapWithinEnvelope(env: WidgetSize, sizes: seq<WidgetSize>)
    requires BoundsOk(env)
    ensures Wrap(env, sizes).value.size.width == NatMax(env.minWidth, Widest(WrapLines(sizes, env)))
    ensures forall k :: 0 <= k < |WrapLines(sizes, env)| ==>
      WrapLines(sizes, env)[k].0 <= Wrap(env, sizes).value.size.width <= env.maxWidth
  {
    WrapLinesFit(sizes, env);
  }

  // ---------------------------------------------------------------------
  // The whole call

  /** Without an allocator the envelope's bounds are never inverted, so the
      call panics only in reverse wrapping, or without wrapping when the
      row overflows the container and a child is below its own minimum. */
  lemma {:induction false} AllocatePanics(wrap: Flexbox.FlexWrap, screenSize: (nat, nat), containerSize: (nat, nat), children: seq<Child>)
    ensures var sizes := Measure(children, screenSize, containerSize);
      AllocateArea(wrap, None, screenSize, containerSize, children).Panic? <==>
        wrap == Flexbox.WrapReverse
        || (wrap == Flexbox.NoWrap && containerSize.0 < SumWidths(sizes) && !AllAboveMinimum(sizes))
  {
    NoWrapPanics(Envelope(None, containerSize), Measure(children, screenSize, containerSize));
  }
}
