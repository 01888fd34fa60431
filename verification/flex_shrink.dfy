/** Horizontal overflow resolution of the flexbox
    (src/containers/flexbox.rs:95-118): every row wider than the envelope's
    maximum width shrinks its children in proportion to their shrink capacity
    `width - min_width`. */
module FlexShrink {
  import opened Numeric
  import opened Sizes
  import opened FlexRows

  /** How far one child can shrink. */
  function Cap(c: WidgetSize): real
  {
    c.width - c.minWidth
  }

  /** The width of `c` once it has given up the fraction `f` of its capacity. */
  function ShrunkWidth(c: WidgetSize, f: real): real
  {
    c.width - f * Cap(c)
  }

  /** Total shrink capacity, summed as `total_shrink_capacity` is. */
  function Capacity(s: seq<WidgetSize>): real
  {
    if |s| == 0 then 0.0 else Capacity(s[..|s| - 1]) + Cap(s[|s| - 1])
  }

  /** No child is narrower than its own minimum. */
  predicate Shrinkable(s: seq<WidgetSize>)
  {
    forall i :: 0 <= i < |s| ==> s[i].minWidth <= s[i].width
  }

  /** `(overflow / total_shrink_capacity).clamp(0.0, 1.0)` on exact reals.
      With no capacity left the `f32` quotient is `+inf` (clamped to 1) when
      overflow remains, `-inf` (clamped to 0) when it is negative, and NaN
      when it is 0. That last case is taken as 0 here, the evidently intended
      "nothing left to cut"; `FactorAsWritten` below keeps the NaN. */
  function Factor(overflow: real, capacity: real): (f: real)
    ensures 0.0 <= f <= 1.0
    ensures capacity != 0.0 && 0.0 <= overflow / capacity <= 1.0 ==> f == overflow / capacity
  {
    if capacity == 0.0 then (if overflow > 0.0 then 1.0 else 0.0)
    else Clamp(overflow / capacity, 0.0, 1.0)
  }

  /** What one child gives up at a step of the shrink loop: the factor's
      share of its own capacity, never more than that capacity. */
  function Cut(c: WidgetSize, overflow: real, capacity: real): (cut: real)
    ensures c.minWidth <= c.width ==> 0.0 <= cut <= Cap(c)
  {
    PortionBounds(Cap(c), Factor(overflow, capacity));
    Cap(c) * Factor(overflow, capacity)
  }

  lemma {:induction false} PortionBounds(c: real, g: real)
    requires 0.0 <= g <= 1.0
    ensures c >= 0.0 ==> 0.0 <= c * g <= c
  {
  }

  /** The inner loop of src/containers/flexbox.rs:107-116: each child gives up
      its `Cut`, and both the remaining overflow and the remaining capacity
      are reduced before the next child. */
  function ShrinkItems(s: seq<WidgetSize>, overflow: real, capacity: real): (r: seq<WidgetSize>)
    ensures |r| == |s|
    ensures forall i :: 0 <= i < |s| ==> r[i] == s[i].(width := r[i].width)
    decreases |s|
  {
    if |s| == 0 then []
    else
      var cut := Cut(s[0], overflow, capacity);
      [s[0].(width := s[0].width - cut)] + ShrinkItems(s[1..], overflow - cut, capacity - Cap(s[0]))
  }

  /** The shrink loop's first step, unfolded. */
  lemma {:induction false} ShrinkItemsCons(s: seq<WidgetSize>, overflow: real, capacity: real)
    requires |s| > 0
    ensures var cut := Cut(s[0], overflow, capacity);
      && ShrinkItems(s, overflow, capacity)[0].width == s[0].width - cut
      && ShrinkItems(s, overflow, capacity)[1..] == ShrinkItems(s[1..], overflow - cut, capacity - Cap(s[0]))
  {
  }

  /** The first child of a shrunk row gives up at most its capacity, and
      the loop goes on over the rest of the row with some remaining overflow
      and capacity. */
  lemma {:induction false} ShrinkItemsTail(s: seq<WidgetSize>, overflow: real, capacity: real)
    returns (overflow': real, capacity': real)
    requires |s| > 0
    ensures s[0].minWidth <= s[0].width ==>
      s[0].minWidth <= ShrinkItems(s, overflow, capacity)[0].width <= s[0].width
    ensures ShrinkItems(s, overflow, capacity)[1..] == ShrinkItems(s[1..], overflow', capacity')
  {
    overflow' := overflow - Cut(s[0], overflow, capacity);
    capacity' := capacity - Cap(s[0]);
    ShrinkItemsCons(s, overflow, capacity);
  }

  /** Indexing past the head of a sequence whose tail is known. */
  lemma {:induction false} Shifted(r: seq<WidgetSize>, tail: seq<WidgetSize>, s: seq<WidgetSize>)
    requires |r| == |s| > 0 && r[1..] == tail
    ensures forall i :: 0 < i < |s| ==> r[i] == tail[i - 1] && s[i] == s[1..][i - 1]
  {
  }

  /** Whatever the overflow, no child that starts at or above its minimum
      width is shrunk below it, and none grows. */
  lemma {:induction false} ShrinkItemsBounded(s: seq<WidgetSize>, overflow: real, capacity: real)
    ensures forall i :: 0 <= i < |s| && s[i].minWidth <= s[i].width ==>
      s[i].minWidth <= ShrinkItems(s, overflow, capacity)[i].width <= s[i].width
    decreases |s|
  {
    if |s| > 0 {
      var overflow', capacity' := ShrinkItemsTail(s, overflow, capacity);
      ShrinkItemsBounded(s[1..], overflow', capacity');
      Shifted(ShrinkItems(s, overflow, capacity), ShrinkItems(s[1..], overflow', capacity'), s);
    }
  }

  /** One row through the horizontal pass: rows no wider than `maxWidth` are
      left alone; the others shrink and their width is re-summed. */
  function ShrinkRow(r: Row, maxWidth: real): (out: Row)
    ensures |out.items| == |r.items| && out.height == r.height
    ensures r.width <= maxWidth ==> out == r
    ensures r.width > maxWidth ==> out.width == SumWidths(out.items)
    ensures forall i :: 0 <= i < |r.items| ==> out.items[i] == r.items[i].(width := out.items[i].width)
    ensures forall i :: 0 <= i < |r.items| && r.items[i].minWidth <= r.items[i].width ==>
      r.items[i].minWidth <= out.items[i].width <= r.items[i].width
  {
    if r.width > maxWidth then
      var items := ShrinkItems(r.items, r.width - maxWidth, Capacity(r.items));
      ShrinkItemsBounded(r.items, r.width - maxWidth, Capacity(r.items));
      Row(items, SumWidths(items), r.height)
    else r
  }

  /** The horizontal pass over all rows, each row on its own. */
  function ShrinkRows(rows: seq<Row>, maxWidth: real): (out: seq<Row>)
    ensures |out| == |rows|
    ensures forall i :: 0 <= i < |rows| ==> out[i] == ShrinkRow(rows[i], maxWidth)
  {
    seq(|rows|, i requires 0 <= i < |rows| => ShrinkRow(rows[i], maxWidth))
  }

  /** The fraction every child of an overflowing row gives up: all of its
      capacity when the row cannot absorb the overflow, otherwise the
      overflow's share of the total capacity. */
  function UniformFactor(overflow: real, capacity: real): real
  {
    if capacity <= 0.0 then 1.0 else Min(1.0, overflow / capacity)
  }

  lemma {:induction false} CapacityCons(s: seq<WidgetSize>)
    requires |s| > 0
    ensures Capacity(s) == Cap(s[0]) + Capacity(s[1..])
    decreases |s|
  {
    if |s| > 1 {
      assert s[..|s| - 1][1..] == s[1..][..|s[1..]| - 1];
      CapacityCons(s[..|s| - 1]);
    } else {
      assert s[..0] == [];
      assert s[1..] == [];
    }
  }

  lemma {:induction false} CapacityNonNeg(s: seq<WidgetSize>)
    requires Shrinkable(s)
    ensures Capacity(s) >= 0.0
    decreases |s|
  {
    if |s| > 0 {
      CapacityNonNeg(s[..|s| - 1]);
    }
  }

  /** The ratio-keeping invariant of the shrink loop: the remaining overflow
      is the fraction `f` of the remaining capacity, or covers all of it
      when `f` is 1. */
  predicate KeepsRatio(overflow: real, capacity: real, f: real)
  {
    0.0 <= f <= 1.0 && (overflow == f * capacity || (f == 1.0 && overflow >= capacity))
  }

  lemma {:induction false} QuotientOfMultiple(a: real, b: real, f: real)
    requires b > 0.0 && a == f * b
    ensures a / b == f
  {
  }

  lemma {:induction false} QuotientAtLeastOne(a: real, b: real)
    requires 0.0 < b <= a
    ensures a / b >= 1.0
  {
    var q := a / b;
    assert q * b == a;
  }

  /** Under the invariant, a child with some capacity left sees the
      factor `f` itself. */
  lemma {:induction false} FactorAtRatio(c: real, overflow: real, capacity: real, f: real)
    requires 0.0 < c <= capacity
    requires KeepsRatio(overflow, capacity, f)
    ensures Factor(overflow, capacity) == f
  {
    if overflow == f * capacity {
      QuotientOfMultiple(overflow, capacity, f);
    } else {
      QuotientAtLeastOne(overflow, capacity);
    }
  }

  /** Giving up the fraction `f` of a capacity `c` keeps the invariant. */
  lemma {:induction false} RatioStep(c: real, overflow: real, capacity: real, f: real)
    requires 0.0 <= c <= capacity
    requires KeepsRatio(overflow, capacity, f)
    ensures KeepsRatio(overflow - f * c, capacity - c, f)
  {
    if overflow == f * capacity {
      assert overflow - f * c == f * (capacity - c);
    }
  }

  /** Under the invariant, a child that is not below its minimum width
      gives up exactly the fraction `f` of its capacity. */
  lemma {:induction false} CutAtRatio(c: WidgetSize, overflow: real, capacity: real, f: real)
    requires c.minWidth <= c.width && Cap(c) <= capacity
    requires KeepsRatio(overflow, capacity, f)
    ensures Cut(c, overflow, capacity) == f * Cap(c)
  {
    if Cap(c) > 0.0 {
      FactorAtRatio(Cap(c), overflow, capacity, f);
    }
  }

  /** One step of the shrink loop under the invariant: the first child
      gives up the fraction `f` of its capacity, and the loop goes on over
      the rest of the row with the invariant restored. */
  lemma {:induction false} ShrinkItemsStep(s: seq<WidgetSize>, overflow: real, capacity: real, f: real)
    returns (overflow': real, capacity': real)
    requires |s| > 0 && 0.0 <= Cap(s[0]) <= capacity
    requires KeepsRatio(overflow, capacity, f)
    ensures ShrinkItems(s, overflow, capacity)[0].width == ShrunkWidth(s[0], f)
    ensures ShrinkItems(s, overflow, capacity)[1..] == ShrinkItems(s[1..], overflow', capacity')
    ensures capacity' == capacity - Cap(s[0])
    ensures KeepsRatio(overflow', capacity', f)
  {
    overflow' := overflow - Cut(s[0], overflow, capacity);
    capacity' := capacity - Cap(s[0]);
    RatioStep(Cap(s[0]), overflow, capacity, f);
    CutAtRatio(s[0], overflow, capacity, f);
    ShrinkItemsCons(s, overflow, capacity);
  }

  /** While the remaining overflow and capacity keep the ratio `f`, every
      child gives up exactly the fraction `f` of its capacity. */
  lemma {:induction false} ShrinkItemsUniform(s: seq<WidgetSize>, overflow: real, capacity: real, f: real)
    requires Shrinkable(s)
    requires capacity == Capacity(s)
    requires KeepsRatio(overflow, capacity, f)
    ensures forall i :: 0 <= i < |s| ==>
      ShrinkItems(s, overflow, capacity)[i].width == ShrunkWidth(s[i], f)
    decreases |s|
  {
    if |s| > 0 {
      var rest := s[1..];
      CapacityCons(s);
      CapacityNonNeg(rest);
      var overflow', capacity' := ShrinkItemsStep(s, overflow, capacity, f);
      assert Shrinkable(rest);
      ShrinkItemsUniform(rest, overflow', capacity', f);
      Shifted(ShrinkItems(s, overflow, capacity), ShrinkItems(rest, overflow', capacity'), s);
    }
  }

  /** The uniform factor starts the shrink loop in its invariant. */
  lemma {:induction false} UniformFactorKeepsRatio(overflow: real, capacity: real)
    requires overflow > 0.0 && capacity >= 0.0
    ensures KeepsRatio(overflow, capacity, UniformFactor(overflow, capacity))
    ensures capacity >= overflow ==> UniformFactor(overflow, capacity) * capacity == overflow
    ensures capacity < overflow ==> UniformFactor(overflow, capacity) == 1.0
  {
    if capacity > 0.0 {
      if overflow < capacity {
        assert overflow / capacity * capacity == overflow;
      } else {
        QuotientAtLeastOne(overflow, capacity);
      }
    }
  }

  /** Removing the fraction `f` of every child's capacity removes the
      fraction `f` of the total capacity from the summed width. */
  lemma {:induction false} SumAfterUniformCut(s: seq<WidgetSize>, r: seq<WidgetSize>, f: real)
    requires |r| == |s|
    requires forall i :: 0 <= i < |s| ==> r[i].width == ShrunkWidth(s[i], f)
    ensures SumWidths(r) == SumWidths(s) - f * Capacity(s)
    decreases |s|
  {
    if |s| > 0 {
      var n := |s| - 1;
      SumAfterUniformCut(s[..n], r[..n], f);
      assert r[n].width == ShrunkWidth(s[n], f);
    }
  }

  /** Horizontal shrink of one overflowing row: every child gives up the
      same fraction of its capacity, so the loop's running recomputation of
      the factor is the proportional shrink it is meant to be. */
  lemma {:induction false} ShrinkRowUniform(r: Row, maxWidth: real)
    requires Shrinkable(r.items)
    requires r.width > maxWidth
    ensures var f := UniformFactor(r.width - maxWidth, Capacity(r.items));
      && 0.0 <= f <= 1.0
      && forall i :: 0 <= i < |r.items| ==>
           ShrinkRow(r, maxWidth).items[i].width == ShrunkWidth(r.items[i], f)
  {
    var overflow := r.width - maxWidth;
    var capacity := Capacity(r.items);
    CapacityNonNeg(r.items);
    UniformFactorKeepsRatio(overflow, capacity);
    ShrinkItemsUniform(r.items, overflow, capacity, UniformFactor(overflow, capacity));
  }

  /** When the children can absorb the overflow, the shrunk row ends exactly
      at `maxWidth`. */
  lemma {:induction false} ShrinkRowAbsorbs(r: Row, maxWidth: real)
    requires r.width == SumWidths(r.items)
    requires Shrinkable(r.items)
    requires r.width > maxWidth
    requires Capacity(r.items) >= r.width - maxWidth
    ensures ShrinkRow(r, maxWidth).width == maxWidth
  {
    var out := ShrinkRow(r, maxWidth);
    var f := UniformFactor(r.width - maxWidth, Capacity(r.items));
    ShrinkRowUniform(r, maxWidth);
    UniformFactorKeepsRatio(r.width - maxWidth, Capacity(r.items));
    SumAfterUniformCut(r.items, out.items, f);
  }

  /** When they cannot, every child ends at its minimum width. */
  lemma {:induction false} ShrinkRowSaturates(r: Row, maxWidth: real)
    requires Shrinkable(r.items)
    requires r.width > maxWidth
    requires Capacity(r.items) < r.width - maxWidth
    ensures forall i :: 0 <= i < |r.items| ==>
      ShrinkRow(r, maxWidth).items[i].width == r.items[i].minWidth
  {
    CapacityNonNeg(r.items);
    UniformFactorKeepsRatio(r.width - maxWidth, Capacity(r.items));
    ShrinkRowUniform(r, maxWidth);
  }

  // ---------------------------------------------------------------------
  // The shrink loop as written, with `f32`'s NaN

  /** An `f32` as the shrink loop can produce it: a finite value or NaN.
      The loop's infinities never reach a width, because the clamp sends
      them to 0 or 1. */
  datatype F32 = Finite(value: real) | NaN

  /** The loop's factor as `f32` computes it: 0 / 0 is NaN, `clamp` passes
      NaN through, and a NaN overflow stays NaN. Otherwise it is `Factor`. */
  function FactorAsWritten(overflow: F32, capacity: real): (f: F32)
    ensures f.NaN? <==> overflow.NaN? || (overflow.value == 0.0 && capacity == 0.0)
    ensures f.Finite? ==> 0.0 <= f.value <= 1.0 && f.value == Factor(overflow.value, capacity)
  {
    if overflow.NaN? || (overflow.value == 0.0 && capacity == 0.0) then NaN
    else Finite(Factor(overflow.value, capacity))
  }

  /** The widths the inner loop of src/containers/flexbox.rs:107-116 writes
      under `f32`: once the factor is NaN, `shrink_capacity * factor` is NaN
      even for a child with no capacity, and `overflow -= to_skrink` carries
      the NaN on to every later child. */
  function ShrinkWidthsAsWritten(s: seq<WidgetSize>, overflow: F32, capacity: real): (r: seq<F32>)
    ensures |r| == |s|
    ensures overflow.NaN? ==> forall i :: 0 <= i < |s| ==> r[i].NaN?
    decreases |s|
  {
    if |s| == 0 then []
    else
      var f := FactorAsWritten(overflow, capacity);
      if f.NaN? then
        [NaN] + ShrinkWidthsAsWritten(s[1..], NaN, capacity - Cap(s[0]))
      else
        var cut := Cap(s[0]) * f.value;
        [Finite(s[0].width - cut)] + ShrinkWidthsAsWritten(s[1..], Finite(overflow.value - cut), capacity - Cap(s[0]))
  }

  /** `*row_width += widget.width` under `f32`: NaN as soon as one width is. */
  function SumAsWritten(ws: seq<F32>): (t: F32)
    ensures t.NaN? <==> exists i :: 0 <= i < |ws| && ws[i].NaN?
    decreases |ws|
  {
    if |ws| == 0 then Finite(0.0)
    else
      var h := SumAsWritten(ws[..|ws| - 1]);
      assert forall i :: 0 <= i < |ws| - 1 ==> ws[..|ws| - 1][i] == ws[i];
      if h.NaN? || ws[|ws| - 1].NaN? then NaN else Finite(h.value + ws[|ws| - 1].value)
  }

  /** The `f32` loop's first step, while its factor is a number: the
      first width is the model's, and the loop goes on with the model's
      remaining overflow and capacity. */
  lemma {:induction false} AsWrittenCons(s: seq<WidgetSize>, overflow: real, capacity: real)
    requires |s| > 0 && FactorAsWritten(Finite(overflow), capacity).Finite?
    ensures var r := ShrinkWidthsAsWritten(s, Finite(overflow), capacity);
      && r[0] == Finite(ShrinkItems(s, overflow, capacity)[0].width)
      && r[1..] == ShrinkWidthsAsWritten(s[1..], Finite(overflow - Cut(s[0], overflow, capacity)), capacity - Cap(s[0]))
  {
    ShrinkItemsCons(s, overflow, capacity);
  }

  /** Wherever the `f32` loop still holds a number, it is the width the
      model's loop computes: the two differ only by the NaN. */
  lemma {:induction false} AsWrittenAgrees(s: seq<WidgetSize>, overflow: real, capacity: real)
    ensures var r := ShrinkWidthsAsWritten(s, Finite(overflow), capacity);
      forall i :: 0 <= i < |s| && r[i].Finite? ==> r[i].value == ShrinkItems(s, overflow, capacity)[i].width
    decreases |s|
  {
    if |s| > 0 && FactorAsWritten(Finite(overflow), capacity).Finite? {
      var r := ShrinkWidthsAsWritten(s, Finite(overflow), capacity);
      var overflow' := overflow - Cut(s[0], overflow, capacity);
      var capacity' := capacity - Cap(s[0]);
      var t := ShrinkItems(s, overflow, capacity);
      AsWrittenCons(s, overflow, capacity);
      ShrinkItemsCons(s, overflow, capacity);
      AsWrittenAgrees(s[1..], overflow', capacity');
      forall i | 1 <= i < |s| && r[i].Finite?
        ensures r[i].value == t[i].width
      {
        assert r[i] == r[1..][i - 1];
        assert t[i] == t[1..][i - 1];
      }
    }
  }

  /** An ordinary overflowing row on which the loop as written goes wrong:
      children (width 50, min 40) and (width 50, min 50) in a row 95 wide.
      The first child absorbs the whole overflow, so the second sees 0 / 0:
      its width, and with it the row's width, become NaN. The model's loop
      leaves the second child at 50 and the row exactly 95 wide. */
  lemma NaNOnOrdinaryRow()
    ensures var a := WidgetSize(40.0, 50.0, 100.0, 0.0, 20.0, 20.0);
      var b := WidgetSize(50.0, 50.0, 100.0, 0.0, 20.0, 20.0);
      var row := Row([a, b], 100.0, 20.0);
      var ws := ShrinkWidthsAsWritten(row.items, Finite(row.width - 95.0), Capacity(row.items));
      && ws == [Finite(45.0), NaN]
      && SumAsWritten(ws) == NaN
      && ShrinkRow(row, 95.0).items[1].width == 50.0
      && ShrinkRow(row, 95.0).width == 95.0
  {
    var a := WidgetSize(40.0, 50.0, 100.0, 0.0, 20.0, 20.0);
    var b := WidgetSize(50.0, 50.0, 100.0, 0.0, 20.0, 20.0);
    var row := Row([a, b], 100.0, 20.0);
    assert [a, b][1..] == [b] && [b][1..] == [];
    CapacityCons([a, b]);
    CapacityCons([b]);
    assert Capacity(row.items) == 10.0;
    assert FactorAsWritten(Finite(5.0), 10.0) == Finite(0.5);
    assert ShrinkWidthsAsWritten([b], Finite(0.0), 0.0) == [NaN];
    assert ShrinkItems([b], 0.0, 0.0)[0].width == 50.0;
    var items := ShrinkRow(row, 95.0).items;
    assert items == [a.(width := 45.0), b];
    assert items[..1] == [a.(width := 45.0)] && [a.(width := 45.0)][..0] == [];
    assert SumWidths(items[..1]) == 45.0;
  }
}
