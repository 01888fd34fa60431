/** The shrink loop of the integer flexbox without wrapping
    (fgui/src/containers/flexbox.rs:82-101): when the children are wider
    than the envelope allows, each child, visited by ascending shrinkable
    width, gives up its share of what is left of the overflow, rounded down,
    but never more than it can shrink. */
module FgShrink {
  import opened Numeric
  import opened Faults
  import opened FgSizes
  import opened StableOrder

  function SumWidths(s: seq<WidgetSize>): nat
  {
    if |s| == 0 then 0 else s[0].width + SumWidths(s[1..])
  }

  /** The narrowest the children can get: their minimum widths added up. */
  function SumMinWidths(s: seq<WidgetSize>): nat
  {
    if |s| == 0 then 0 else s[0].minWidth + SumMinWidths(s[1..])
  }

  function Total(s: seq<nat>): nat
  {
    if |s| == 0 then 0 else s[0] + Total(s[1..])
  }

  /** `size.width - size.min_width` for every child, in child order; the
      first child whose width is below its minimum makes the subtraction
      underflow. */
  function Capacities(sizes: seq<WidgetSize>): (r: Result<seq<nat>>)
    ensures r.Done? <==> forall i :: 0 <= i < |sizes| ==> sizes[i].minWidth <= sizes[i].width
    ensures r.Panic? ==> r.fault == Underflow
    ensures r.Done? ==> |r.value| == |sizes|
    ensures r.Done? ==> forall i :: 0 <= i < |sizes| ==> r.value[i] + sizes[i].minWidth == sizes[i].width
    decreases |sizes|
  {
    if |sizes| == 0 then Done([])
    else if sizes[0].width < sizes[0].minWidth then Panic(Underflow)
    else
      match Capacities(sizes[1..])
      case Panic(f) => Panic(f)
      case Done(rest) =>
        assert forall i :: 0 < i < |sizes| ==> sizes[i] == sizes[1..][i - 1];
        Done([sizes[0].width - sizes[0].minWidth] + rest)
  }

  /** Multiplying by a natural number keeps an order. */
  lemma {:induction false} MulMonotone(n: nat, a: nat, b: nat)
    requires a <= b
    ensures n * a <= n * b
  {
    var d: nat := b - a;
    assert n * b == n * a + n * d;
  }

  /** The capacities add up to how far the children are above their minimum widths. */
  lemma {:induction false} CapacitiesTotal(sizes: seq<WidgetSize>)
    requires Capacities(sizes).Done?
    ensures Total(Capacities(sizes).value) + SumMinWidths(sizes) == SumWidths(sizes)
    decreases |sizes|
  {
    if |sizes| > 0 {
      CapacitiesTotal(sizes[1..]);
      assert Capacities(sizes).value[1..] == Capacities(sizes[1..]).value;
    }
  }

  /** A share rounded down never exceeds what is shared. */
  lemma {:induction false} ShareBelow(overflow: nat, n: nat)
    requires n >= 1
    ensures overflow / n <= overflow
    ensures n * (overflow / n) <= overflow < n * (overflow / n) + n
  {
    var q := overflow / n;
    assert overflow == n * q + overflow % n;
    MulMonotone(q, 1, n);
  }

  /** The cuts of the loop, for the children in visiting order: each takes
      `min(shrinkable, overflow / remaining_blocks)` and the overflow goes
      down by what it took. */
  function Cuts(amounts: seq<nat>, overflow: nat): (r: seq<nat>)
    ensures |r| == |amounts|
    decreases |amounts|
  {
    if |amounts| == 0 then []
    else
      ShareBelow(overflow, |amounts|);
      var t := NatMin(amounts[0], overflow / |amounts|);
      [t] + Cuts(amounts[1..], overflow - t)
  }

  /** What the shrink loop works through: the children in ascending order
      of capacity, and the cut it takes from each of them in that order. */
  datatype Plan = Plan(order: seq<nat>, cuts: seq<nat>)

  function PlanCuts(amounts: seq<nat>, overflow: nat): (p: Plan)
    ensures IsPermutation(p.order, |amounts|) && |p.cuts| == |p.order|
  {
    OrderPermutes(amounts);
    var order := Order(amounts);
    Plan(order, Cuts(Visit(amounts, order), overflow))
  }

  /** `size.width -= shrinkable` for the `k`-th visited child, with the
      unsigned subtraction's underflow kept as a panic. */
  function NarrowLoop(sizes: seq<WidgetSize>, order: seq<nat>, cuts: seq<nat>): (r: Result<seq<WidgetSize>>)
    requires |cuts| == |order|
    requires forall k :: 0 <= k < |order| ==> order[k] < |sizes|
    ensures r.Panic? ==> r.fault == Underflow
    decreases |order|
  {
    if |order| == 0 then Done(sizes)
    else
      var i := order[0];
      if sizes[i].width < cuts[0] then Panic(Underflow)
      else NarrowLoop(sizes[i := sizes[i].(width := sizes[i].width - cuts[0])], order[1..], cuts[1..])
  }

  // ---------------------------------------------------------------------
  // The cuts

  /** No child gives up more than it can shrink. */
  lemma {:induction false} CutsWithin(amounts: seq<nat>, overflow: nat)
    ensures forall k :: 0 <= k < |amounts| ==> Cuts(amounts, overflow)[k] <= amounts[k]
    decreases |amounts|
  {
    if |amounts| > 0 {
      ShareBelow(overflow, |amounts|);
      var t := NatMin(amounts[0], overflow / |amounts|);
      CutsWithin(amounts[1..], overflow - t);
      var r := Cuts(amounts, overflow);
      forall k | 0 < k < |amounts|
        ensures r[k] <= amounts[k]
      {
        assert r[k] == Cuts(amounts[1..], overflow - t)[k - 1];
        assert amounts[k] == amounts[1..][k - 1];
      }
    }
  }

  /** The loop never takes off more than the overflow. */
  lemma {:induction false} CutsWithinOverflow(amounts: seq<nat>, overflow: nat)
    ensures Total(Cuts(amounts, overflow)) <= overflow
    decreases |amounts|
  {
    if |amounts| > 0 {
      ShareBelow(overflow, |amounts|);
      var t := NatMin(amounts[0], overflow / |amounts|);
      CutsWithinOverflow(amounts[1..], overflow - t);
      assert Cuts(amounts, overflow)[1..] == Cuts(amounts[1..], overflow - t);
    }
  }

  predicate Ascending(s: seq<nat>)
  {
    forall k, l :: 0 <= k < l < |s| ==> s[k] <= s[l]
  }

  lemma {:induction false} AscendingTail(s: seq<nat>)
    requires |s| > 0 && Ascending(s)
    ensures Ascending(s[1..])
  {
    var rest := s[1..];
    forall k, l | 0 <= k < l < |rest|
      ensures rest[k] <= rest[l]
    {
      assert rest[k] == s[k + 1] && rest[l] == s[l + 1];
    }
  }

  lemma {:induction false} TotalAtLeast(s: seq<nat>, t: nat)
    requires forall k :: 0 <= k < |s| ==> s[k] >= t
    ensures Total(s) >= |s| * t
    decreases |s|
  {
    if |s| > 0 {
      var rest := s[1..];
      assert forall k :: 0 <= k < |rest| ==> rest[k] == s[k + 1];
      TotalAtLeast(rest, t);
      assert |s| * t == t + |rest| * t;
    }
  }

  /** One turn of the loop over ascending capacities that can absorb the
      overflow leaves an overflow the remaining capacities can absorb. */
  lemma {:induction false} AbsorbHead(amounts: seq<nat>, overflow: nat)
    requires |amounts| > 0 && Ascending(amounts)
    requires overflow <= Total(amounts)
    ensures NatMin(amounts[0], overflow / |amounts|) <= overflow
    ensures overflow - NatMin(amounts[0], overflow / |amounts|) <= Total(amounts[1..])
  {
    var n := |amounts|;
    var q := overflow / n;
    ShareBelow(overflow, n);
    if q < amounts[0] {
      var rest := amounts[1..];
      forall k | 0 <= k < |rest|
        ensures rest[k] >= q + 1
      {
        assert rest[k] == amounts[k + 1];
      }
      TotalAtLeast(rest, q + 1);
      assert (n - 1) * (q + 1) == n * q + n - q - 1;
    }
  }

  /** Over ascending capacities the loop absorbs the whole overflow when
      the capacities add up to at least the overflow. */
  lemma {:induction false} CutsAbsorb(amounts: seq<nat>, overflow: nat)
    requires Ascending(amounts)
    requires overflow <= Total(amounts)
    ensures Total(Cuts(amounts, overflow)) == overflow
    decreases |amounts|
  {
    if |amounts| > 0 {
      AbsorbHead(amounts, overflow);
      AscendingTail(amounts);
      var t := NatMin(amounts[0], overflow / |amounts|);
      CutsAbsorb(amounts[1..], overflow - t);
      assert Cuts(amounts, overflow)[1..] == Cuts(amounts[1..], overflow - t);
    }
  }

  /** Over ascending capacities that add up to less than the overflow,
      every child gives up all it can. */
  lemma {:induction false} CutsExhaust(amounts: seq<nat>, overflow: nat)
    requires Ascending(amounts)
    requires Total(amounts) < overflow
    ensures Cuts(amounts, overflow) == amounts
    decreases |amounts|
  {
    if |amounts| > 0 {
      var n := |amounts|;
      var rest := amounts[1..];
      forall k | 0 <= k < |amounts|
        ensures amounts[k] >= amounts[0]
      {
      }
      TotalAtLeast(amounts, amounts[0]);
      assert n * amounts[0] <= overflow;
      DivAtLeast(overflow, n, amounts[0]);
      AscendingTail(amounts);
      CutsExhaust(rest, overflow - amounts[0]);
    }
  }

  /** Rounding down keeps a lower bound that holds before dividing. */
  lemma {:induction false} DivAtLeast(overflow: nat, n: nat, a: nat)
    requires n >= 1 && n * a <= overflow
    ensures a <= overflow / n
  {
    var q := overflow / n;
    ShareBelow(overflow, n);
    if q < a {
      assert n * (q + 1) == n * q + n;
      MulMonotone(n, q + 1, a);
    }
  }

  // ---------------------------------------------------------------------
  // Applying the cuts

  lemma {:induction false} SumWidthsUpdate(s: seq<WidgetSize>, i: nat, c: WidgetSize)
    requires i < |s|
    ensures SumWidths(s[i := c]) + s[i].width == SumWidths(s) + c.width
    decreases |s|
  {
    if i > 0 {
      assert s[i := c][1..] == s[1..][i - 1 := c];
      SumWidthsUpdate(s[1..], i - 1, c);
    } else {
      assert s[i := c][1..] == s[1..];
    }
  }

  lemma {:induction false} NarrowLoopUntouched(sizes: seq<WidgetSize>, order: seq<nat>, cuts: seq<nat>, i: nat)
    requires |cuts| == |order|
    requires forall k :: 0 <= k < |order| ==> order[k] < |sizes|
    requires i < |sizes| && i !in order
    requires NarrowLoop(sizes, order, cuts).Done?
    ensures |NarrowLoop(sizes, order, cuts).value| == |sizes|
    ensures NarrowLoop(sizes, order, cuts).value[i] == sizes[i]
    decreases |order|
  {
    if |order| > 0 {
      var j := order[0];
      var next := sizes[j := sizes[j].(width := sizes[j].width - cuts[0])];
      assert forall k :: 0 <= k < |order[1..]| ==> order[1..][k] == order[k + 1];
      NarrowLoopUntouched(next, order[1..], cuts[1..], i);
    }
  }

  /** When the loop visits every child at most once and no cut exceeds
      what its child can shrink, the loop does not panic: the `k`-th
      visited child ends narrowed by the `k`-th cut, every other field
      and child is kept, and the widths add up to the cuts less. */
  lemma {:induction false} NarrowLoopNarrows(sizes: seq<WidgetSize>, order: seq<nat>, cuts: seq<nat>)
    requires |cuts| == |order|
    requires forall k :: 0 <= k < |order| ==> order[k] < |sizes|
    requires Distinct(order)
    requires forall k :: 0 <= k < |order| ==> cuts[k] + sizes[order[k]].minWidth <= sizes[order[k]].width
    ensures NarrowLoop(sizes, order, cuts).Done?
    ensures |NarrowLoop(sizes, order, cuts).value| == |sizes|
    ensures forall k :: 0 <= k < |order| ==>
      NarrowLoop(sizes, order, cuts).value[order[k]] == sizes[order[k]].(width := sizes[order[k]].width - cuts[k])
    ensures SumWidths(NarrowLoop(sizes, order, cuts).value) + Total(cuts) == SumWidths(sizes)
    decreases |order|
  {
    if |order| > 0 {
      var j := order[0];
      var next := sizes[j := sizes[j].(width := sizes[j].width - cuts[0])];
      var tail := order[1..];
      assert forall k :: 0 <= k < |tail| ==> tail[k] == order[k + 1];
      assert Distinct(tail) by {
        forall k, l | 0 <= k < l < |tail|
          ensures tail[k] != tail[l]
        {
          assert tail[k] == order[k + 1] && tail[l] == order[l + 1];
        }
      }
      assert j !in tail by {
        forall k | 0 <= k < |tail|
          ensures tail[k] != j
        {
          assert tail[k] == order[k + 1];
        }
      }
      forall k | 0 <= k < |tail|
        ensures cuts[1..][k] + next[tail[k]].minWidth <= next[tail[k]].width
      {
        assert tail[k] == order[k + 1] && cuts[1..][k] == cuts[k + 1];
      }
      NarrowLoopNarrows(next, tail, cuts[1..]);
      NarrowLoopUntouched(next, tail, cuts[1..], j);
      SumWidthsUpdate(sizes, j, next[j]);
      var out := NarrowLoop(sizes, order, cuts).value;
      forall k | 0 < k < |order|
        ensures out[order[k]] == sizes[order[k]].(width := sizes[order[k]].width - cuts[k])
      {
        assert order[k] == tail[k - 1] && cuts[k] == cuts[1..][k - 1];
        assert next[order[k]] == sizes[order[k]];
      }
    }
  }

  /** The loop over a permutation of the children, with cuts each child can
      afford: every child ends narrowed but at or above its minimum, and at
      its minimum when its cut was all it could give. */
  lemma {:induction false} NarrowLoopPermuted(sizes: seq<WidgetSize>, order: seq<nat>, cuts: seq<nat>)
    requires |cuts| == |order|
    requires IsPermutation(order, |sizes|)
    requires forall k :: 0 <= k < |order| ==> cuts[k] + sizes[order[k]].minWidth <= sizes[order[k]].width
    ensures NarrowLoop(sizes, order, cuts).Done?
    ensures |NarrowLoop(sizes, order, cuts).value| == |sizes|
    ensures forall i :: 0 <= i < |sizes| ==>
      && NarrowLoop(sizes, order, cuts).value[i] == sizes[i].(width := NarrowLoop(sizes, order, cuts).value[i].width)
      && sizes[i].minWidth <= NarrowLoop(sizes, order, cuts).value[i].width <= sizes[i].width
    ensures (forall k :: 0 <= k < |order| ==> cuts[k] + sizes[order[k]].minWidth == sizes[order[k]].width) ==>
      forall i :: 0 <= i < |sizes| ==> NarrowLoop(sizes, order, cuts).value[i].width == sizes[i].minWidth
    ensures SumWidths(NarrowLoop(sizes, order, cuts).value) + Total(cuts) == SumWidths(sizes)
  {
    NarrowLoopNarrows(sizes, order, cuts);
    var out := NarrowLoop(sizes, order, cuts).value;
    forall i | 0 <= i < |sizes|
      ensures out[i] == sizes[i].(width := out[i].width) && sizes[i].minWidth <= out[i].width <= sizes[i].width
      ensures (forall k :: 0 <= k < |order| ==> cuts[k] + sizes[order[k]].minWidth == sizes[order[k]].width) ==>
        out[i].width == sizes[i].minWidth
    {
      assert i in order;
      var k :| 0 <= k < |order| && order[k] == i;
    }
  }

  // ---------------------------------------------------------------------
  // Totals over a visiting order

  lemma {:induction false} TotalConcat(a: seq<nat>, b: seq<nat>)
    ensures Total(a + b) == Total(a) + Total(b)
    decreases |a|
  {
    if |a| > 0 {
      assert (a + b)[1..] == a[1..] + b;
      TotalConcat(a[1..], b);
    } else {
      assert a + b == b;
    }
  }

  lemma {:induction false} TotalRemove(v: seq<nat>, j: nat)
    requires j < |v|
    ensures Total(v) == Total(v[..j] + v[j + 1..]) + v[j]
  {
    assert v == v[..j] + [v[j]] + v[j + 1..];
    TotalConcat(v[..j] + [v[j]], v[j + 1..]);
    TotalConcat(v[..j], [v[j]]);
    TotalConcat(v[..j], v[j + 1..]);
  }

  /** Visiting every child exactly once, in any order, adds up the same capacity. */
  lemma {:induction false} TotalPermuted(f: seq<nat>, order: seq<nat>)
    requires IsPermutation(order, |f|)
    ensures Total(Visit(f, order)) == Total(f)
    decreases |f|
  {
    var n := |f|;
    if n > 0 {
      var m := n - 1;
      var j := DropLast(order, n);
      var order' := Without(order, j);
      TotalPermuted(f[..m], order');
      var v := Visit(f, order);
      assert Visit(f[..m], order') == v[..j] + v[j + 1..];
      TotalRemove(v, j);
      TotalRemove(f, m);
      assert f[..m] + f[m + 1..] == f[..m];
    }
  }
}
