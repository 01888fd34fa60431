/** Vertical overflow resolution of the flexbox
    (src/containers/flexbox.rs:119-152): when the rows are taller than the
    envelope allows, each row gives up a share of the remaining overflow,
    never more than its slack, visiting the rows by ascending slack key. */
module FlexVertical {
  import opened Numeric
  import opened Sizes
  import opened FlexRows
  import opened StableOrder

  /** `min_row_height`: the largest minimum height of a row's children,
      folded from 0 with `max`. */
  function MinRowHeight(s: seq<WidgetSize>): (m: real)
    ensures m >= 0.0
  {
    if |s| == 0 then 0.0 else Max(MinRowHeight(s[..|s| - 1]), s[|s| - 1].minHeight)
  }

  /** The summed height of the rows, accumulated as `flexbox_height += row_height`. */
  function SumHeights(rows: seq<Row>): real
  {
    if |rows| == 0 then 0.0 else SumHeights(rows[..|rows| - 1]) + rows[|rows| - 1].height
  }

  /** How far a row can shrink before its tallest minimum height. */
  function Slack(r: Row): real
  {
    r.height - MinRowHeight(r.items)
  }

  /** The sort key `(amount * 1000.0) as isize`. */
  function SlackKey(amount: real): int
  {
    TruncToIsize(amount * 1000.0)
  }

  function RowSlacks(rows: seq<Row>): (s: seq<real>)
    ensures |s| == |rows|
  {
    seq(|rows|, i requires 0 <= i < |rows| => Slack(rows[i]))
  }

  function Keys(rows: seq<Row>): (keys: seq<int>)
    ensures |keys| == |rows|
  {
    seq(|rows|, i requires 0 <= i < |rows| => SlackKey(Slack(rows[i])))
  }

  /** Sum of a sequence of amounts. */
  function Total(s: seq<real>): real
  {
    if |s| == 0 then 0.0 else s[0] + Total(s[1..])
  }

  /** The amounts taken from the visited rows (src/containers/flexbox.rs:140-151):
      each row gives up its share `overflow / remaining_blocks` of what is
      left of the overflow, but never more than its own slack. */
  function Amounts(slacks: seq<real>, overflow: real): (r: seq<real>)
    ensures |r| == |slacks|
    decreases |slacks|
  {
    if |slacks| == 0 then []
    else
      var a := Min(slacks[0], overflow / (|slacks| as real));
      [a] + Amounts(slacks[1..], overflow - a)
  }

  /** `widget.height -= amount` for every child, and `row_height -= amount`. */
  function Lower(r: Row, amount: real): Row
  {
    Row(seq(|r.items|, j requires 0 <= j < |r.items| => r.items[j].(height := r.items[j].height - amount)),
        r.width, r.height - amount)
  }

  /** The loop over the sorted rows: the `k`-th visited row is lowered by
      the `k`-th amount. */
  function LowerRows(rows: seq<Row>, order: seq<nat>, amounts: seq<real>): (out: seq<Row>)
    requires |amounts| == |order|
    requires forall k :: 0 <= k < |order| ==> order[k] < |rows|
    ensures |out| == |rows|
    decreases |order|
  {
    if |order| == 0 then rows
    else LowerRows(rows[order[0] := Lower(rows[order[0]], amounts[0])], order[1..], amounts[1..])
  }

  /** The loop of the vertical pass over the rows in the visiting order
      `order`, absorbing `overflow`. */
  function Pass(rows: seq<Row>, order: seq<nat>, overflow: real): (out: seq<Row>)
    requires forall k :: 0 <= k < |order| ==> order[k] < |rows|
    ensures |out| == |rows|
  {
    LowerRows(rows, order, Amounts(Visit(RowSlacks(rows), order), overflow))
  }

  /** The vertical pass: nothing changes unless the rows are taller than
      `maxHeight`. */
  function ShrinkVertical(rows: seq<Row>, maxHeight: real): (out: seq<Row>)
    ensures |out| == |rows|
    ensures SumHeights(rows) <= maxHeight ==> out == rows
  {
    if SumHeights(rows) > maxHeight then
      OrderIsStableSort(Keys(rows));
      Pass(rows, Order(Keys(rows)), SumHeights(rows) - maxHeight)
    else rows
  }

  // ---------------------------------------------------------------------
  // The amounts

  lemma {:induction false} AmountsWithinSlack(slacks: seq<real>, overflow: real)
    ensures forall k :: 0 <= k < |slacks| ==> Amounts(slacks, overflow)[k] <= slacks[k]
    decreases |slacks|
  {
    if |slacks| > 0 {
      var a := Min(slacks[0], overflow / (|slacks| as real));
      AmountsWithinSlack(slacks[1..], overflow - a);
      var r := Amounts(slacks, overflow);
      forall k | 0 < k < |slacks|
        ensures r[k] <= slacks[k]
      {
        assert r[k] == Amounts(slacks[1..], overflow - a)[k - 1];
        assert slacks[k] == slacks[1..][k - 1];
      }
    }
  }

  /** A share of a non-negative overflow among `n` rows. */
  lemma {:induction false} Share(overflow: real, n: nat)
    requires overflow >= 0.0 && n >= 1
    ensures 0.0 <= overflow / (n as real) <= overflow
    ensures overflow - overflow / (n as real) == ((n - 1) as real) * (overflow / (n as real))
  {
    var t := overflow / (n as real);
    assert t * (n as real) == overflow;
  }

  /** The loop never takes more than the overflow in total, and the
      remaining overflow never goes negative. */
  lemma {:induction false} AmountsWithinOverflow(slacks: seq<real>, overflow: real)
    requires overflow >= 0.0
    ensures Total(Amounts(slacks, overflow)) <= overflow
    decreases |slacks|
  {
    if |slacks| > 0 {
      Share(overflow, |slacks|);
      var a := Min(slacks[0], overflow / (|slacks| as real));
      AmountsWithinOverflow(slacks[1..], overflow - a);
    }
  }

  predicate Ascending(s: seq<real>)
  {
    forall k, l :: 0 <= k < l < |s| ==> s[k] <= s[l]
  }

  lemma {:induction false} TotalAtLeast(s: seq<real>, t: real)
    requires forall k :: 0 <= k < |s| ==> s[k] >= t
    ensures Total(s) >= (|s| as real) * t
    decreases |s|
  {
    if |s| > 0 {
      assert forall k :: 0 <= k < |s[1..]| ==> s[1..][k] == s[k + 1];
      TotalAtLeast(s[1..], t);
    }
  }

  /** The first visited row takes no more than the overflow, and what it
      leaves fits into the slack of the rows after it. */
  lemma {:induction false} AbsorbHead(slacks: seq<real>, overflow: real) returns (a: real)
    requires |slacks| > 0 && Ascending(slacks)
    requires 0.0 <= overflow <= Total(slacks)
    ensures a == Min(slacks[0], overflow / (|slacks| as real))
    ensures 0.0 <= overflow - a <= Total(slacks[1..])
  {
    var n := |slacks|;
    var rest := slacks[1..];
    var t := overflow / (n as real);
    Share(overflow, n);
    a := Min(slacks[0], t);
    if slacks[0] >= t {
      forall k | 0 <= k < |rest|
        ensures rest[k] >= t
      {
        assert rest[k] == slacks[k + 1];
      }
      TotalAtLeast(rest, t);
    }
  }

  lemma {:induction false} AscendingTail(s: seq<real>)
    requires |s| > 0 && Ascending(s)
    ensures Ascending(s[1..])
  {
    var rest := s[1..];
    forall k, l | 0 <= k < l < |rest|
      ensures rest[k] <= rest[l]
    {
      assert rest[k] == s[k + 1] && rest[l] == s[l + 1];
    }
  }

  /** Water-filling: visiting the rows by ascending slack, the loop absorbs
      the whole overflow whenever the slacks add up to at least that much. */
  lemma {:induction false} AmountsAbsorb(slacks: seq<real>, overflow: real)
    requires Ascending(slacks)
    requires 0.0 <= overflow <= Total(slacks)
    ensures Total(Amounts(slacks, overflow)) == overflow
    decreases |slacks|
  {
    if |slacks| > 0 {
      var a := AbsorbHead(slacks, overflow);
      AscendingTail(slacks);
      AmountsAbsorb(slacks[1..], overflow - a);
    }
  }

  // ---------------------------------------------------------------------
  // Lowering the rows

  lemma {:induction false} SumHeightsUpdate(rows: seq<Row>, i: nat, r: Row)
    requires i < |rows|
    ensures SumHeights(rows[i := r]) == SumHeights(rows) - rows[i].height + r.height
    decreases |rows|
  {
    var n := |rows| - 1;
    if i < n {
      assert rows[i := r][..n] == rows[..n][i := r];
      SumHeightsUpdate(rows[..n], i, r);
    } else {
      assert rows[i := r][..n] == rows[..n];
    }
  }

  /** Each visit lowers the total height by the amount taken. */
  lemma {:induction false} LowerRowsTotal(rows: seq<Row>, order: seq<nat>, amounts: seq<real>)
    requires |amounts| == |order|
    requires forall k :: 0 <= k < |order| ==> order[k] < |rows|
    ensures SumHeights(LowerRows(rows, order, amounts)) == SumHeights(rows) - Total(amounts)
    decreases |order|
  {
    if |order| > 0 {
      var next := rows[order[0] := Lower(rows[order[0]], amounts[0])];
      SumHeightsUpdate(rows, order[0], Lower(rows[order[0]], amounts[0]));
      LowerRowsTotal(next, order[1..], amounts[1..]);
    }
  }

  /** A row the loop does not visit keeps its size. */
  lemma {:induction false} LowerRowsUntouched(rows: seq<Row>, order: seq<nat>, amounts: seq<real>, i: nat)
    requires |amounts| == |order|
    requires forall k :: 0 <= k < |order| ==> order[k] < |rows|
    requires i < |rows| && i !in order
    ensures LowerRows(rows, order, amounts)[i] == rows[i]
    decreases |order|
  {
    if |order| > 0 {
      var next := rows[order[0] := Lower(rows[order[0]], amounts[0])];
      assert i !in order[1..];
      LowerRowsUntouched(next, order[1..], amounts[1..], i);
    }
  }

  /** When the loop visits every row at most once, the `k`-th visited row
      ends lowered by exactly the `k`-th amount. */
  lemma {:induction false} LowerRowsLowered(rows: seq<Row>, order: seq<nat>, amounts: seq<real>)
    requires |amounts| == |order|
    requires forall k :: 0 <= k < |order| ==> order[k] < |rows|
    requires Distinct(order)
    ensures forall k :: 0 <= k < |order| ==>
      LowerRows(rows, order, amounts)[order[k]] == Lower(rows[order[k]], amounts[k])
    decreases |order|
  {
    if |order| > 0 {
      var next := rows[order[0] := Lower(rows[order[0]], amounts[0])];
      var tail := order[1..];
      assert Distinct(tail) by {
        forall k, l | 0 <= k < l < |tail|
          ensures tail[k] != tail[l]
        {
          assert tail[k] == order[k + 1] && tail[l] == order[l + 1];
        }
      }
      LowerRowsLowered(next, tail, amounts[1..]);
      assert order[0] !in tail by {
        forall k | 0 <= k < |tail|
          ensures tail[k] != order[0]
        {
          assert tail[k] == order[k + 1];
        }
      }
      LowerRowsUntouched(next, tail, amounts[1..], order[0]);
      var out := LowerRows(rows, order, amounts);
      forall k | 0 < k < |order|
        ensures out[order[k]] == Lower(rows[order[k]], amounts[k])
      {
        assert order[k] == tail[k - 1] && amounts[k] == amounts[1..][k - 1];
        assert next[order[k]] == rows[order[k]];
      }
    }
  }

  // ---------------------------------------------------------------------
  // Totals over the visiting order

  lemma {:induction false} TotalConcat(a: seq<real>, b: seq<real>)
    ensures Total(a + b) == Total(a) + Total(b)
    decreases |a|
  {
    if |a| > 0 {
      assert (a + b)[1..] == a[1..] + b;
      TotalConcat(a[1..], b);
    } else {
      assert a + b == b;
    }
  }

  lemma {:induction false} TotalRemove(v: seq<real>, j: nat)
    requires j < |v|
    ensures Total(v) == Total(v[..j] + v[j + 1..]) + v[j]
  {
    assert v == v[..j] + [v[j]] + v[j + 1..];
    TotalConcat(v[..j] + [v[j]], v[j + 1..]);
    TotalConcat(v[..j], [v[j]]);
    TotalConcat(v[..j], v[j + 1..]);
  }

  /** Visiting every row exactly once, in any order, adds up the same slack. */
  lemma {:induction false} TotalPermuted(f: seq<real>, order: seq<nat>)
    requires IsPermutation(order, |f|)
    ensures Total(Visit(f, order)) == Total(f)
    decreases |f|
  {
    var n := |f|;
    if n > 0 {
      var m := n - 1;
      var j := DropLast(order, n);
      var order' := Without(order, j);
      TotalPermuted(f[..m], order');
      var v := Visit(f, order);
      assert Visit(f[..m], order') == v[..j] + v[j + 1..];
      TotalRemove(v, j);
      TotalRemove(f, m);
      assert f[..m] + f[m + 1..] == f[..m];
    }
  }

  // ---------------------------------------------------------------------
  // The vertical pass

  /** The loop never takes off more than the overflow. */
  lemma {:induction false} PassNeverOvershoots(rows: seq<Row>, order: seq<nat>, overflow: real)
    requires forall k :: 0 <= k < |order| ==> order[k] < |rows|
    requires overflow >= 0.0
    ensures SumHeights(Pass(rows, order, overflow)) >= SumHeights(rows) - overflow
  {
    var slacks := Visit(RowSlacks(rows), order);
    AmountsWithinOverflow(slacks, overflow);
    LowerRowsTotal(rows, order, Amounts(slacks, overflow));
  }

  /** The pass never takes off more than the overflow: the rows end at
      least `maxHeight` tall in total. */
  lemma {:induction false} VerticalNeverOvershoots(rows: seq<Row>, maxHeight: real)
    requires SumHeights(rows) > maxHeight
    ensures SumHeights(ShrinkVertical(rows, maxHeight)) >= maxHeight
  {
    OrderPermutes(Keys(rows));
    PassNeverOvershoots(rows, Order(Keys(rows)), SumHeights(rows) - maxHeight);
  }

  /** Under a permutation, row `i` ends lowered by the amount of the
      position where the order visits it, which is at most its slack. */
  lemma {:induction false} PassLowered(rows: seq<Row>, order: seq<nat>, overflow: real, i: nat) returns (a: real)
    requires IsPermutation(order, |rows|)
    requires i < |rows|
    ensures a <= Slack(rows[i])
    ensures Pass(rows, order, overflow)[i] == Lower(rows[i], a)
  {
    var slacks := Visit(RowSlacks(rows), order);
    var amounts := Amounts(slacks, overflow);
    LowerRowsLowered(rows, order, amounts);
    assert i in order;
    var k :| 0 <= k < |order| && order[k] == i;
    assert amounts[k] <= slacks[k] by {
      AmountsWithinSlack(slacks, overflow);
    }
    a := amounts[k];
  }

  /** Row `i` is lowered once, children and row alike, by an amount no
      larger than its slack. */
  lemma {:induction false} RowLowered(rows: seq<Row>, maxHeight: real, i: nat) returns (a: real)
    requires SumHeights(rows) > maxHeight
    requires i < |rows|
    ensures a <= Slack(rows[i])
    ensures ShrinkVertical(rows, maxHeight)[i] == Lower(rows[i], a)
  {
    OrderPermutes(Keys(rows));
    a := PassLowered(rows, Order(Keys(rows)), SumHeights(rows) - maxHeight, i);
  }

  /** No row ends below its tallest minimum height. */
  lemma {:induction false} VerticalKeepsRowMinimum(rows: seq<Row>, maxHeight: real)
    requires SumHeights(rows) > maxHeight
    ensures forall i :: 0 <= i < |rows| ==>
      ShrinkVertical(rows, maxHeight)[i].height >= MinRowHeight(rows[i].items)
  {
    forall i | 0 <= i < |rows|
      ensures ShrinkVertical(rows, maxHeight)[i].height >= MinRowHeight(rows[i].items)
    {
      var a := RowLowered(rows, maxHeight, i);
      assert Lower(rows[i], a).height == rows[i].height - a;
    }
  }

  /** Distinct keys order the rows by strictly ascending slack. */
  lemma {:induction false} DistinctKeysAscend(rows: seq<Row>)
    requires forall i, j :: 0 <= i < j < |rows| ==> SlackKey(Slack(rows[i])) != SlackKey(Slack(rows[j]))
    ensures var order := Order(Keys(rows));
      (forall k :: 0 <= k < |order| ==> order[k] < |rows|)
      && Ascending(Visit(RowSlacks(rows), order))
  {
    var keys := Keys(rows);
    var order := Order(keys);
    OrderIsStableSort(keys);
    var s := Visit(RowSlacks(rows), order);
    forall k, l | 0 <= k < l < |s|
      ensures s[k] <= s[l]
    {
      var a := Slack(rows[order[k]]);
      var b := Slack(rows[order[l]]);
      if order[k] != order[l] {
        assert keys[order[k]] != keys[order[l]];
        assert SlackKey(a) < SlackKey(b);
        if a > b {
          TruncMonotone(b * 1000.0, a * 1000.0);
        }
      }
    }
  }

  /** Any visiting order with ascending slack absorbs an overflow the
      slacks can cover. */
  lemma {:induction false} PassAbsorbs(rows: seq<Row>, order: seq<nat>, overflow: real)
    requires IsPermutation(order, |rows|)
    requires Ascending(Visit(RowSlacks(rows), order))
    requires 0.0 <= overflow <= Total(RowSlacks(rows))
    ensures SumHeights(Pass(rows, order, overflow)) == SumHeights(rows) - overflow
  {
    var slacks := Visit(RowSlacks(rows), order);
    TotalPermuted(RowSlacks(rows), order);
    AmountsAbsorb(slacks, overflow);
    LowerRowsTotal(rows, order, Amounts(slacks, overflow));
  }

  /** When the rows' keys are pairwise distinct and their slacks add up to
      at least the overflow, the pass brings the total height down to
      exactly `maxHeight`. */
  lemma {:induction false} VerticalAbsorbs(rows: seq<Row>, maxHeight: real)
    requires SumHeights(rows) > maxHeight
    requires forall i, j :: 0 <= i < j < |rows| ==> SlackKey(Slack(rows[i])) != SlackKey(Slack(rows[j]))
    requires Total(RowSlacks(rows)) >= SumHeights(rows) - maxHeight
    ensures SumHeights(ShrinkVertical(rows, maxHeight)) == maxHeight
  {
    OrderPermutes(Keys(rows));
    DistinctKeysAscend(rows);
    PassAbsorbs(rows, Order(Keys(rows)), SumHeights(rows) - maxHeight);
  }

  /** When the keys already ascend from the first row to the last, the pass
      visits the rows top to bottom: row `i` is lowered by the `i`-th amount
      of the slacks taken in row order. */
  lemma {:induction false} VerticalInRowOrder(rows: seq<Row>, maxHeight: real)
    requires SumHeights(rows) > maxHeight
    requires forall i, j :: 0 <= i < j < |rows| ==> Keys(rows)[i] <= Keys(rows)[j]
    ensures var amounts := Amounts(RowSlacks(rows), SumHeights(rows) - maxHeight);
      forall i :: 0 <= i < |rows| ==> ShrinkVertical(rows, maxHeight)[i] == Lower(rows[i], amounts[i])
  {
    var keys := Keys(rows);
    var order := Order(keys);
    OrderOfAscendingKeys(keys);
    OrderPermutes(keys);
    VisitInPlace(RowSlacks(rows), order);
    var amounts := Amounts(RowSlacks(rows), SumHeights(rows) - maxHeight);
    assert ShrinkVertical(rows, maxHeight) == LowerRows(rows, order, amounts);
    LowerRowsLowered(rows, order, amounts);
    forall i | 0 <= i < |rows|
      ensures ShrinkVertical(rows, maxHeight)[i] == Lower(rows[i], amounts[i])
    {
      assert order[i] == i;
    }
  }

  /** The sort key keeps three decimals only: two rows whose slacks differ
      below a thousandth tie, the stable sort then visits the roomier one
      first, and its share of the overflow leaves more than the other row
      can give up — the pass ends above `maxHeight` although the slacks
      would have covered the overflow. */
  lemma {:induction false} TruncatedKeyLeavesOverflow()
    ensures var rows := [KeyTieRow(10.0015), KeyTieRow(10.001)];
      && Total(RowSlacks(rows)) >= SumHeights(rows) - 20.0
      && SumHeights(ShrinkVertical(rows, 20.0)) > 20.0
  {
    var rows := [KeyTieRow(10.0015), KeyTieRow(10.001)];
    KeyTieSlacks(rows);
    assert SumHeights(rows) == 20.0025 by {
      assert rows[..1] == [rows[0]];
    }
    var order := Order(Keys(rows));
    KeyTieOrder(Keys(rows));
    assert Visit(RowSlacks(rows), order) == [0.0015, 0.001];
    var amounts := Amounts([0.0015, 0.001], 0.0025);
    KeyTieAmounts();
    assert ShrinkVertical(rows, 20.0) == LowerRows(rows, order, amounts);
    LowerRowsTotal(rows, order, amounts);
  }

  lemma KeyTieSlacks(rows: seq<Row>)
    requires rows == [KeyTieRow(10.0015), KeyTieRow(10.001)]
    ensures RowSlacks(rows) == [0.0015, 0.001]
    ensures Keys(rows) == [1, 1]
  {
    assert rows[0].items[..0] == [];
    assert rows[1].items[..0] == [];
    assert MinRowHeight(rows[0].items) == 10.0;
    assert MinRowHeight(rows[1].items) == 10.0;
  }

  lemma KeyTieOrder(keys: seq<int>)
    requires keys == [1, 1]
    ensures Order(keys) == [0, 1]
  {
    var tag := Tag(keys);
    assert tag == [Entry(1, 0), Entry(1, 1)];
    assert tag[..1] == [Entry(1, 0)];
    assert tag[..1][..0] == [];
    assert Sort(tag[..1]) == [Entry(1, 0)];
    assert Sort(tag) == [Entry(1, 0), Entry(1, 1)];
  }

  lemma KeyTieAmounts()
    ensures Amounts([0.0015, 0.001], 0.0025) == [0.00125, 0.001]
    ensures Total([0.00125, 0.001]) == 0.00225
  {
    assert [0.0015, 0.001][1..] == [0.001];
    assert [0.001][1..] == [];
    assert Amounts([0.001], 0.00125) == [0.001];
    assert [0.00125, 0.001][1..] == [0.001];
  }

  /** A row holding one child of height `h` and minimum height 10. */
  function KeyTieRow(h: real): Row
  {
    Row([WidgetSize(0.0, 0.0, 0.0, 10.0, h, 20.0)], 0.0, h)
  }
}
