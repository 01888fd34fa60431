/** The visiting orders that `sort_by_key` produces: the vertical pass of the
    flexbox sorts its rows by slack (src/containers/flexbox.rs:137), the
    integer flexbox sorts its children by shrinkable width
    (fgui/src/containers/flexbox.rs:90). `sort_by_key` is a stable sort, so
    the items are visited by ascending key and, among equal keys, in their
    original order. */
module StableOrder {

  /** An item, known by its index, tagged with its sort key. */
  datatype Entry = Entry(key: int, index: nat)

  /** `a` comes before `b` in a stable sort of items tagged in order. */
  predicate Before(a: Entry, b: Entry)
  {
    a.key < b.key || (a.key == b.key && a.index < b.index)
  }

  predicate Sorted(t: seq<Entry>)
  {
    forall i, j :: 0 <= i < j < |t| ==> Before(t[i], t[j])
  }

  /** Each item tagged with its own key. */
  function Tag(keys: seq<int>): (t: seq<Entry>)
    ensures |t| == |keys|
    ensures forall i :: 0 <= i < |keys| ==> t[i] == Entry(keys[i], i)
  {
    seq(|keys|, i requires 0 <= i < |keys| => Entry(keys[i], i))
  }

  /** Insertion of `e` into a sorted run, after every entry whose key is not
      larger: the step of a stable insertion sort. */
  function Insert(t: seq<Entry>, e: Entry): (r: seq<Entry>)
    ensures |r| == |t| + 1
    decreases |t|
  {
    if |t| == 0 || t[|t| - 1].key <= e.key then t + [e]
    else Insert(t[..|t| - 1], e) + [t[|t| - 1]]
  }

  /** Stable insertion sort by key. */
  function Sort(s: seq<Entry>): (r: seq<Entry>)
    ensures |r| == |s|
    decreases |s|
  {
    if |s| == 0 then [] else Insert(Sort(s[..|s| - 1]), s[|s| - 1])
  }

  /** Insertion adds exactly `e`. */
  lemma {:induction false} InsertPermutes(t: seq<Entry>, e: Entry)
    ensures multiset(Insert(t, e)) == multiset(t) + multiset{e}
    decreases |t|
  {
    if |t| > 0 && t[|t| - 1].key > e.key {
      var n := |t| - 1;
      assert t == t[..n] + [t[n]];
      InsertPermutes(t[..n], e);
    }
  }

  /** Sorting permutes its input. */
  lemma {:induction false} SortPermutes(s: seq<Entry>)
    ensures multiset(Sort(s)) == multiset(s)
    decreases |s|
  {
    if |s| > 0 {
      var n := |s| - 1;
      assert s == s[..n] + [s[n]];
      SortPermutes(s[..n]);
      InsertPermutes(Sort(s[..n]), s[n]);
    }
  }

  /** The items in the order a stable sort by key visits them. */
  function Order(keys: seq<int>): (order: seq<nat>)
    ensures |order| == |keys|
  {
    var t := Sort(Tag(keys));
    seq(|t|, k requires 0 <= k < |t| => t[k].index)
  }

  /** Appending an entry that comes after the last one keeps a run sorted. */
  lemma {:induction false} AppendSorted(t: seq<Entry>, e: Entry)
    requires Sorted(t)
    requires forall x :: x in t ==> x.index < e.index
    requires |t| == 0 || t[|t| - 1].key <= e.key
    ensures Sorted(t + [e])
  {
    var r := t + [e];
    forall i, j | 0 <= i < j < |r|
      ensures Before(r[i], r[j])
    {
      if j == |t| {
        assert r[i] == t[i] && t[i] in t;
        if i < |t| - 1 {
          assert Before(t[i], t[|t| - 1]);
        }
      } else {
        assert r[i] == t[i] && r[j] == t[j];
      }
    }
  }

  /** The last entry of a sorted run still comes last after `e` is inserted
      before it. */
  lemma {:induction false} InsertBeforeLast(t: seq<Entry>, e: Entry)
    requires |t| > 0 && Sorted(t) && t[|t| - 1].key > e.key
    requires Sorted(Insert(t[..|t| - 1], e))
    ensures Sorted(Insert(t, e))
  {
    var n := |t| - 1;
    var front := Insert(t[..n], e);
    InsertPermutes(t[..n], e);
    var r := front + [t[n]];
    assert Insert(t, e) == r;
    forall i, j | 0 <= i < j < |r|
      ensures Before(r[i], r[j])
    {
      if j == n + 1 {
        var x := r[i];
        assert x == front[i];
        assert x in multiset(front);
        if x != e {
          assert x in multiset(t[..n]);
          var k :| 0 <= k < n && t[..n][k] == x;
          assert Before(t[k], t[n]);
        }
      } else {
        assert r[i] == front[i] && r[j] == front[j];
      }
    }
  }

  lemma {:induction false} InsertSorted(t: seq<Entry>, e: Entry)
    requires Sorted(t)
    requires forall x :: x in t ==> x.index < e.index
    ensures Sorted(Insert(t, e))
    decreases |t|
  {
    if |t| == 0 || t[|t| - 1].key <= e.key {
      AppendSorted(t, e);
    } else {
      var n := |t| - 1;
      assert Sorted(t[..n]) by {
        forall i, j | 0 <= i < j < n
          ensures Before(t[..n][i], t[..n][j])
        {
          assert t[..n][i] == t[i] && t[..n][j] == t[j];
        }
      }
      forall x | x in t[..n]
        ensures x.index < e.index
      {
        assert x in t;
      }
      InsertSorted(t[..n], e);
      InsertBeforeLast(t, e);
    }
  }

  /** Rows tagged in increasing order. */
  predicate IndicesIncreasing(s: seq<Entry>)
  {
    forall i, j :: 0 <= i < j < |s| ==> s[i].index < s[j].index
  }

  lemma {:induction false} SortSorted(s: seq<Entry>)
    requires IndicesIncreasing(s)
    ensures Sorted(Sort(s))
    decreases |s|
  {
    if |s| > 0 {
      var n := |s| - 1;
      var front := s[..n];
      assert IndicesIncreasing(front) by {
        forall i, j | 0 <= i < j < |front|
          ensures front[i].index < front[j].index
        {
          assert front[i] == s[i] && front[j] == s[j];
        }
      }
      assert forall k :: 0 <= k < |front| ==> front[k].index < s[n].index by {
        forall k | 0 <= k < |front|
          ensures front[k].index < s[n].index
        {
          assert front[k] == s[k];
        }
      }
      SortSorted(front);
      SortBelow(front, s[n]);
      InsertSorted(Sort(front), s[n]);
    }
  }

  /** Sorting brings in no entry: what bounds the indices of the input
      bounds those of the output. */
  lemma {:induction false} SortBelow(s: seq<Entry>, e: Entry)
    requires forall k :: 0 <= k < |s| ==> s[k].index < e.index
    ensures forall x :: x in Sort(s) ==> x.index < e.index
  {
    SortPermutes(s);
    forall x | x in Sort(s)
      ensures x.index < e.index
    {
      assert x in multiset(Sort(s));
      assert x in s;
      var k :| 0 <= k < |s| && s[k] == x;
    }
  }

  /** Every sorted entry is one of the tagged items. */
  lemma {:induction false} SortedTags(keys: seq<int>)
    ensures forall k :: 0 <= k < |keys| ==>
      Sort(Tag(keys))[k].index < |keys| && Sort(Tag(keys))[k].key == keys[Sort(Tag(keys))[k].index]
  {
    var tag := Tag(keys);
    var t := Sort(tag);
    SortPermutes(tag);
    forall k | 0 <= k < |t|
      ensures t[k].index < |keys| && t[k].key == keys[t[k].index]
    {
      assert t[k] in multiset(tag);
    }
  }

  /** Every item appears in the visit order. */
  lemma {:induction false} OrderCovers(keys: seq<int>)
    ensures forall i :: 0 <= i < |keys| ==> i in Order(keys)
  {
    var tag := Tag(keys);
    var t := Sort(tag);
    var order := Order(keys);
    SortPermutes(tag);
    forall i | 0 <= i < |keys|
      ensures i in order
    {
      assert tag[i] in multiset(t);
      var k :| 0 <= k < |t| && t[k] == tag[i];
      assert order[k] == i;
    }
  }

  /** A strictly increasing run of `n` indices below `n` is `0, 1, ..., n - 1`. */
  lemma {:induction false} IncreasingFrom(s: seq<nat>, k: nat)
    requires k < |s|
    requires forall a, b :: 0 <= a < b < |s| ==> s[a] < s[b]
    ensures s[k] >= k
    decreases k
  {
    if k > 0 {
      IncreasingFrom(s, k - 1);
    }
  }

  lemma {:induction false} IncreasingBelow(s: seq<nat>, n: nat, k: nat)
    requires k < |s| == n
    requires forall a :: 0 <= a < |s| ==> s[a] < n
    requires forall a, b :: 0 <= a < b < |s| ==> s[a] < s[b]
    ensures s[k] <= k
    decreases n - k
  {
    if k + 1 < n {
      IncreasingBelow(s, n, k + 1);
    }
  }

  /** Keys already in ascending order leave the items in their own order. */
  lemma {:induction false} OrderOfAscendingKeys(keys: seq<int>)
    requires forall i, j :: 0 <= i < j < |keys| ==> keys[i] <= keys[j]
    ensures forall k :: 0 <= k < |keys| ==> Order(keys)[k] == k
  {
    var order := Order(keys);
    OrderIsStableSort(keys);
    assert forall a, b :: 0 <= a < b < |order| ==> order[a] < order[b];
    forall k | 0 <= k < |keys|
      ensures order[k] == k
    {
      IncreasingFrom(order, k);
      IncreasingBelow(order, |keys|, k);
    }
  }

  /** The visit order is a permutation of the items, sorted by key, with ties
      kept in index order — exactly what a stable sort by key yields. */
  lemma {:induction false} OrderIsStableSort(keys: seq<int>)
    ensures var order := Order(keys);
      && (forall k :: 0 <= k < |order| ==> order[k] < |keys|)
      && (forall i :: 0 <= i < |keys| ==> i in order)
      && (forall k, l :: 0 <= k < l < |order| ==>
            keys[order[k]] < keys[order[l]]
            || (keys[order[k]] == keys[order[l]] && order[k] < order[l]))
  {
    var t := Sort(Tag(keys));
    var order := Order(keys);
    SortedTags(keys);
    OrderCovers(keys);
    assert Sorted(t) by {
      SortSorted(Tag(keys));
    }
    forall k, l | 0 <= k < l < |order|
      ensures keys[order[k]] < keys[order[l]]
            || (keys[order[k]] == keys[order[l]] && order[k] < order[l])
    {
      assert Before(t[k], t[l]);
    }
  }

  // ---------------------------------------------------------------------
  // Permutations of indices

  /** No index is listed twice. */
  predicate Distinct(order: seq<nat>)
  {
    forall k, l :: 0 <= k < l < |order| ==> order[k] != order[l]
  }

  /** `order` lists each of `0 .. n-1` exactly once. */
  predicate IsPermutation(order: seq<nat>, n: nat)
  {
    && |order| == n
    && (forall k :: 0 <= k < |order| ==> order[k] < n)
    && (forall i :: 0 <= i < n ==> i in order)
    && Distinct(order)
  }

  /** `order` with its `j`-th entry taken out. */
  function Without(order: seq<nat>, j: nat): (r: seq<nat>)
    requires j < |order|
    ensures |r| == |order| - 1
    ensures forall k :: 0 <= k < j ==> r[k] == order[k]
    ensures forall k :: j <= k < |r| ==> r[k] == order[k + 1]
  {
    order[..j] + order[j + 1..]
  }

  lemma {:induction false} WithoutDistinct(order: seq<nat>, j: nat)
    requires j < |order| && Distinct(order)
    ensures Distinct(Without(order, j))
  {
    var r := Without(order, j);
    forall k, l | 0 <= k < l < |r|
      ensures r[k] != r[l]
    {
      var k' := if k < j then k else k + 1;
      var l' := if l < j then l else l + 1;
      assert r[k] == order[k'] && r[l] == order[l'];
    }
  }

  lemma {:induction false} WithoutBelow(order: seq<nat>, j: nat, n: nat)
    requires j < |order| && Distinct(order)
    requires forall k :: 0 <= k < |order| ==> order[k] < n
    requires order[j] == n - 1
    ensures forall k :: 0 <= k < |Without(order, j)| ==> Without(order, j)[k] < n - 1
  {
    var r := Without(order, j);
    forall k | 0 <= k < |r|
      ensures r[k] < n - 1
    {
      var k' := if k < j then k else k + 1;
      assert r[k] == order[k'] && k' != j;
    }
  }

  lemma {:induction false} WithoutCovers(order: seq<nat>, j: nat, n: nat)
    requires j < |order|
    requires forall i :: 0 <= i < n ==> i in order
    requires order[j] == n - 1
    ensures forall i :: 0 <= i < n - 1 ==> i in Without(order, j)
  {
    var r := Without(order, j);
    forall i | 0 <= i < n - 1
      ensures i in r
    {
      assert i in order;
      var p :| 0 <= p < |order| && order[p] == i;
      if p < j { assert r[p] == i; } else { assert r[p - 1] == i; }
    }
  }

  /** Taking the last index out of a permutation leaves a permutation of
      the indices below it. */
  lemma {:induction false} DropLast(order: seq<nat>, n: nat) returns (j: nat)
    requires n > 0 && IsPermutation(order, n)
    ensures j < n && order[j] == n - 1
    ensures IsPermutation(Without(order, j), n - 1)
  {
    assert n - 1 in order;
    j :| 0 <= j < n && order[j] == n - 1;
    WithoutDistinct(order, j);
    WithoutBelow(order, j, n);
    WithoutCovers(order, j, n);
  }

  /** `f` read in the order `order`. */
  function Visit<T>(f: seq<T>, order: seq<nat>): (v: seq<T>)
    requires forall k :: 0 <= k < |order| ==> order[k] < |f|
    ensures |v| == |order|
    ensures forall k :: 0 <= k < |order| ==> v[k] == f[order[k]]
  {
    seq(|order|, k requires 0 <= k < |order| => f[order[k]])
  }
  /** Visiting every position where it stands changes nothing. */
  lemma VisitInPlace<T>(f: seq<T>, order: seq<nat>)
    requires |order| == |f| && forall k :: 0 <= k < |order| ==> order[k] == k
    ensures Visit(f, order) == f
  {
  }


  /** The visit order takes every index exactly once. */
  lemma {:induction false} OrderPermutes(keys: seq<int>)
    ensures IsPermutation(Order(keys), |keys|)
  {
    var order := Order(keys);
    OrderIsStableSort(keys);
    forall k, l | 0 <= k < l < |order|
      ensures order[k] != order[l]
    {
    }
  }
}
