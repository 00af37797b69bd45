/** Display order: `list.sort((a, b) => a.order - b.order)`. The model computes it
    with a stable insertion sort and states what callers rely on: the result is
    sorted by `order`, it is a permutation of the input, and an already sorted
    list comes back unchanged. */
module OrderSort {
  import opened Seqs
  import opened OrderedList

  predicate SortedByOrder<T>(xs: seq<Item<T>>)
  {
    forall a, b :: 0 <= a < b < |xs| ==> xs[a].order <= xs[b].order
  }

  /** Place `x` before the first element that does not sort strictly before it. */
  function Insert<T>(x: Item<T>, s: seq<Item<T>>): (r: seq<Item<T>>)
    requires SortedByOrder(s)
    ensures SortedByOrder(r)
    ensures multiset(r) == multiset(s) + multiset{x}
    ensures |r| == |s| + 1
  {
    if |s| == 0 || x.order <= s[0].order then
      ConsSorted(x, s);
      [x] + s
    else
      var t := Insert(x, s[1..]);
      BoundedPermutation(s[0].order, x, s[1..], t);
      ConsSorted(s[0], t);
      assert s == [s[0]] + s[1..];
      [s[0]] + t
  }

  /** A bound below `x` and below every element of `s` is below every element of
      any rearrangement of `s` with `x` added. */
  lemma BoundedPermutation<T>(lo: int, x: Item<T>, s: seq<Item<T>>, t: seq<Item<T>>)
    requires lo <= x.order && forall k :: 0 <= k < |s| ==> lo <= s[k].order
    requires multiset(t) == multiset(s) + multiset{x}
    ensures forall k :: 0 <= k < |t| ==> lo <= t[k].order
  {
    forall k | 0 <= k < |t| ensures lo <= t[k].order {
      assert t[k] in multiset(t);
      if t[k] != x {
        assert t[k] in multiset(s);
        var j :| 0 <= j < |s| && s[j] == t[k];
      }
    }
  }

  /** An element no later than any element of a sorted list can go in front of it. */
  lemma ConsSorted<T>(y: Item<T>, t: seq<Item<T>>)
    requires SortedByOrder(t) && forall k :: 0 <= k < |t| ==> y.order <= t[k].order
    ensures SortedByOrder([y] + t)
  {
    var r := [y] + t;
    forall a, b | 0 <= a < b < |r| ensures r[a].order <= r[b].order {
      assert r[b] == t[b - 1];
      if a > 0 {
        assert r[a] == t[a - 1];
      }
    }
  }

  /** The list in ascending `order`, as the view and the editors show it. */
  function Sort<T>(xs: seq<Item<T>>): (r: seq<Item<T>>)
    ensures SortedByOrder(r)
    ensures multiset(r) == multiset(xs)
    ensures |r| == |xs|
  {
    if |xs| == 0 then []
    else
      assert xs == [xs[0]] + xs[1..];
      Insert(xs[0], Sort(xs[1..]))
  }

  /** Sorting an already sorted list leaves it as it is (the sort is stable). */
  lemma {:induction false} SortSorted<T>(xs: seq<Item<T>>)
    requires SortedByOrder(xs)
    ensures Sort(xs) == xs
  {
    if |xs| > 0 {
      SortSorted(xs[1..]);
      assert xs == [xs[0]] + xs[1..];
    }
  }

  /** A numbered list is sorted, so the sort an editor applies on load returns a
      saved list unchanged. */
  lemma LoadAfterSave<T>(xs: seq<Item<T>>)
    requires Numbered(xs)
    ensures Sort(xs) == xs
  {
    SortSorted(xs);
  }

  /** A sort keeps exactly the elements it was given. */
  lemma SortSameElements<T>(xs: seq<Item<T>>)
    ensures forall p :: p in Sort(xs) <==> p in xs
  {
    var r := Sort(xs);
    forall p ensures p in r <==> p in xs {
      assert p in r <==> p in multiset(r);
      assert p in xs <==> p in multiset(xs);
    }
  }

  /** Keeping only some elements of a sorted list leaves it sorted. */
  lemma {:induction false} FilterSorted<T>(xs: seq<Item<T>>, keep: Item<T> -> bool)
    requires SortedByOrder(xs)
    ensures SortedByOrder(Filter(xs, keep))
    decreases |xs|
  {
    if |xs| > 0 {
      var tail := xs[1..];
      TailSorted(xs);
      FilterSorted(tail, keep);
      if keep(xs[0]) {
        FilterBounded(xs[0], tail, keep);
        ConsSorted(xs[0], Filter(tail, keep));
        FilterCons(xs, keep);
      }
    }
  }

  lemma TailSorted<T>(xs: seq<Item<T>>)
    requires SortedByOrder(xs) && |xs| > 0
    ensures SortedByOrder(xs[1..]) && forall k :: 0 <= k < |xs[1..]| ==> xs[0].order <= xs[1..][k].order
  {
    forall k | 0 <= k < |xs[1..]| ensures xs[0].order <= xs[1..][k].order {
      assert xs[1..][k] == xs[k + 1];
    }
  }

  /** A lower bound on a list is a lower bound on what filtering keeps of it. */
  lemma FilterBounded<T>(y: Item<T>, t: seq<Item<T>>, keep: Item<T> -> bool)
    requires forall k :: 0 <= k < |t| ==> y.order <= t[k].order
    ensures forall k :: 0 <= k < |Filter(t, keep)| ==> y.order <= Filter(t, keep)[k].order
  {
    var rest := Filter(t, keep);
    forall k | 0 <= k < |rest| ensures y.order <= rest[k].order {
      assert rest[k] in t;
    }
  }

  lemma FilterCons<T>(xs: seq<Item<T>>, keep: Item<T> -> bool)
    requires |xs| > 0 && keep(xs[0])
    ensures Filter(xs, keep) == [xs[0]] + Filter(xs[1..], keep)
  {
  }
}
