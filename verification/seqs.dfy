/** Small sequence helpers shared by every editor model. */
module Seqs {

  /** The usual Some/None wrapper, used for lookups that may find nothing. */
  datatype Option<+T> = None | Some(value: T)

  /** `xs` with position `i` dropped, as JavaScript's `xs.filter((_, k) => k !== i)`
      computes it: an index outside the sequence drops nothing. */
  function Without<T>(xs: seq<T>, i: int): (r: seq<T>)
    ensures 0 <= i < |xs| ==> |r| == |xs| - 1
    ensures 0 <= i < |xs| ==> r[..i] == xs[..i] && r[i..] == xs[i + 1..]
    ensures 0 <= i < |xs| ==> multiset(r) + multiset{xs[i]} == multiset(xs)
    ensures !(0 <= i < |xs|) ==> r == xs
  {
    if 0 <= i < |xs| then
      assert xs == xs[..i] + [xs[i]] + xs[i + 1..];
      xs[..i] + xs[i + 1..]
    else
      xs
  }

  /** `Math.max(0, ...ns)`: the largest number, or 0 when none is larger. */
  function MaxOrZero(ns: seq<int>): (m: int)
    ensures m >= 0
    ensures forall k :: 0 <= k < |ns| ==> ns[k] <= m
    ensures m == 0 || m in ns
  {
    if |ns| == 0 then 0
    else
      var m := MaxOrZero(ns[..|ns| - 1]);
      assert forall k :: 0 <= k < |ns| - 1 ==> ns[..|ns| - 1][k] == ns[k];
      assert m in ns[..|ns| - 1] ==> m in ns;
      if ns[|ns| - 1] > m then ns[|ns| - 1] else m
  }

  /** `xs.filter(keep)`: the elements that pass, in their original order. */
  function Filter<T>(xs: seq<T>, keep: T -> bool): (r: seq<T>)
    ensures |r| <= |xs|
    ensures forall k :: 0 <= k < |r| ==> keep(r[k]) && r[k] in xs
    ensures forall k :: 0 <= k < |xs| && keep(xs[k]) ==> xs[k] in r
  {
    if |xs| == 0 then []
    else
      var rest := Filter(xs[1..], keep);
      assert xs == [xs[0]] + xs[1..];
      if keep(xs[0]) then [xs[0]] + rest else rest
  }

  /** How often filtering keeps a value: as often as the input holds it when it
      passes, never otherwise. */
  lemma {:induction false} FilterCount<T>(xs: seq<T>, keep: T -> bool, x: T)
    ensures multiset(Filter(xs, keep))[x] == if keep(x) then multiset(xs)[x] else 0
    decreases |xs|
  {
    if |xs| > 0 {
      FilterCount(xs[1..], keep, x);
      assert xs == [xs[0]] + xs[1..];
    }
  }

  /** Lists holding the same elements as often filter to lists that do too. */
  lemma FilterSameMultiset<T>(xs: seq<T>, ys: seq<T>, keep: T -> bool)
    requires multiset(xs) == multiset(ys)
    ensures multiset(Filter(xs, keep)) == multiset(Filter(ys, keep))
  {
    forall x ensures multiset(Filter(xs, keep))[x] == multiset(Filter(ys, keep))[x] {
      FilterCount(xs, keep, x);
      FilterCount(ys, keep, x);
    }
  }

  /** Filtering never adds an element, nor repeats one. */
  lemma {:induction false} FilterSubMultiset<T>(xs: seq<T>, keep: T -> bool)
    ensures multiset(Filter(xs, keep)) <= multiset(xs)
    decreases |xs|
  {
    if |xs| > 0 {
      FilterSubMultiset(xs[1..], keep);
      assert xs == [xs[0]] + xs[1..];
    }
  }

  /** No element occurs twice. */
  predicate NoDuplicates<T(==)>(xs: seq<T>)
  {
    forall a, b :: 0 <= a < b < |xs| ==> xs[a] != xs[b]
  }
}
