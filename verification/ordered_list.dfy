/** The editing algebra every admin editor applies to its list sections (projects,
    skills, philosophy cards, journey entries, education entries, certification
    groups, certificates, contact links). A record is an integer `id`, a display
    position `order`, and the section's own fields. Each operation acts on the list
    in display order, as the editors hold it after sorting by `order`. */
module OrderedList {
  import opened Seqs

  datatype Item<T> = Item(id: int, order: int, body: T)

  /** The ids of a list, position by position. */
  function Ids<T>(xs: seq<Item<T>>): (r: seq<int>)
    ensures |r| == |xs|
    ensures forall k :: 0 <= k < |xs| ==> r[k] == xs[k].id
  {
    seq(|xs|, k requires 0 <= k < |xs| => xs[k].id)
  }

  /** No two records share an id. */
  predicate UniqueIds<T>(xs: seq<Item<T>>)
  {
    forall a, b :: 0 <= a < b < |xs| ==> xs[a].id != xs[b].id
  }

  /** Every record's `order` is its position: the numbering `0..n-1` the editors
      re-derive after each insert, delete and move. */
  predicate Numbered<T>(xs: seq<Item<T>>)
  {
    forall k :: 0 <= k < |xs| ==> xs[k].order == k
  }

  /** The invariant every editor operation keeps. */
  predicate WellFormed<T>(xs: seq<Item<T>>)
  {
    UniqueIds(xs) && Numbered(xs)
  }

  /** Two records are the same entity with the same fields, whatever their position. */
  predicate SameRecord<T(==)>(a: Item<T>, b: Item<T>)
  {
    a.id == b.id && a.body == b.body
  }

  /** `Math.max(0, ...xs.map(x => x.id))`. */
  function MaxId<T>(xs: seq<Item<T>>): (m: int)
    ensures m >= 0
    ensures forall k :: 0 <= k < |xs| ==> xs[k].id <= m
    ensures m == 0 || exists k :: 0 <= k < |xs| && xs[k].id == m
  {
    var ids := Ids(xs);
    assert forall k :: 0 <= k < |xs| ==> ids[k] == xs[k].id;
    MaxOrZero(ids)
  }

  /** The id an editor gives a new record: one more than the largest id in use. */
  function FreshId<T>(xs: seq<Item<T>>): (n: int)
    ensures n >= 1
    ensures forall k :: 0 <= k < |xs| ==> xs[k].id < n
    ensures |xs| == 0 ==> n == 1
    ensures n == 1 || exists k :: 0 <= k < |xs| && xs[k].id == n - 1
  {
    MaxId(xs) + 1
  }

  /** Append a record with a fresh id at the end of the list, numbered with the old length. */
  function Add<T>(xs: seq<Item<T>>, body: T): (r: seq<Item<T>>)
    ensures |r| == |xs| + 1 && r[..|xs|] == xs
    ensures forall k :: 0 <= k < |xs| ==> xs[k].id < r[|xs|].id
    ensures r[|xs|].id >= 1 && r[|xs|].order == |xs| && r[|xs|].body == body
    ensures UniqueIds(xs) ==> UniqueIds(r)
    ensures Numbered(xs) ==> Numbered(r)
  {
    xs + [Item(FreshId(xs), |xs|, body)]
  }

  /** `xs.map((x, i) => ({ ...x, order: i }))`. */
  function Renumber<T>(xs: seq<Item<T>>): (r: seq<Item<T>>)
    ensures |r| == |xs| && Numbered(r)
    ensures forall k :: 0 <= k < |xs| ==> r[k].id == xs[k].id && r[k].body == xs[k].body
    ensures Ids(r) == Ids(xs)
  {
    seq(|xs|, k requires 0 <= k < |xs| => xs[k].(order := k))
  }

  /** A list that is already numbered is its own renumbering. */
  lemma RenumberNumbered<T>(xs: seq<Item<T>>)
    requires Numbered(xs)
    ensures Renumber(xs) == xs
  {
    var r := Renumber(xs);
    assert forall k :: 0 <= k < |xs| ==> r[k] == xs[k];
  }

  /** Drop position `i` and renumber the survivors. */
  function Remove<T>(xs: seq<Item<T>>, i: int): (r: seq<Item<T>>)
    ensures Numbered(r)
    ensures 0 <= i < |xs| ==> |r| == |xs| - 1
    ensures 0 <= i < |xs| ==> forall k :: 0 <= k < |r| ==>
      r[k].id == xs[if k < i then k else k + 1].id && r[k].body == xs[if k < i then k else k + 1].body
    ensures 0 <= i < |xs| ==> multiset(Ids(r)) + multiset{xs[i].id} == multiset(Ids(xs))
    ensures !(0 <= i < |xs|) ==> r == Renumber(xs)
    ensures UniqueIds(xs) ==> UniqueIds(r)
  {
    if 0 <= i < |xs| then
      WithoutItems(xs, i);
      Renumber(Without(xs, i))
    else
      Renumber(xs)
  }

  /** Dropping position `i`: the survivors shift down past `i`, the ids are dropped
      the same way, and distinct ids stay distinct. */
  lemma WithoutItems<T>(xs: seq<Item<T>>, i: nat)
    requires i < |xs|
    ensures forall k :: 0 <= k < |xs| - 1 ==> Without(xs, i)[k] == xs[if k < i then k else k + 1]
    ensures Ids(Without(xs, i)) == Without(Ids(xs), i)
    ensures UniqueIds(xs) ==> UniqueIds(Without(xs, i))
  {
    var ys := Without(xs, i);
    forall k | 0 <= k < |ys| ensures ys[k] == xs[if k < i then k else k + 1] {
      if k < i { assert ys[k] == ys[..i][k]; } else { assert ys[k] == ys[i..][k - i]; }
    }
    var a, b := Ids(ys), Without(Ids(xs), i);
    forall k | 0 <= k < |a| ensures a[k] == b[k] {
      if k < i { assert b[k] == b[..i][k]; } else { assert b[k] == b[i..][k - i]; }
    }
  }

  /** The list with positions `i` and `j` exchanged. */
  function Swap<T>(xs: seq<T>, i: nat, j: nat): (r: seq<T>)
    requires i < |xs| && j < |xs|
    ensures |r| == |xs| && r[i] == xs[j] && r[j] == xs[i]
    ensures forall k :: 0 <= k < |xs| && k != i && k != j ==> r[k] == xs[k]
    ensures multiset(r) == multiset(xs)
  {
    xs[i := xs[j]][j := xs[i]]
  }

  /** Move the record at `i` by `dir` places: swap it with its neighbour and renumber.
      A target outside the list leaves the list as it was. */
  function Move<T>(xs: seq<Item<T>>, i: nat, dir: int): (r: seq<Item<T>>)
    requires i < |xs|
    ensures !(0 <= i + dir < |xs|) ==> r == xs
    ensures 0 <= i + dir < |xs| ==> Numbered(r) && |r| == |xs|
    ensures 0 <= i + dir < |xs| ==> SameRecord(r[i + dir], xs[i]) && SameRecord(r[i], xs[i + dir])
    ensures 0 <= i + dir < |xs| ==> forall k :: 0 <= k < |xs| && k != i && k != i + dir ==> SameRecord(r[k], xs[k])
    ensures multiset(Ids(r)) == multiset(Ids(xs))
    ensures UniqueIds(xs) ==> UniqueIds(r)
  {
    var j := i + dir;
    if j < 0 || j >= |xs| then xs
    else
      var ys := Swap(xs, i, j);
      assert Ids(ys) == Swap(Ids(xs), i, j);
      Renumber(ys)
  }

  /** Replace the fields of the record at `i`, keeping its id and position. */
  function SetBody<T>(xs: seq<Item<T>>, i: nat, body: T): (r: seq<Item<T>>)
    requires i < |xs|
    ensures |r| == |xs| && r[i].body == body && r[i].id == xs[i].id && r[i].order == xs[i].order
    ensures forall k :: 0 <= k < |xs| && k != i ==> r[k] == xs[k]
    ensures Ids(r) == Ids(xs)
    ensures UniqueIds(xs) ==> UniqueIds(r)
    ensures Numbered(xs) ==> Numbered(r)
  {
    xs[i := xs[i].(body := body)]
  }

  /** Add, then remove the added record: the list comes back unchanged. */
  lemma RemoveAdded<T>(xs: seq<Item<T>>, body: T)
    requires Numbered(xs)
    ensures Remove(Add(xs, body), |xs|) == xs
  {
    var ys := Add(xs, body);
    var r := Remove(ys, |xs|);
    assert |r| == |xs|;
    forall k | 0 <= k < |xs| ensures r[k] == xs[k] {
      assert r[k].id == ys[k].id && ys[k] == xs[k];
    }
  }

  /** Moving a record back where it came from restores a numbered list. */
  lemma MoveBack<T>(xs: seq<Item<T>>, i: nat, dir: int)
    requires Numbered(xs) && i < |xs| && 0 <= i + dir < |xs|
    ensures Move(Move(xs, i, dir), i + dir, -dir) == xs
  {
    var ys := Move(xs, i, dir);
    var zs := Move(ys, i + dir, -dir);
    assert |zs| == |xs|;
    forall k | 0 <= k < |xs| ensures zs[k] == xs[k] {
      assert SameRecord(zs[k], xs[k]);
    }
  }

  /** Every editor operation keeps a well-formed list well-formed. */
  lemma OperationsKeepWellFormed<T>(xs: seq<Item<T>>, body: T, i: nat, dir: int)
    requires WellFormed(xs)
    ensures WellFormed(Add(xs, body))
    ensures WellFormed(Remove(xs, i))
    ensures i < |xs| ==> WellFormed(Move(xs, i, dir)) && WellFormed(SetBody(xs, i, body))
  {
  }

  /** The position of the first record with id `id`, or -1: `xs.findIndex(x => x.id === id)`. */
  function FindIndex<T>(xs: seq<Item<T>>, id: int): (k: int)
    ensures -1 <= k < |xs|
    ensures k == -1 <==> forall m :: 0 <= m < |xs| ==> xs[m].id != id
    ensures k >= 0 ==> xs[k].id == id && forall m :: 0 <= m < k ==> xs[m].id != id
  {
    if |xs| == 0 then -1
    else if xs[0].id == id then 0
    else
      var k := FindIndex(xs[1..], id);
      assert forall m :: 1 <= m < |xs| ==> xs[1..][m - 1] == xs[m];
      if k == -1 then -1 else k + 1
  }
}
