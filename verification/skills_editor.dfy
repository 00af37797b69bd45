/** The skills editor: one ordered list of skills, shown either whole or narrowed
    to one category. Rows of the narrowed view are mapped back to positions in the
    whole list by id before any handler runs. */
module SkillsEditor {
  import opened Seqs
  import opened OrderedList
  import opened OrderSort

  datatype Skill = Skill(name: string, icon: string, color: string, category: string)
  datatype SkillField = Name | Icon | Color | Category

  /** The filter value that shows every category. */
  const AllCategories: string := "All"

  function SkillGet(s: Skill, f: SkillField): string
  {
    match f
    case Name => s.name
    case Icon => s.icon
    case Color => s.color
    case Category => s.category
  }

  function SkillWith(s: Skill, f: SkillField, v: string): (q: Skill)
    ensures SkillGet(q, f) == v
    ensures forall g :: g != f ==> SkillGet(q, g) == SkillGet(s, g)
  {
    match f
    case Name => s.(name := v)
    case Icon => s.(icon := v)
    case Color => s.(color := v)
    case Category => s.(category := v)
  }

  /** `addSkill`: an unnamed skill in category `Other`, with the default icon and
      colour and a fresh id, appended. */
  function AddSkill(xs: seq<Item<Skill>>): (r: seq<Item<Skill>>)
    ensures |r| == |xs| + 1 && r[..|xs|] == xs
    ensures forall k :: 0 <= k < |xs| ==> xs[k].id < r[|xs|].id
    ensures r[|xs|].order == |xs| && r[|xs|].body == Skill("", "FaCode", "#64ffda", "Other")
    ensures WellFormed(xs) ==> WellFormed(r)
  {
    Add(xs, Skill("", "FaCode", "#64ffda", "Other"))
  }

  /** `updateSkill(index, field, value)`. */
  function UpdateSkill(xs: seq<Item<Skill>>, i: nat, f: SkillField, v: string): (r: seq<Item<Skill>>)
    requires i < |xs|
    ensures |r| == |xs| && r[i].id == xs[i].id && r[i].order == xs[i].order
    ensures SkillGet(r[i].body, f) == v
    ensures forall g :: g != f ==> SkillGet(r[i].body, g) == SkillGet(xs[i].body, g)
    ensures forall k :: 0 <= k < |xs| && k != i ==> r[k] == xs[k]
    ensures WellFormed(xs) ==> WellFormed(r)
  {
    SetBody(xs, i, SkillWith(xs[i].body, f, v))
  }

  /** `removeSkill(index)`. */
  function RemoveSkill(xs: seq<Item<Skill>>, i: int): (r: seq<Item<Skill>>)
    ensures Numbered(r)
    ensures 0 <= i < |xs| ==> |r| == |xs| - 1
    ensures 0 <= i < |xs| ==> forall k :: 0 <= k < |r| ==> SameRecord(r[k], xs[if k < i then k else k + 1])
    ensures WellFormed(xs) ==> WellFormed(r)
  {
    Remove(xs, i)
  }

  /** `moveSkill(index, dir)`: swaps with the neighbour in the whole list. */
  function MoveSkill(xs: seq<Item<Skill>>, i: nat, dir: int): (r: seq<Item<Skill>>)
    requires i < |xs|
    ensures !(0 <= i + dir < |xs|) ==> r == xs
    ensures 0 <= i + dir < |xs| ==>
      (|r| == |xs| && Numbered(r) && SameRecord(r[i + dir], xs[i]) && SameRecord(r[i], xs[i + dir]))
    ensures 0 <= i + dir < |xs| ==> forall k :: 0 <= k < |xs| && k != i && k != i + dir ==> SameRecord(r[k], xs[k])
    ensures multiset(Ids(r)) == multiset(Ids(xs))
    ensures WellFormed(xs) ==> WellFormed(r)
  {
    Move(xs, i, dir)
  }

  function InCategory(category: string): Item<Skill> -> bool
  {
    (s: Item<Skill>) => s.body.category == category
  }

  /** The list the handlers act on once the editor has rendered with `filter`: the
      unfiltered view sorts the state array itself, a category view sorts a copy. */
  function Rendered(xs: seq<Item<Skill>>, filter: string): (r: seq<Item<Skill>>)
    ensures multiset(r) == multiset(xs) && |r| == |xs|
    ensures filter == AllCategories ==> SortedByOrder(r)
    ensures filter != AllCategories ==> r == xs
    ensures Numbered(xs) ==> r == xs
  {
    if filter == AllCategories then
      if Numbered(xs) then LoadAfterSave(xs); Sort(xs) else Sort(xs)
    else xs
  }

  /** The rows the editor shows for `filter`, in ascending `order`. */
  function View(xs: seq<Item<Skill>>, filter: string): (v: seq<Item<Skill>>)
    ensures SortedByOrder(v)
    ensures filter == AllCategories ==> forall s :: s in v <==> s in xs
    ensures filter != AllCategories ==> forall s :: s in v <==> s in xs && s.body.category == filter
    ensures filter == AllCategories ==> v == Rendered(xs, filter)
  {
    if filter == AllCategories then
      SortMembers(xs);
      Sort(xs)
    else
      var kept := Filter(xs, InCategory(filter));
      SortSameElements(kept);
      CategoryMembers(xs, filter);
      Sort(kept)
  }

  lemma SortMembers(xs: seq<Item<Skill>>)
    ensures forall s :: s in Sort(xs) <==> s in xs
  {
    var r := Sort(xs);
    forall s ensures s in r <==> s in xs {
      assert s in r <==> s in multiset(r);
    }
  }

  lemma CategoryMembers(xs: seq<Item<Skill>>, filter: string)
    ensures forall s :: s in Filter(xs, InCategory(filter)) <==> s in xs && s.body.category == filter
  {
    var kept := Filter(xs, InCategory(filter));
    forall s | s in xs && s.body.category == filter ensures s in kept {
      var k :| 0 <= k < |xs| && xs[k] == s;
      assert InCategory(filter)(xs[k]);
    }
    forall s | s in kept ensures s in xs && s.body.category == filter {
      var k :| 0 <= k < |kept| && kept[k] == s;
      assert InCategory(filter)(kept[k]);
    }
  }

  /** `realIndex`: where the row shown at `pos` sits in the list the handlers act on. */
  function RealIndex(xs: seq<Item<Skill>>, filter: string, pos: nat): (k: nat)
    requires pos < |View(xs, filter)|
    ensures k < |xs| && Rendered(xs, filter)[k].id == View(xs, filter)[pos].id
    ensures forall m :: 0 <= m < k ==> Rendered(xs, filter)[m].id != View(xs, filter)[pos].id
  {
    var st := Rendered(xs, filter);
    var row := View(xs, filter)[pos];
    assert row in xs;
    assert row in multiset(st);
    var k := FindIndex(st, row.id);
    k
  }

  /** With unique ids, the record found by id is exactly the row the user edits. */
  lemma RealIndexIsRow(xs: seq<Item<Skill>>, filter: string, pos: nat)
    requires UniqueIds(xs) && pos < |View(xs, filter)|
    ensures Rendered(xs, filter)[RealIndex(xs, filter, pos)] == View(xs, filter)[pos]
  {
    var st := Rendered(xs, filter);
    var row := View(xs, filter)[pos];
    var found := st[RealIndex(xs, filter, pos)];
    assert found in multiset(st);
    SameIdSameRecord(xs, found, row);
  }

  lemma SameIdSameRecord(xs: seq<Item<Skill>>, p: Item<Skill>, q: Item<Skill>)
    requires UniqueIds(xs) && p in multiset(xs) && q in xs && p.id == q.id
    ensures p == q
  {
    var a :| 0 <= a < |xs| && xs[a] == p;
    var b :| 0 <= b < |xs| && xs[b] == q;
  }

  /** An edit typed into the row at `pos` of the view changes that record, and only
      the one field. */
  function EditFromView(xs: seq<Item<Skill>>, filter: string, pos: nat, f: SkillField, v: string): (r: seq<Item<Skill>>)
    requires pos < |View(xs, filter)|
    ensures var st := Rendered(xs, filter); var k := RealIndex(xs, filter, pos);
      && |r| == |st| && r[k].id == View(xs, filter)[pos].id
      && SkillGet(r[k].body, f) == v
      && (forall g :: g != f ==> SkillGet(r[k].body, g) == SkillGet(st[k].body, g))
      && (forall m :: 0 <= m < |st| && m != k ==> r[m] == st[m])
  {
    UpdateSkill(Rendered(xs, filter), RealIndex(xs, filter, pos), f, v)
  }

  /** The up and down arrows of the row at `pos` move that record within the whole list. */
  function MoveFromView(xs: seq<Item<Skill>>, filter: string, pos: nat, dir: int): (r: seq<Item<Skill>>)
    requires pos < |View(xs, filter)|
    ensures var st := Rendered(xs, filter); var k := RealIndex(xs, filter, pos);
      && multiset(Ids(r)) == multiset(Ids(st))
      && (0 <= k + dir < |st| ==> |r| == |st| && SameRecord(r[k + dir], st[k]) && SameRecord(r[k], st[k + dir]))
      && (0 <= k + dir < |st| ==> forall m :: 0 <= m < |st| && m != k && m != k + dir ==> SameRecord(r[m], st[m]))
      && (!(0 <= k + dir < |st|) ==> r == st)
  {
    MoveSkill(Rendered(xs, filter), RealIndex(xs, filter, pos), dir)
  }

  /** Filtering three records of which the middle one fails the test. */
  lemma FilterMiddleOut<T>(a: T, b: T, c: T, keep: T -> bool)
    requires keep(a) && !keep(b) && keep(c)
    ensures Filter([a, b, c], keep) == [a, c]
  {
    assert [c][1..] == [];
    assert Filter([c], keep) == [c];
    assert [b, c][1..] == [c];
    assert Filter([b, c], keep) == [c];
    assert [a, b, c][1..] == [b, c];
  }

  /** Filtering three records of which the first one fails the test. */
  lemma FilterFirstOut<T>(a: T, b: T, c: T, keep: T -> bool)
    requires !keep(a) && keep(b) && keep(c)
    ensures Filter([a, b, c], keep) == [b, c]
  {
    assert [c][1..] == [];
    assert Filter([c], keep) == [c];
    assert [b, c][1..] == [c];
    assert [a, b, c][1..] == [b, c];
  }

  /** A category view of three records, the middle one in another category. */
  lemma ViewMiddleOut(a: Item<Skill>, b: Item<Skill>, c: Item<Skill>, cat: string)
    requires cat != AllCategories && a.order <= c.order
    requires a.body.category == cat && b.body.category != cat && c.body.category == cat
    ensures View([a, b, c], cat) == [a, c]
  {
    FilterMiddleOut(a, b, c, InCategory(cat));
    SortSorted([a, c]);
  }

  /** A category view of three records, the first one in another category. */
  lemma ViewFirstOut(a: Item<Skill>, b: Item<Skill>, c: Item<Skill>, cat: string)
    requires cat != AllCategories && b.order <= c.order
    requires a.body.category != cat && b.body.category == cat && c.body.category == cat
    ensures View([a, b, c], cat) == [b, c]
  {
    FilterFirstOut(a, b, c, InCategory(cat));
    SortSorted([b, c]);
  }

  /** In a category view the arrows swap with the neighbour in the whole list, which
      may belong to another category: with skills of categories `cat`, other, `cat`,
      moving the first row of the `cat` view down exchanges it with the hidden
      middle skill, and the `cat` view keeps its order. */
  lemma MoveInCategoryCanLeaveViewUnchanged(a: Skill, b: Skill, c: Skill, cat: string)
    requires cat != AllCategories && a.category == cat && b.category != cat && c.category == cat
    ensures var xs := [Item(1, 0, a), Item(2, 1, b), Item(3, 2, c)];
      && View(xs, cat) == [xs[0], xs[2]]
      && RealIndex(xs, cat, 0) == 0
      && View(MoveFromView(xs, cat, 0, 1), cat) == [xs[0].(order := 1), xs[2]]
  {
    var xs := [Item(1, 0, a), Item(2, 1, b), Item(3, 2, c)];
    ViewMiddleOut(xs[0], xs[1], xs[2], cat);
    assert [xs[0], xs[1], xs[2]] == xs;
    FirstRowIsFirst(xs, cat);
    MoveFirstDown(xs, cat);
    var r := MoveFromView(xs, cat, 0, 1);
    ViewFirstOut(r[0], r[1], r[2], cat);
    assert [r[0], r[1], r[2]] == r;
  }

  /** The first row of that view is found at position 0. */
  lemma FirstRowIsFirst(xs: seq<Item<Skill>>, cat: string)
    requires |xs| == 3 && cat != AllCategories && View(xs, cat) == [xs[0], xs[2]]
    ensures RealIndex(xs, cat, 0) == 0
  {
  }

  /** Moving the first record down by one swaps it with the second and renumbers. */
  lemma MoveFirstDown(xs: seq<Item<Skill>>, cat: string)
    requires |xs| == 3 && cat != AllCategories && 0 < |View(xs, cat)|
    requires xs[0].order == 0 && xs[1].order == 1 && xs[2].order == 2
    requires RealIndex(xs, cat, 0) == 0
    ensures MoveFromView(xs, cat, 0, 1) == [xs[1].(order := 0), xs[0].(order := 1), xs[2]]
  {
    assert Rendered(xs, cat) == xs;
    MoveFirstOfThree(xs);
  }

  lemma MoveFirstOfThree<T>(xs: seq<Item<T>>)
    requires |xs| == 3
    ensures Move(xs, 0, 1) == [xs[1].(order := 0), xs[0].(order := 1), xs[2].(order := 2)]
  {
    var r := Move(xs, 0, 1);
    assert r[0] == xs[1].(order := 0);
    assert r[1] == xs[0].(order := 1);
    assert r[2] == xs[2].(order := 2);
  }
}
