/** The projects editor: the ordered-list operations on project records, the
    "at most one featured" toggle, image paths appended from an upload, and the
    chip-style tag input with its per-project pending text. Every handler is one
    sequential transition of the editor state. */
module ProjectsEditor {
  import opened Seqs
  import opened Text
  import opened OrderedList

  datatype Project = Project(
    featured: bool,
    title: string,
    description: string,
    images: seq<string>,
    tags: seq<string>,
    github: string,
    live: string)

  /** The text fields the form edits through `updateProject(index, field, value)`. */
  datatype TextField = Title | Description | Github | Live

  /** The editor's state: the projects in display order, and the pending text of
      each project's tag input, keyed by the project's position. */
  datatype Editor = Editor(projects: seq<Item<Project>>, tagInputs: map<int, string>)

  /** A fresh project: not featured, no images, no tags, every text field empty. */
  const Blank := Project(false, "", "", [], [], "", "")

  function Field(p: Project, f: TextField): string
  {
    match f
    case Title => p.title
    case Description => p.description
    case Github => p.github
    case Live => p.live
  }

  /** `{ ...p, [field]: value }` for one text field. */
  function WithField(p: Project, f: TextField, v: string): (q: Project)
    ensures Field(q, f) == v
    ensures forall g :: g != f ==> Field(q, g) == Field(p, g)
    ensures q.featured == p.featured && q.images == p.images && q.tags == p.tags
  {
    match f
    case Title => p.(title := v)
    case Description => p.(description := v)
    case Github => p.(github := v)
    case Live => p.(live := v)
  }

  /** At most one project is featured. */
  predicate AtMostOneFeatured(ps: seq<Item<Project>>)
  {
    forall a, b :: 0 <= a < |ps| && 0 <= b < |ps| && ps[a].body.featured && ps[b].body.featured ==> a == b
  }

  /** `addProject`: a blank project with a fresh id, appended and numbered with the old length. */
  function AddProject(ps: seq<Item<Project>>): (r: seq<Item<Project>>)
    ensures |r| == |ps| + 1 && r[..|ps|] == ps
    ensures forall k :: 0 <= k < |ps| ==> ps[k].id < r[|ps|].id
    ensures |ps| == 0 ==> r[0].id == 1
    ensures r[|ps|].order == |ps|
    ensures !r[|ps|].body.featured && r[|ps|].body.images == [] && r[|ps|].body.tags == []
    ensures forall f :: Field(r[|ps|].body, f) == ""
    ensures WellFormed(ps) ==> WellFormed(r)
    ensures AtMostOneFeatured(ps) ==> AtMostOneFeatured(r)
  {
    Add(ps, Blank)
  }

  /** `updateProject(index, field, value)`: one text field of one project. */
  function UpdateProject(ps: seq<Item<Project>>, i: nat, f: TextField, v: string): (r: seq<Item<Project>>)
    requires i < |ps|
    ensures |r| == |ps| && r[i].id == ps[i].id && r[i].order == ps[i].order
    ensures Field(r[i].body, f) == v
    ensures forall g :: g != f ==> Field(r[i].body, g) == Field(ps[i].body, g)
    ensures r[i].body.featured == ps[i].body.featured && r[i].body.images == ps[i].body.images
    ensures r[i].body.tags == ps[i].body.tags
    ensures forall k :: 0 <= k < |ps| && k != i ==> r[k] == ps[k]
  {
    SetBody(ps, i, WithField(ps[i].body, f, v))
  }

  /** `removeProject(index)`: drop one project and renumber the rest. */
  function RemoveProject(ps: seq<Item<Project>>, i: int): (r: seq<Item<Project>>)
    ensures 0 <= i < |ps| ==> |r| == |ps| - 1
    ensures 0 <= i < |ps| ==> forall k :: 0 <= k < |r| ==> SameRecord(r[k], ps[if k < i then k else k + 1])
    ensures Numbered(r)
    ensures WellFormed(ps) ==> WellFormed(r)
    ensures AtMostOneFeatured(ps) ==> AtMostOneFeatured(r)
  {
    Remove(ps, i)
  }

  /** `moveProject(index, dir)`: swap with a neighbour and renumber; a target
      outside the list changes nothing. */
  function MoveProject(ps: seq<Item<Project>>, i: nat, dir: int): (r: seq<Item<Project>>)
    requires i < |ps|
    ensures |r| == |ps|
    ensures !(0 <= i + dir < |ps|) ==> r == ps
    ensures 0 <= i + dir < |ps| ==> SameRecord(r[i + dir], ps[i]) && SameRecord(r[i], ps[i + dir])
    ensures 0 <= i + dir < |ps| ==> forall k :: 0 <= k < |ps| && k != i && k != i + dir ==> SameRecord(r[k], ps[k])
    ensures 0 <= i + dir < |ps| ==> Numbered(r)
    ensures multiset(Ids(r)) == multiset(Ids(ps))
    ensures WellFormed(ps) ==> WellFormed(r)
    ensures AtMostOneFeatured(ps) ==> AtMostOneFeatured(r)
  {
    Move(ps, i, dir)
  }

  /** `toggleFeatured(index)`: flip project `index`, clear every other one. */
  function ToggleFeatured(ps: seq<Item<Project>>, i: int): (r: seq<Item<Project>>)
    ensures |r| == |ps| && AtMostOneFeatured(r)
    ensures forall k :: 0 <= k < |r| && r[k].body.featured ==> k == i
    ensures 0 <= i < |ps| ==> r[i].body.featured == !ps[i].body.featured
    ensures forall k :: 0 <= k < |ps| ==>
      r[k].id == ps[k].id && r[k].order == ps[k].order && r[k].body == ps[k].body.(featured := r[k].body.featured)
  {
    seq(|ps|, k requires 0 <= k < |ps| =>
      ps[k].(body := ps[k].body.(featured := if k == i then !ps[k].body.featured else false)))
  }

  /** `path.replace(/^\//, '')`: drop one leading `/`. */
  function StripLeadingSlash(p: string): (r: string)
    ensures StartsWith(p, "/") ==> "/" + r == p
    ensures !StartsWith(p, "/") ==> r == p
  {
    if StartsWith(p, "/") then p[1..] else p
  }

  function StripAll(paths: seq<string>): (r: seq<string>)
    ensures |r| == |paths|
    ensures forall k :: 0 <= k < |paths| ==> r[k] == StripLeadingSlash(paths[k])
  {
    seq(|paths|, k requires 0 <= k < |paths| => StripLeadingSlash(paths[k]))
  }

  /** `handleImageUpload` once the server has answered with `uploaded`: the paths,
      each without its leading `/`, go after the project's existing images in
      the order the server returned them. Nothing else changes. */
  function ImagesUploaded(ps: seq<Item<Project>>, i: nat, uploaded: seq<string>): (r: seq<Item<Project>>)
    requires i < |ps|
    ensures |r| == |ps| && r[i].id == ps[i].id && r[i].order == ps[i].order
    ensures |r[i].body.images| == |ps[i].body.images| + |uploaded|
    ensures r[i].body.images[..|ps[i].body.images|] == ps[i].body.images
    ensures forall k :: 0 <= k < |uploaded| ==>
      r[i].body.images[|ps[i].body.images| + k] == StripLeadingSlash(uploaded[k])
    ensures r[i].body == ps[i].body.(images := r[i].body.images)
    ensures forall k :: 0 <= k < |ps| && k != i ==> r[k] == ps[k]
  {
    SetBody(ps, i, ps[i].body.(images := ps[i].body.images + StripAll(uploaded)))
  }

  /** `removeImage(projectIndex, imgIndex)`. */
  function RemoveImage(ps: seq<Item<Project>>, i: nat, img: int): (r: seq<Item<Project>>)
    requires i < |ps|
    ensures |r| == |ps| && r[i].id == ps[i].id && r[i].order == ps[i].order
    ensures r[i].body.images == Without(ps[i].body.images, img)
    ensures r[i].body == ps[i].body.(images := r[i].body.images)
    ensures forall k :: 0 <= k < |ps| && k != i ==> r[k] == ps[k]
  {
    SetBody(ps, i, ps[i].body.(images := Without(ps[i].body.images, img)))
  }

  /** `tagInputs[index] || ''`. */
  function Pending(e: Editor, i: int): string
  {
    if i in e.tagInputs then e.tagInputs[i] else ""
  }

  /** The tag list of project `i` replaced by `tags`, nothing else touched. */
  function WithTags(ps: seq<Item<Project>>, i: nat, tags: seq<string>): (r: seq<Item<Project>>)
    requires i < |ps|
    ensures |r| == |ps| && r[i].body.tags == tags
    ensures r[i] == ps[i].(body := ps[i].body.(tags := tags))
    ensures forall k :: 0 <= k < |ps| && k != i ==> r[k] == ps[k]
  {
    SetBody(ps, i, ps[i].body.(tags := tags))
  }

  /** `addTag(index, tag)`: a tag that is empty after trimming is ignored outright;
      otherwise the pending input is cleared and the trimmed tag is appended
      unless the project already has it. */
  function AddTag(e: Editor, i: nat, tag: string): (r: Editor)
    requires i < |e.projects|
    ensures |r.projects| == |e.projects|
    ensures Trim(tag) == "" ==> r == e
    ensures Trim(tag) != "" ==> r.tagInputs == e.tagInputs[i := ""]
    ensures Trim(tag) != "" && Trim(tag) !in e.projects[i].body.tags ==>
      r.projects[i].body.tags == e.projects[i].body.tags + [Trim(tag)]
    ensures Trim(tag) in e.projects[i].body.tags ==> r.projects == e.projects
    ensures NoDuplicates(e.projects[i].body.tags) ==> NoDuplicates(r.projects[i].body.tags)
    ensures r.projects[i] == e.projects[i].(body := e.projects[i].body.(tags := r.projects[i].body.tags))
    ensures forall k :: 0 <= k < |e.projects| && k != i ==> r.projects[k] == e.projects[k]
  {
    var t := Trim(tag);
    if t == "" then e
    else
      var tags := e.projects[i].body.tags;
      var ps := if t in tags then e.projects else WithTags(e.projects, i, tags + [t]);
      Editor(ps, e.tagInputs[i := ""])
  }

  /** `removeTag(projectIndex, tagIndex)`. */
  function RemoveTag(e: Editor, i: nat, t: int): (r: Editor)
    requires i < |e.projects|
    ensures |r.projects| == |e.projects| && r.tagInputs == e.tagInputs
    ensures r.projects[i].body.tags == Without(e.projects[i].body.tags, t)
    ensures r.projects[i] == e.projects[i].(body := e.projects[i].body.(tags := r.projects[i].body.tags))
    ensures forall k :: 0 <= k < |e.projects| && k != i ==> r.projects[k] == e.projects[k]
  {
    Editor(WithTags(e.projects, i, Without(e.projects[i].body.tags, t)), e.tagInputs)
  }

  datatype Key = Enter | Comma | Backspace | OtherKey

  /** `handleTagKeyDown(index, e)`: Enter or `,` commits the pending text as a tag;
      Backspace on an empty input drops the last tag; any other key does nothing. */
  function TagKeyDown(e: Editor, i: nat, key: Key): (r: Editor)
    requires i < |e.projects|
    ensures (key == Enter || key == Comma) ==> r == AddTag(e, i, Pending(e, i))
    ensures key == Backspace && Pending(e, i) == "" && |e.projects[i].body.tags| > 0 ==>
      r.tagInputs == e.tagInputs && |r.projects| == |e.projects|
      && r.projects[i].body.tags == e.projects[i].body.tags[..|e.projects[i].body.tags| - 1]
    ensures key == Backspace && Pending(e, i) == "" && |e.projects[i].body.tags| > 0 ==>
      r == RemoveTag(e, i, |e.projects[i].body.tags| - 1)
    ensures key == Backspace && (Pending(e, i) != "" || |e.projects[i].body.tags| == 0) ==> r == e
    ensures key == OtherKey ==> r == e
  {
    var value := Pending(e, i);
    if key == Enter || key == Comma then AddTag(e, i, value)
    else if key == Backspace && value == "" && |e.projects[i].body.tags| > 0 then
      var tags := e.projects[i].body.tags;
      assert Without(tags, |tags| - 1) == tags[..|tags| - 1];
      RemoveTag(e, i, |tags| - 1)
    else e
  }

  /** Enter on a new tag and then Backspace on the emptied input undo each other:
      the projects are back as they were and the input is empty. */
  lemma EnterThenBackspace(e: Editor, i: nat)
    requires i < |e.projects|
    requires Trim(Pending(e, i)) != "" && Trim(Pending(e, i)) !in e.projects[i].body.tags
    ensures var r := TagKeyDown(TagKeyDown(e, i, Enter), i, Backspace);
      r.projects == e.projects && Pending(r, i) == ""
  {
    var tags := e.projects[i].body.tags;
    var e1 := TagKeyDown(e, i, Enter);
    assert e1.projects[i].body.tags == tags + [Trim(Pending(e, i))];
    assert Pending(e1, i) == "";
    var r := TagKeyDown(e1, i, Backspace);
    assert r.projects[i].body.tags == tags;
    assert r.projects[i] == e.projects[i];
  }

  /** Each part passed to `addTag` in turn. Every call sees the tags the previous
      calls appended, because the handler mutates the shared project record. */
  function AddTags(e: Editor, i: nat, parts: seq<string>): (r: Editor)
    requires i < |e.projects|
    ensures |r.projects| == |e.projects|
    ensures forall k :: 0 <= k < |e.projects| && k != i ==> r.projects[k] == e.projects[k]
    ensures r.projects[i] == e.projects[i].(body := e.projects[i].body.(tags := r.projects[i].body.tags))
    decreases |parts|
  {
    if |parts| == 0 then e else AddTags(AddTag(e, i, parts[0]), i, parts[1..])
  }

  /** One `addTag` call keeps the old tags as a prefix and adds at most the trimmed tag. */
  lemma AddTagStep(e: Editor, i: nat, tag: string)
    requires i < |e.projects|
    ensures var old_ := e.projects[i].body.tags; var mid := AddTag(e, i, tag).projects[i].body.tags;
      && |old_| <= |mid| && mid[..|old_|] == old_
      && (Trim(tag) != "" ==> Trim(tag) in mid)
      && (forall t :: t in mid ==> t in old_ || t == Trim(tag))
  {
    var old_ := e.projects[i].body.tags;
    var mid := AddTag(e, i, tag).projects[i].body.tags;
    if Trim(tag) != "" && Trim(tag) !in old_ {
      assert mid == old_ + [Trim(tag)];
      assert mid[|old_|] == Trim(tag);
    }
  }

  /** The tags present before a paste stay first, in their order. */
  lemma {:induction false} AddTagsKeepsOld(e: Editor, i: nat, parts: seq<string>)
    requires i < |e.projects|
    ensures var old_ := e.projects[i].body.tags; var now := AddTags(e, i, parts).projects[i].body.tags;
      && |old_| <= |now| && now[..|old_|] == old_
      && (NoDuplicates(old_) ==> NoDuplicates(now))
    decreases |parts|
  {
    if |parts| > 0 {
      var e1 := AddTag(e, i, parts[0]);
      AddTagStep(e, i, parts[0]);
      AddTagsKeepsOld(e1, i, parts[1..]);
      PrefixOfPrefix(e.projects[i].body.tags, e1.projects[i].body.tags, AddTags(e1, i, parts[1..]).projects[i].body.tags);
    }
  }

  lemma PrefixOfPrefix<T>(a: seq<T>, b: seq<T>, c: seq<T>)
    requires |a| <= |b| && b[..|a|] == a && |b| <= |c| && c[..|b|] == b
    ensures c[..|a|] == a
  {
    assert c[..|a|] == c[..|b|][..|a|];
  }

  /** Every pasted part that is not blank after trimming ends up among the tags. */
  lemma {:induction false} AddTagsAddsParts(e: Editor, i: nat, parts: seq<string>)
    requires i < |e.projects|
    ensures var now := AddTags(e, i, parts).projects[i].body.tags;
      forall k :: 0 <= k < |parts| && Trim(parts[k]) != "" ==> Trim(parts[k]) in now
    decreases |parts|
  {
    if |parts| > 0 {
      var e1 := AddTag(e, i, parts[0]);
      AddTagStep(e, i, parts[0]);
      AddTagsAddsParts(e1, i, parts[1..]);
      AddTagsKeepsOld(e1, i, parts[1..]);
      var mid := e1.projects[i].body.tags;
      var now := AddTags(e, i, parts).projects[i].body.tags;
      forall k | 0 <= k < |parts| && Trim(parts[k]) != "" ensures Trim(parts[k]) in now {
        if k == 0 {
          InPrefix(mid, now, Trim(parts[0]));
        } else {
          assert parts[k] == parts[1..][k - 1];
        }
      }
    }
  }

  lemma InPrefix<T>(a: seq<T>, b: seq<T>, x: T)
    requires x in a && |a| <= |b| && b[..|a|] == a
    ensures x in b
  {
    var j :| 0 <= j < |a| && a[j] == x;
    assert b[..|a|][j] == b[j];
  }

  /** A paste adds nothing but trimmed parts. */
  lemma {:induction false} AddTagsOnlyParts(e: Editor, i: nat, parts: seq<string>)
    requires i < |e.projects|
    ensures var old_ := e.projects[i].body.tags; var now := AddTags(e, i, parts).projects[i].body.tags;
      forall t :: t in now ==> t in old_ || exists k :: 0 <= k < |parts| && t == Trim(parts[k])
    decreases |parts|
  {
    if |parts| > 0 {
      var e1 := AddTag(e, i, parts[0]);
      AddTagStep(e, i, parts[0]);
      AddTagsOnlyParts(e1, i, parts[1..]);
      var old_ := e.projects[i].body.tags;
      var mid := e1.projects[i].body.tags;
      var now := AddTags(e, i, parts).projects[i].body.tags;
      forall t | t in now ensures t in old_ || exists k :: 0 <= k < |parts| && t == Trim(parts[k]) {
        if t !in mid {
          var k :| 0 <= k < |parts[1..]| && t == Trim(parts[1..][k]);
          assert t == Trim(parts[k + 1]);
        } else if t !in old_ {
          assert t == Trim(parts[0]);
        }
      }
    }
  }

  /** What the pasted parts do to the tag list: the old tags stay first, every
      non-empty trimmed part ends up in the list, nothing else is added, and a
      duplicate-free list stays duplicate-free. */
  lemma AddTagsContents(e: Editor, i: nat, parts: seq<string>)
    requires i < |e.projects|
    ensures var old_ := e.projects[i].body.tags; var now := AddTags(e, i, parts).projects[i].body.tags;
      && |old_| <= |now| && now[..|old_|] == old_
      && (forall k :: 0 <= k < |parts| && Trim(parts[k]) != "" ==> Trim(parts[k]) in now)
      && (forall t :: t in now ==> t in old_ || exists k :: 0 <= k < |parts| && t == Trim(parts[k]))
      && (NoDuplicates(old_) ==> NoDuplicates(now))
  {
    AddTagsKeepsOld(e, i, parts);
    AddTagsAddsParts(e, i, parts);
    AddTagsOnlyParts(e, i, parts);
  }

  /** The pieces of a comma-bearing input that are committed as tags: all but the last. */
  function CommittedParts(value: string): (parts: seq<string>)
    ensures ',' in value ==> |parts| + 1 == |Split(value, ',')| && parts == Split(value, ',')[..|parts|]
  {
    var all := Split(value, ',');
    all[..|all| - 1]
  }

  /** The trimmed last piece of the input, which stays in the tag input. */
  function LastPart(value: string): string
  {
    var all := Split(value, ',');
    Trim(all[|all| - 1])
  }

  /** `handleTagChange(index, value)`: input holding a comma commits every part but
      the last, in order, and keeps the trimmed last part as the pending text;
      input without a comma is just the new pending text. */
  function TagChange(e: Editor, i: nat, value: string): (r: Editor)
    requires i < |e.projects|
    ensures |r.projects| == |e.projects|
    ensures forall k :: 0 <= k < |e.projects| && k != i ==> r.projects[k] == e.projects[k]
    ensures r.projects[i] == e.projects[i].(body := e.projects[i].body.(tags := r.projects[i].body.tags))
    ensures r.tagInputs == e.tagInputs[i := Pending(r, i)]
    ensures ',' !in value ==> r.projects == e.projects && Pending(r, i) == value
    ensures ',' in value ==> Pending(r, i) == LastPart(value)
  {
    if ',' in value then Commit(e, i, CommittedParts(value), LastPart(value))
    else SetPending(e, i, value)
  }

  /** The pending text of project `i` replaced, nothing else touched. */
  function SetPending(e: Editor, i: nat, value: string): (r: Editor)
    ensures r.projects == e.projects && Pending(r, i) == value
    ensures r.tagInputs == e.tagInputs[i := Pending(r, i)]
  {
    e.(tagInputs := e.tagInputs[i := value])
  }

  /** `parts` committed as tags, then `pending` left in the input. */
  function Commit(e: Editor, i: nat, parts: seq<string>, pending: string): (r: Editor)
    requires i < |e.projects|
    ensures |r.projects| == |e.projects|
    ensures forall k :: 0 <= k < |e.projects| && k != i ==> r.projects[k] == e.projects[k]
    ensures r.projects[i] == e.projects[i].(body := e.projects[i].body.(tags := r.projects[i].body.tags))
    ensures r.tagInputs == e.tagInputs[i := Pending(r, i)] && Pending(r, i) == pending
    ensures r.projects == AddTags(e, i, parts).projects
  {
    Editor(AddTags(e, i, parts).projects, e.tagInputs[i := pending])
  }

  /** Pasting "a, b, c" commits `a` and `b` and leaves `c` pending; the pieces joined
      back with commas are the pasted text, so nothing typed is lost or reordered. */
  lemma PasteCommitsAllButLast(e: Editor, i: nat, value: string)
    requires i < |e.projects| && ',' in value
    ensures var parts := Split(value, ','); var r := TagChange(e, i, value);
      && |parts| >= 2
      && Join(parts, ',') == value
      && (forall k :: 0 <= k < |parts| - 1 && Trim(parts[k]) != "" ==> Trim(parts[k]) in r.projects[i].body.tags)
      && Pending(r, i) == Trim(parts[|parts| - 1])
  {
    var parts := Split(value, ',');
    var committed := CommittedParts(value);
    JoinSplit(value, ',');
    AddTagsContents(e, i, committed);
    var r := TagChange(e, i, value);
    assert r.projects == AddTags(e, i, committed).projects;
    forall k | 0 <= k < |parts| - 1 && Trim(parts[k]) != "" ensures Trim(parts[k]) in r.projects[i].body.tags {
      assert parts[k] == committed[k];
    }
  }
}
