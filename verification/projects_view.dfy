/** The public projects page: image paths normalised for display, projects in
    ascending `order`, the first featured project shown on its own and the
    non-featured ones listed after it. */
module ProjectsView {
  import opened Seqs
  import opened Text
  import opened OrderedList
  import opened OrderSort
  import opened ProjectsEditor

  /** `getImgSrc(img)`: absolute paths and URLs pass through, anything else is made
      absolute with a leading `/`. */
  function ImgSrc(img: string): (r: string)
    ensures StartsWith(r, "/") || StartsWith(r, "http")
    ensures r == img || r == "/" + img
  {
    if StartsWith(img, "/") || StartsWith(img, "http") then img else "/" + img
  }

  /** `ImgSrc` leaves a path alone exactly when it is already absolute or a URL. */
  lemma ImgSrcIdentityIff(img: string)
    ensures ImgSrc(img) == img <==> StartsWith(img, "/") || StartsWith(img, "http")
  {
    if !(StartsWith(img, "/") || StartsWith(img, "http")) {
      assert |ImgSrc(img)| == |img| + 1;
    }
  }

  /** Normalising twice is normalising once. */
  lemma ImgSrcIdempotent(img: string)
    ensures ImgSrc(ImgSrc(img)) == ImgSrc(img)
  {
    ImgSrcIdentityIff(ImgSrc(img));
  }

  /** The editor stores an uploaded path without its leading `/`; the page puts it
      back. This restores the path exactly when what follows the `/` is neither
      another `/` nor `http`. */
  lemma StripThenImgSrc(p: string)
    requires StartsWith(p, "/")
    ensures ImgSrc(StripLeadingSlash(p)) == p <==> !StartsWith(p[1..], "/") && !StartsWith(p[1..], "http")
  {
    var q := StripLeadingSlash(p);
    assert q == p[1..];
    ImgSrcIdentityIff(q);
    if StartsWith(q, "/") || StartsWith(q, "http") {
      assert |ImgSrc(q)| == |p| - 1;
    }
  }

  /** Every path the upload route answers with, `/uploads/<name>`, survives the
      editor's stripping and the page's normalisation unchanged. */
  lemma UploadPathDisplayed(name: string)
    ensures ImgSrc(StripLeadingSlash("/uploads/" + name)) == "/uploads/" + name
  {
    var p := "/uploads/" + name;
    assert p[1..] == "uploads/" + name;
    assert p[1..][0] == 'u';
    StripThenImgSrc(p);
  }

  /** The position of the first featured project: `projects.find(p => p.featured)`. */
  function FirstFeatured(view: seq<Item<Project>>): (r: Option<nat>)
    ensures r.Some? ==> r.value < |view| && view[r.value].body.featured
    ensures r.Some? ==> forall k :: 0 <= k < r.value ==> !view[k].body.featured
    ensures r.None? <==> forall k :: 0 <= k < |view| ==> !view[k].body.featured
  {
    if |view| == 0 then None
    else if view[0].body.featured then Some(0)
    else
      match FirstFeatured(view[1..])
      case None =>
        assert forall k :: 1 <= k < |view| ==> view[k] == view[1..][k - 1];
        None
      case Some(k) =>
        assert forall m :: 1 <= m < |view| ==> view[m] == view[1..][m - 1];
        Some(k + 1)
  }

  function NotFeatured(p: Item<Project>): bool
  {
    !p.body.featured
  }

  /** What the page shows: at most one featured card, then the other projects. */
  datatype Page = Page(featured: Option<Item<Project>>, others: seq<Item<Project>>)

  /** The projects page for the stored list `ps`. */
  function Render(ps: seq<Item<Project>>): (page: Page)
    ensures SortedByOrder(page.others)
    ensures page.featured.Some? <==> exists k :: 0 <= k < |ps| && ps[k].body.featured
    ensures page.featured.Some? ==> page.featured.value.body.featured && page.featured.value in ps
    ensures forall p :: p in page.others <==> p in ps && !p.body.featured
    ensures page.featured.Some? ==> page.featured.value !in page.others
    ensures page.featured.Some? ==>
      forall k :: 0 <= k < |ps| && ps[k].body.featured ==> page.featured.value.order <= ps[k].order
    ensures multiset(page.others) == multiset(Filter(ps, NotFeatured))
  {
    var view := Sort(ps);
    var first := FirstFeatured(view);
    var others := Filter(view, NotFeatured);
    SortSameElements(ps);
    FilterSorted(view, NotFeatured);
    OthersAreNonFeatured(ps, view);
    FilterSameMultiset(view, ps, NotFeatured);
    if first.None? then
      NoFeaturedInView(ps, view);
      Page(None, others)
    else
      var f := view[first.value];
      FeaturedIsStored(ps, view, f);
      FirstFeaturedIsLeast(ps, view, first.value);
      Page(Some(f), others)
  }

  /** In the sorted view, the first featured entry has the least `order` among all
      featured projects of the stored list. */
  lemma FirstFeaturedIsLeast(ps: seq<Item<Project>>, view: seq<Item<Project>>, j: nat)
    requires SortedByOrder(view) && forall p :: p in view <==> p in ps
    requires j < |view| && forall k :: 0 <= k < j ==> !view[k].body.featured
    ensures forall k :: 0 <= k < |ps| && ps[k].body.featured ==> view[j].order <= ps[k].order
  {
    forall k | 0 <= k < |ps| && ps[k].body.featured ensures view[j].order <= ps[k].order {
      assert ps[k] in view;
      var m :| 0 <= m < |view| && view[m] == ps[k];
      assert j <= m;
    }
  }

  lemma FeaturedIsStored(ps: seq<Item<Project>>, view: seq<Item<Project>>, f: Item<Project>)
    requires forall p :: p in view <==> p in ps
    requires f in view && f.body.featured
    ensures f in ps && exists k :: 0 <= k < |ps| && ps[k].body.featured
  {
    var k :| 0 <= k < |ps| && ps[k] == f;
  }

  lemma OthersAreNonFeatured(ps: seq<Item<Project>>, view: seq<Item<Project>>)
    requires forall p :: p in view <==> p in ps
    ensures forall p :: p in Filter(view, NotFeatured) <==> p in ps && !p.body.featured
  {
    var others := Filter(view, NotFeatured);
    forall p | p in ps && !p.body.featured ensures p in others {
      var k :| 0 <= k < |view| && view[k] == p;
      assert NotFeatured(view[k]);
    }
    forall p | p in others ensures p in ps && !p.body.featured {
      var k :| 0 <= k < |others| && others[k] == p;
      assert NotFeatured(others[k]);
    }
  }

  lemma NoFeaturedInView(ps: seq<Item<Project>>, view: seq<Item<Project>>)
    requires forall p :: p in view <==> p in ps
    requires forall k :: 0 <= k < |view| ==> !view[k].body.featured
    ensures forall k :: 0 <= k < |ps| ==> !ps[k].body.featured
  {
    forall k | 0 <= k < |ps| ensures !ps[k].body.featured {
      assert ps[k] in view;
      var j :| 0 <= j < |view| && view[j] == ps[k];
    }
  }

  /** A project is on the page exactly when it is not featured or it is the one
      featured project shown. */
  predicate Shown(page: Page, p: Item<Project>)
  {
    p in page.others || page.featured == Some(p)
  }

  /** Every stored project is on the page exactly when all featured projects are
      the same record: a second featured project is shown nowhere. */
  lemma AllShownIff(ps: seq<Item<Project>>)
    ensures (forall p :: p in ps ==> Shown(Render(ps), p)) <==>
            (forall a, b :: 0 <= a < |ps| && 0 <= b < |ps| && ps[a].body.featured && ps[b].body.featured ==> ps[a] == ps[b])
  {
    var page := Render(ps);
    if forall a, b :: 0 <= a < |ps| && 0 <= b < |ps| && ps[a].body.featured && ps[b].body.featured ==> ps[a] == ps[b] {
      forall p | p in ps ensures Shown(page, p) {
        if p.body.featured {
          var a :| 0 <= a < |ps| && ps[a] == p;
          var b :| 0 <= b < |ps| && ps[b] == page.featured.value;
        }
      }
    } else {
      var a, b :| 0 <= a < |ps| && 0 <= b < |ps| && ps[a].body.featured && ps[b].body.featured && ps[a] != ps[b];
      assert !Shown(page, ps[a]) || !Shown(page, ps[b]);
    }
  }

  /** With the editor's invariant of at most one featured project, every project
      is on the page. */
  lemma AtMostOneFeaturedAllShown(ps: seq<Item<Project>>)
    requires AtMostOneFeatured(ps)
    ensures forall p :: p in ps ==> Shown(Render(ps), p)
  {
    AllShownIff(ps);
  }

  /** After the editor toggles project `i` of a saved (numbered) list, the page
      features exactly that project, or none when it was featured before. */
  lemma ToggleThenRender(ps: seq<Item<Project>>, i: nat)
    requires Numbered(ps) && i < |ps|
    ensures var r := ToggleFeatured(ps, i);
      Render(r).featured == if ps[i].body.featured then None else Some(r[i])
  {
    var r := ToggleFeatured(ps, i);
    assert Numbered(r);
    LoadAfterSave(r);
    var first := FirstFeatured(r);
    if !ps[i].body.featured {
      assert first.Some?;
    }
  }
}
