/** The education editor: an ordered list of education entries and a separate
    ordered list of certification groups, each group holding its own ordered list
    of certificates. Certificate ids are drawn from one pool across all groups. */
module EducationEditor {
  import opened Seqs
  import opened OrderedList

  datatype Education = Education(title: string, institution: string, date: string, description: string, image: string)
  datatype Cert = Cert(title: string, image: string)
  datatype Group = Group(provider: string, certs: seq<Item<Cert>>)
  datatype EducationData = EducationData(education: seq<Item<Education>>, groups: seq<Item<Group>>)

  datatype EducationField = Title | Institution | Date | Description | Image
  datatype CertField = CertTitle | CertImage

  function EducationGet(e: Education, f: EducationField): string
  {
    match f
    case Title => e.title
    case Institution => e.institution
    case Date => e.date
    case Description => e.description
    case Image => e.image
  }

  function EducationWith(e: Education, f: EducationField, v: string): (q: Education)
    ensures EducationGet(q, f) == v
    ensures forall g :: g != f ==> EducationGet(q, g) == EducationGet(e, g)
  {
    match f
    case Title => e.(title := v)
    case Institution => e.(institution := v)
    case Date => e.(date := v)
    case Description => e.(description := v)
    case Image => e.(image := v)
  }

  function CertGet(c: Cert, f: CertField): string
  {
    match f
    case CertTitle => c.title
    case CertImage => c.image
  }

  function CertWith(c: Cert, f: CertField, v: string): (q: Cert)
    ensures CertGet(q, f) == v
    ensures forall g :: g != f ==> CertGet(q, g) == CertGet(c, g)
  {
    match f
    case CertTitle => c.(title := v)
    case CertImage => c.(image := v)
  }

  /** `addEducation`: an empty entry with a fresh id, appended; the groups are untouched. */
  function AddEducation(d: EducationData): (r: EducationData)
    ensures r.groups == d.groups
    ensures |r.education| == |d.education| + 1 && r.education[..|d.education|] == d.education
    ensures forall k :: 0 <= k < |d.education| ==> d.education[k].id < r.education[|d.education|].id
    ensures r.education[|d.education|].order == |d.education|
    ensures r.education[|d.education|].body == Education("", "", "", "", "")
    ensures WellFormed(d.education) ==> WellFormed(r.education)
  {
    d.(education := Add(d.education, Education("", "", "", "", "")))
  }

  /** `updateEducation(index, field, value)`; an image upload stores the returned
      path here unchanged. */
  function UpdateEducation(d: EducationData, i: nat, f: EducationField, v: string): (r: EducationData)
    requires i < |d.education|
    ensures r.groups == d.groups && |r.education| == |d.education|
    ensures r.education[i].id == d.education[i].id && r.education[i].order == d.education[i].order
    ensures EducationGet(r.education[i].body, f) == v
    ensures forall g :: g != f ==> EducationGet(r.education[i].body, g) == EducationGet(d.education[i].body, g)
    ensures forall k :: 0 <= k < |d.education| && k != i ==> r.education[k] == d.education[k]
  {
    d.(education := SetBody(d.education, i, EducationWith(d.education[i].body, f, v)))
  }

  /** `removeEducation(index)`: the entries renumbered, the groups untouched. */
  function RemoveEducation(d: EducationData, i: int): (r: EducationData)
    ensures r.groups == d.groups && Numbered(r.education)
    ensures 0 <= i < |d.education| ==> |r.education| == |d.education| - 1
    ensures 0 <= i < |d.education| ==> forall k :: 0 <= k < |r.education| ==>
      SameRecord(r.education[k], d.education[if k < i then k else k + 1])
    ensures WellFormed(d.education) ==> WellFormed(r.education)
  {
    d.(education := Remove(d.education, i))
  }

  /** `addGroup`: an empty group with a fresh group id, appended. */
  function AddGroup(d: EducationData): (r: EducationData)
    ensures r.education == d.education
    ensures |r.groups| == |d.groups| + 1 && r.groups[..|d.groups|] == d.groups
    ensures forall k :: 0 <= k < |d.groups| ==> d.groups[k].id < r.groups[|d.groups|].id
    ensures r.groups[|d.groups|].order == |d.groups|
    ensures r.groups[|d.groups|].body == Group("", [])
    ensures WellFormed(d.groups) ==> WellFormed(r.groups)
  {
    d.(groups := Add(d.groups, Group("", [])))
  }

  /** `updateGroup(index, 'provider', value)`: the group's certificates stay. */
  function UpdateProvider(d: EducationData, i: nat, v: string): (r: EducationData)
    requires i < |d.groups|
    ensures r.education == d.education && |r.groups| == |d.groups|
    ensures r.groups[i].body.provider == v && r.groups[i].body.certs == d.groups[i].body.certs
    ensures r.groups[i].id == d.groups[i].id && r.groups[i].order == d.groups[i].order
    ensures forall k :: 0 <= k < |d.groups| && k != i ==> r.groups[k] == d.groups[k]
  {
    d.(groups := SetBody(d.groups, i, d.groups[i].body.(provider := v)))
  }

  /** `removeGroup(index)`: the groups renumbered, the education entries untouched. */
  function RemoveGroup(d: EducationData, i: int): (r: EducationData)
    ensures r.education == d.education && Numbered(r.groups)
    ensures 0 <= i < |d.groups| ==> |r.groups| == |d.groups| - 1
    ensures 0 <= i < |d.groups| ==> forall k :: 0 <= k < |r.groups| ==>
      SameRecord(r.groups[k], d.groups[if k < i then k else k + 1])
    ensures WellFormed(d.groups) ==> WellFormed(r.groups)
  {
    d.(groups := Remove(d.groups, i))
  }

  /** `moveGroup(index, dir)` through the shared `moveItem`. */
  function MoveGroup(d: EducationData, i: nat, dir: int): (r: EducationData)
    requires i < |d.groups|
    ensures r.education == d.education
    ensures !(0 <= i + dir < |d.groups|) ==> r == d
    ensures multiset(Ids(r.groups)) == multiset(Ids(d.groups))
    ensures 0 <= i + dir < |d.groups| ==>
      (|r.groups| == |d.groups| && Numbered(r.groups)
       && SameRecord(r.groups[i + dir], d.groups[i]) && SameRecord(r.groups[i], d.groups[i + dir]))
    ensures 0 <= i + dir < |d.groups| ==>
      forall k :: 0 <= k < |d.groups| && k != i && k != i + dir ==> SameRecord(r.groups[k], d.groups[k])
  {
    d.(groups := Move(d.groups, i, dir))
  }

  /** `Math.max(0, ...groups.flatMap(g => g.certs.map(c => c.id)))`. */
  function MaxCertId(gs: seq<Item<Group>>): (m: int)
    ensures m >= 0
    ensures forall g, c :: 0 <= g < |gs| && 0 <= c < |gs[g].body.certs| ==> gs[g].body.certs[c].id <= m
    ensures m == 0 || exists g, c :: 0 <= g < |gs| && 0 <= c < |gs[g].body.certs| && gs[g].body.certs[c].id == m
  {
    if |gs| == 0 then 0
    else
      var front := MaxCertId(gs[..|gs| - 1]);
      var last := MaxId(gs[|gs| - 1].body.certs);
      assert forall g :: 0 <= g < |gs| - 1 ==> gs[..|gs| - 1][g] == gs[g];
      if front < last then last else front
  }

  /** No two certificates, in the same group or in different ones, share an id. */
  predicate CertIdsUnique(gs: seq<Item<Group>>)
  {
    forall g1, c1, g2, c2 ::
      (0 <= g1 < |gs| && 0 <= c1 < |gs[g1].body.certs| && 0 <= g2 < |gs| && 0 <= c2 < |gs[g2].body.certs|
       && (g1 != g2 || c1 != c2)) ==> gs[g1].body.certs[c1].id != gs[g2].body.certs[c2].id
  }

  /** `addCert(groupIndex)`: a certificate whose id exceeds every certificate id in
      every group is appended to that one group, numbered with the group's length. */
  function AddCert(d: EducationData, gi: nat): (r: EducationData)
    requires gi < |d.groups|
    ensures r.education == d.education && |r.groups| == |d.groups|
    ensures forall k :: 0 <= k < |d.groups| && k != gi ==> r.groups[k] == d.groups[k]
    ensures r.groups[gi].id == d.groups[gi].id && r.groups[gi].order == d.groups[gi].order
    ensures r.groups[gi].body.provider == d.groups[gi].body.provider
    ensures var old_ := d.groups[gi].body.certs; var now := r.groups[gi].body.certs;
      && |now| == |old_| + 1 && now[..|old_|] == old_
      && now[|old_|].order == |old_| && now[|old_|].body == Cert("", "")
      && forall g, c :: 0 <= g < |d.groups| && 0 <= c < |d.groups[g].body.certs| ==>
           d.groups[g].body.certs[c].id < now[|old_|].id
    ensures CertIdsUnique(d.groups) ==> CertIdsUnique(r.groups)
  {
    var certs := d.groups[gi].body.certs;
    var cert := Item(MaxCertId(d.groups) + 1, |certs|, Cert("", ""));
    var r := d.(groups := SetBody(d.groups, gi, d.groups[gi].body.(certs := certs + [cert])));
    assert CertIdsUnique(d.groups) ==> CertIdsUnique(r.groups) by {
      if CertIdsUnique(d.groups) {
        NewCertKeepsUnique(d.groups, r.groups, gi, cert);
      }
    }
    r
  }

  lemma NewCertKeepsUnique(gs: seq<Item<Group>>, rs: seq<Item<Group>>, gi: nat, cert: Item<Cert>)
    requires gi < |gs| && |rs| == |gs| && CertIdsUnique(gs)
    requires forall k :: 0 <= k < |gs| && k != gi ==> rs[k] == gs[k]
    requires rs[gi].body.certs == gs[gi].body.certs + [cert]
    requires forall g, c :: 0 <= g < |gs| && 0 <= c < |gs[g].body.certs| ==> gs[g].body.certs[c].id < cert.id
    ensures CertIdsUnique(rs)
  {
    forall g1, c1, g2, c2 |
      0 <= g1 < |rs| && 0 <= c1 < |rs[g1].body.certs| && 0 <= g2 < |rs| && 0 <= c2 < |rs[g2].body.certs|
      && (g1 != g2 || c1 != c2)
      ensures rs[g1].body.certs[c1].id != rs[g2].body.certs[c2].id
    {
      var n := |gs[gi].body.certs|;
      var isNew1 := g1 == gi && c1 == n;
      var isNew2 := g2 == gi && c2 == n;
      if !isNew1 {
        assert rs[g1].body.certs[c1] == gs[g1].body.certs[c1];
      }
      if !isNew2 {
        assert rs[g2].body.certs[c2] == gs[g2].body.certs[c2];
      }
    }
  }

  /** `updateCert(groupIndex, certIndex, field, value)`. */
  function UpdateCert(d: EducationData, gi: nat, ci: nat, f: CertField, v: string): (r: EducationData)
    requires gi < |d.groups| && ci < |d.groups[gi].body.certs|
    ensures r.education == d.education && |r.groups| == |d.groups|
    ensures forall k :: 0 <= k < |d.groups| && k != gi ==> r.groups[k] == d.groups[k]
    ensures r.groups[gi].id == d.groups[gi].id && r.groups[gi].order == d.groups[gi].order
    ensures r.groups[gi].body.provider == d.groups[gi].body.provider
    ensures var old_ := d.groups[gi].body.certs; var now := r.groups[gi].body.certs;
      && |now| == |old_| && now[ci].id == old_[ci].id && now[ci].order == old_[ci].order
      && CertGet(now[ci].body, f) == v
      && (forall g :: g != f ==> CertGet(now[ci].body, g) == CertGet(old_[ci].body, g))
      && (forall k :: 0 <= k < |old_| && k != ci ==> now[k] == old_[k])
  {
    var certs := d.groups[gi].body.certs;
    d.(groups := SetBody(d.groups, gi, d.groups[gi].body.(certs := SetBody(certs, ci, CertWith(certs[ci].body, f, v)))))
  }

  /** `removeCert(groupIndex, certIndex)`: only that group's certificates change,
      renumbered; other groups and the education entries are untouched. */
  function RemoveCert(d: EducationData, gi: nat, ci: int): (r: EducationData)
    requires gi < |d.groups|
    ensures r.education == d.education && |r.groups| == |d.groups|
    ensures forall k :: 0 <= k < |d.groups| && k != gi ==> r.groups[k] == d.groups[k]
    ensures r.groups[gi].id == d.groups[gi].id && r.groups[gi].order == d.groups[gi].order
    ensures r.groups[gi].body.provider == d.groups[gi].body.provider
    ensures var old_ := d.groups[gi].body.certs; var now := r.groups[gi].body.certs;
      && Numbered(now)
      && (0 <= ci < |old_| ==> |now| == |old_| - 1)
      && (0 <= ci < |old_| ==> forall k :: 0 <= k < |now| ==> SameRecord(now[k], old_[if k < ci then k else k + 1]))
  {
    d.(groups := SetBody(d.groups, gi, d.groups[gi].body.(certs := Remove(d.groups[gi].body.certs, ci))))
  }
}
