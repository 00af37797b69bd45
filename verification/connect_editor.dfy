/** The connect-section editor: a contact-information record and an ordered list
    of contact links. */
module ConnectEditor {
  import opened Seqs
  import opened OrderedList

  datatype ContactInfo = ContactInfo(email: string, phone: string, location: string)
  datatype Link = Link(icon: string, title: string, href: string)
  datatype Connect = Connect(contactInfo: ContactInfo, contactLinks: seq<Item<Link>>)

  datatype InfoField = Email | Phone | Location
  datatype LinkField = LinkIcon | LinkTitle | Href

  function InfoGet(c: ContactInfo, f: InfoField): string
  {
    match f
    case Email => c.email
    case Phone => c.phone
    case Location => c.location
  }

  function LinkGet(l: Link, f: LinkField): string
  {
    match f
    case LinkIcon => l.icon
    case LinkTitle => l.title
    case Href => l.href
  }

  /** `updateContactInfo(field, value)`: one contact field changes; the links stay. */
  function UpdateContactInfo(d: Connect, f: InfoField, v: string): (r: Connect)
    ensures r.contactLinks == d.contactLinks
    ensures InfoGet(r.contactInfo, f) == v
    ensures forall g :: g != f ==> InfoGet(r.contactInfo, g) == InfoGet(d.contactInfo, g)
  {
    var c := d.contactInfo;
    d.(contactInfo := match f
      case Email => c.(email := v)
      case Phone => c.(phone := v)
      case Location => c.(location := v))
  }

  /** `addLink`: a link with the GitHub icon and a fresh id, appended. */
  function AddLink(d: Connect): (r: Connect)
    ensures r.contactInfo == d.contactInfo
    ensures |r.contactLinks| == |d.contactLinks| + 1 && r.contactLinks[..|d.contactLinks|] == d.contactLinks
    ensures forall k :: 0 <= k < |d.contactLinks| ==> d.contactLinks[k].id < r.contactLinks[|d.contactLinks|].id
    ensures r.contactLinks[|d.contactLinks|].order == |d.contactLinks|
    ensures r.contactLinks[|d.contactLinks|].body == Link("FaGithub", "", "")
    ensures WellFormed(d.contactLinks) ==> WellFormed(r.contactLinks)
  {
    d.(contactLinks := Add(d.contactLinks, Link("FaGithub", "", "")))
  }

  /** `updateLink(index, field, value)`. */
  function UpdateLink(d: Connect, i: nat, f: LinkField, v: string): (r: Connect)
    requires i < |d.contactLinks|
    ensures r.contactInfo == d.contactInfo && |r.contactLinks| == |d.contactLinks|
    ensures r.contactLinks[i].id == d.contactLinks[i].id && r.contactLinks[i].order == d.contactLinks[i].order
    ensures LinkGet(r.contactLinks[i].body, f) == v
    ensures forall g :: g != f ==> LinkGet(r.contactLinks[i].body, g) == LinkGet(d.contactLinks[i].body, g)
    ensures forall k :: 0 <= k < |d.contactLinks| && k != i ==> r.contactLinks[k] == d.contactLinks[k]
  {
    var l := d.contactLinks[i].body;
    d.(contactLinks := SetBody(d.contactLinks, i, match f
      case LinkIcon => l.(icon := v)
      case LinkTitle => l.(title := v)
      case Href => l.(href := v)))
  }

  /** `removeLink(index)`: the links renumbered, the contact information untouched. */
  function RemoveLink(d: Connect, i: int): (r: Connect)
    ensures r.contactInfo == d.contactInfo && Numbered(r.contactLinks)
    ensures 0 <= i < |d.contactLinks| ==> |r.contactLinks| == |d.contactLinks| - 1
    ensures 0 <= i < |d.contactLinks| ==> forall k :: 0 <= k < |r.contactLinks| ==>
      SameRecord(r.contactLinks[k], d.contactLinks[if k < i then k else k + 1])
    ensures WellFormed(d.contactLinks) ==> WellFormed(r.contactLinks)
  {
    d.(contactLinks := Remove(d.contactLinks, i))
  }

  /** Adding a link and removing it again gives back a saved section. */
  lemma RemoveAddedLink(d: Connect)
    requires Numbered(d.contactLinks)
    ensures RemoveLink(AddLink(d), |d.contactLinks|) == d
  {
    RemoveAdded(d.contactLinks, Link("FaGithub", "", ""));
  }
}
