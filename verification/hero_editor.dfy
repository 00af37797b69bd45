/** The hero-section editor: plain text fields, a profile image path, a list of
    typewriter words and a list of social links. Neither list carries ids or
    `order`: a removal drops one position and nothing is renumbered. */
module HeroEditor {
  import opened Seqs

  datatype SocialLink = SocialLink(platform: string, url: string, icon: string)
  datatype Hero = Hero(name: string, title: string, bio: string, profileImage: string, cvFile: string,
                       typewriterWords: seq<string>, socialLinks: seq<SocialLink>)

  datatype HeroField = HeroName | HeroTitle | Bio | CvFile
  datatype SocialField = Platform | Url | SocialIcon

  function HeroGet(h: Hero, f: HeroField): string
  {
    match f
    case HeroName => h.name
    case HeroTitle => h.title
    case Bio => h.bio
    case CvFile => h.cvFile
  }

  function SocialGet(l: SocialLink, f: SocialField): string
  {
    match f
    case Platform => l.platform
    case Url => l.url
    case SocialIcon => l.icon
  }

  /** The name, title, bio and CV inputs: one text field changes. */
  function SetText(h: Hero, f: HeroField, v: string): (r: Hero)
    ensures HeroGet(r, f) == v
    ensures forall g :: g != f ==> HeroGet(r, g) == HeroGet(h, g)
    ensures r.profileImage == h.profileImage
    ensures r.typewriterWords == h.typewriterWords && r.socialLinks == h.socialLinks
  {
    match f
    case HeroName => h.(name := v)
    case HeroTitle => h.(title := v)
    case Bio => h.(bio := v)
    case CvFile => h.(cvFile := v)
  }

  /** `handleImageUpload` after a successful upload: the returned path is stored as
      it is, leading `/` included, and nothing else changes. */
  function ProfileImageUploaded(h: Hero, filePath: string): (r: Hero)
    ensures r.profileImage == filePath
    ensures forall g :: HeroGet(r, g) == HeroGet(h, g)
    ensures r.typewriterWords == h.typewriterWords && r.socialLinks == h.socialLinks
  {
    h.(profileImage := filePath)
  }

  /** `addSocialLink`: an empty GitHub link appended. */
  function AddSocialLink(h: Hero): (r: Hero)
    ensures r.socialLinks == h.socialLinks + [SocialLink("", "", "FaGithub")]
    ensures r.typewriterWords == h.typewriterWords && r.profileImage == h.profileImage
    ensures forall g :: HeroGet(r, g) == HeroGet(h, g)
  {
    h.(socialLinks := h.socialLinks + [SocialLink("", "", "FaGithub")])
  }

  /** `updateSocialLink(index, field, value)`. */
  function UpdateSocialLink(h: Hero, i: nat, f: SocialField, v: string): (r: Hero)
    requires i < |h.socialLinks|
    ensures |r.socialLinks| == |h.socialLinks|
    ensures SocialGet(r.socialLinks[i], f) == v
    ensures forall g :: g != f ==> SocialGet(r.socialLinks[i], g) == SocialGet(h.socialLinks[i], g)
    ensures forall k :: 0 <= k < |h.socialLinks| && k != i ==> r.socialLinks[k] == h.socialLinks[k]
    ensures r.typewriterWords == h.typewriterWords && r.profileImage == h.profileImage
    ensures forall g :: HeroGet(r, g) == HeroGet(h, g)
  {
    var l := h.socialLinks[i];
    h.(socialLinks := h.socialLinks[i := match f
      case Platform => l.(platform := v)
      case Url => l.(url := v)
      case SocialIcon => l.(icon := v)])
  }

  /** `removeSocialLink(index)`: position `index` dropped, the rest kept as they were. */
  function RemoveSocialLink(h: Hero, i: int): (r: Hero)
    ensures 0 <= i < |h.socialLinks| ==>
      (|r.socialLinks| == |h.socialLinks| - 1 && r.socialLinks[..i] == h.socialLinks[..i] && r.socialLinks[i..] == h.socialLinks[i + 1..])
    ensures !(0 <= i < |h.socialLinks|) ==> r.socialLinks == h.socialLinks
    ensures r.typewriterWords == h.typewriterWords && r.profileImage == h.profileImage
    ensures forall g :: HeroGet(r, g) == HeroGet(h, g)
  {
    h.(socialLinks := Without(h.socialLinks, i))
  }

  /** `addTypewriterWord`: an empty word appended. */
  function AddWord(h: Hero): (r: Hero)
    ensures r.typewriterWords == h.typewriterWords + [""]
    ensures r.socialLinks == h.socialLinks && r.profileImage == h.profileImage
    ensures forall g :: HeroGet(r, g) == HeroGet(h, g)
  {
    h.(typewriterWords := h.typewriterWords + [""])
  }

  /** `updateTypewriterWord(index, value)`. */
  function UpdateWord(h: Hero, i: nat, v: string): (r: Hero)
    requires i < |h.typewriterWords|
    ensures |r.typewriterWords| == |h.typewriterWords| && r.typewriterWords[i] == v
    ensures forall k :: 0 <= k < |h.typewriterWords| && k != i ==> r.typewriterWords[k] == h.typewriterWords[k]
    ensures r.socialLinks == h.socialLinks && r.profileImage == h.profileImage
    ensures forall g :: HeroGet(r, g) == HeroGet(h, g)
  {
    h.(typewriterWords := h.typewriterWords[i := v])
  }

  /** `removeTypewriterWord(index)`. */
  function RemoveWord(h: Hero, i: int): (r: Hero)
    ensures 0 <= i < |h.typewriterWords| ==>
      (|r.typewriterWords| == |h.typewriterWords| - 1 && r.typewriterWords[..i] == h.typewriterWords[..i] && r.typewriterWords[i..] == h.typewriterWords[i + 1..])
    ensures !(0 <= i < |h.typewriterWords|) ==> r.typewriterWords == h.typewriterWords
    ensures r.socialLinks == h.socialLinks && r.profileImage == h.profileImage
    ensures forall g :: HeroGet(r, g) == HeroGet(h, g)
  {
    h.(typewriterWords := Without(h.typewriterWords, i))
  }

  /** Adding a social link and removing the last one gives back the section. */
  lemma RemoveAddedSocialLink(h: Hero)
    ensures RemoveSocialLink(AddSocialLink(h), |h.socialLinks|) == h
  {
    var r := RemoveSocialLink(AddSocialLink(h), |h.socialLinks|);
    assert r.socialLinks == r.socialLinks[..|h.socialLinks|];
  }

  /** Adding a word and removing the last one gives back the section. */
  lemma RemoveAddedWord(h: Hero)
    ensures RemoveWord(AddWord(h), |h.typewriterWords|) == h
  {
    var r := RemoveWord(AddWord(h), |h.typewriterWords|);
    assert r.typewriterWords == r.typewriterWords[..|h.typewriterWords|];
  }
}
