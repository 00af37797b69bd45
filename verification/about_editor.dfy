/** The about-section editor: the intro text and two ordered lists, philosophy
    cards and journey entries. Each handler replaces one part of the section and
    leaves the other two parts as they were. */
module AboutEditor {
  import opened Seqs
  import opened OrderedList

  datatype Philosophy = Philosophy(icon: string, title: string, text: string)
  datatype Journey = Journey(year: string, title: string, description: string)
  datatype About = About(introText: string, philosophy: seq<Item<Philosophy>>, journey: seq<Item<Journey>>)

  datatype PhilosophyField = CardIcon | CardTitle | CardText
  datatype JourneyField = Year | StepTitle | StepDescription

  function PhilosophyGet(p: Philosophy, f: PhilosophyField): string
  {
    match f
    case CardIcon => p.icon
    case CardTitle => p.title
    case CardText => p.text
  }

  function PhilosophyWith(p: Philosophy, f: PhilosophyField, v: string): (q: Philosophy)
    ensures PhilosophyGet(q, f) == v
    ensures forall g :: g != f ==> PhilosophyGet(q, g) == PhilosophyGet(p, g)
  {
    match f
    case CardIcon => p.(icon := v)
    case CardTitle => p.(title := v)
    case CardText => p.(text := v)
  }

  function JourneyGet(j: Journey, f: JourneyField): string
  {
    match f
    case Year => j.year
    case StepTitle => j.title
    case StepDescription => j.description
  }

  function JourneyWith(j: Journey, f: JourneyField, v: string): (q: Journey)
    ensures JourneyGet(q, f) == v
    ensures forall g :: g != f ==> JourneyGet(q, g) == JourneyGet(j, g)
  {
    match f
    case Year => j.(year := v)
    case StepTitle => j.(title := v)
    case StepDescription => j.(description := v)
  }

  /** The intro textarea: only the intro text changes. */
  function SetIntro(a: About, text: string): (r: About)
    ensures r.introText == text
    ensures r.philosophy == a.philosophy && r.journey == a.journey
  {
    a.(introText := text)
  }

  /** `addPhilosophy`: a card with a fresh id and the `FaCode` icon, appended. */
  function AddPhilosophy(a: About): (r: About)
    ensures r.introText == a.introText && r.journey == a.journey
    ensures |r.philosophy| == |a.philosophy| + 1 && r.philosophy[..|a.philosophy|] == a.philosophy
    ensures forall k :: 0 <= k < |a.philosophy| ==> a.philosophy[k].id < r.philosophy[|a.philosophy|].id
    ensures r.philosophy[|a.philosophy|].order == |a.philosophy|
    ensures r.philosophy[|a.philosophy|].body == Philosophy("FaCode", "", "")
    ensures WellFormed(a.philosophy) ==> WellFormed(r.philosophy)
  {
    a.(philosophy := Add(a.philosophy, Philosophy("FaCode", "", "")))
  }

  /** `updatePhilosophy(index, field, value)`. */
  function UpdatePhilosophy(a: About, i: nat, f: PhilosophyField, v: string): (r: About)
    requires i < |a.philosophy|
    ensures r.introText == a.introText && r.journey == a.journey
    ensures |r.philosophy| == |a.philosophy|
    ensures r.philosophy[i].id == a.philosophy[i].id && r.philosophy[i].order == a.philosophy[i].order
    ensures PhilosophyGet(r.philosophy[i].body, f) == v
    ensures forall g :: g != f ==> PhilosophyGet(r.philosophy[i].body, g) == PhilosophyGet(a.philosophy[i].body, g)
    ensures forall k :: 0 <= k < |a.philosophy| && k != i ==> r.philosophy[k] == a.philosophy[k]
  {
    a.(philosophy := SetBody(a.philosophy, i, PhilosophyWith(a.philosophy[i].body, f, v)))
  }

  /** `removePhilosophy(index)`: the cards renumbered, intro and journey untouched. */
  function RemovePhilosophy(a: About, i: int): (r: About)
    ensures r.introText == a.introText && r.journey == a.journey
    ensures Numbered(r.philosophy)
    ensures 0 <= i < |a.philosophy| ==> |r.philosophy| == |a.philosophy| - 1
    ensures 0 <= i < |a.philosophy| ==> forall k :: 0 <= k < |r.philosophy| ==>
      SameRecord(r.philosophy[k], a.philosophy[if k < i then k else k + 1])
    ensures WellFormed(a.philosophy) ==> WellFormed(r.philosophy)
  {
    a.(philosophy := Remove(a.philosophy, i))
  }

  /** `movePhilosophy(index, dir)`. */
  function MovePhilosophy(a: About, i: nat, dir: int): (r: About)
    requires i < |a.philosophy|
    ensures r.introText == a.introText && r.journey == a.journey
    ensures !(0 <= i + dir < |a.philosophy|) ==> r == a
    ensures multiset(Ids(r.philosophy)) == multiset(Ids(a.philosophy))
    ensures 0 <= i + dir < |a.philosophy| ==>
      (|r.philosophy| == |a.philosophy| && Numbered(r.philosophy)
       && SameRecord(r.philosophy[i + dir], a.philosophy[i]) && SameRecord(r.philosophy[i], a.philosophy[i + dir]))
    ensures 0 <= i + dir < |a.philosophy| ==>
      forall k :: 0 <= k < |a.philosophy| && k != i && k != i + dir ==> SameRecord(r.philosophy[k], a.philosophy[k])
  {
    a.(philosophy := Move(a.philosophy, i, dir))
  }

  /** `addJourney`: an empty entry with a fresh id, appended. */
  function AddJourney(a: About): (r: About)
    ensures r.introText == a.introText && r.philosophy == a.philosophy
    ensures |r.journey| == |a.journey| + 1 && r.journey[..|a.journey|] == a.journey
    ensures forall k :: 0 <= k < |a.journey| ==> a.journey[k].id < r.journey[|a.journey|].id
    ensures r.journey[|a.journey|].order == |a.journey|
    ensures r.journey[|a.journey|].body == Journey("", "", "")
    ensures WellFormed(a.journey) ==> WellFormed(r.journey)
  {
    a.(journey := Add(a.journey, Journey("", "", "")))
  }

  /** `updateJourney(index, field, value)`. */
  function UpdateJourney(a: About, i: nat, f: JourneyField, v: string): (r: About)
    requires i < |a.journey|
    ensures r.introText == a.introText && r.philosophy == a.philosophy
    ensures |r.journey| == |a.journey|
    ensures r.journey[i].id == a.journey[i].id && r.journey[i].order == a.journey[i].order
    ensures JourneyGet(r.journey[i].body, f) == v
    ensures forall g :: g != f ==> JourneyGet(r.journey[i].body, g) == JourneyGet(a.journey[i].body, g)
    ensures forall k :: 0 <= k < |a.journey| && k != i ==> r.journey[k] == a.journey[k]
  {
    a.(journey := SetBody(a.journey, i, JourneyWith(a.journey[i].body, f, v)))
  }

  /** `removeJourney(index)`: the entries renumbered, intro and cards untouched. */
  function RemoveJourney(a: About, i: int): (r: About)
    ensures r.introText == a.introText && r.philosophy == a.philosophy
    ensures Numbered(r.journey)
    ensures 0 <= i < |a.journey| ==> |r.journey| == |a.journey| - 1
    ensures 0 <= i < |a.journey| ==> forall k :: 0 <= k < |r.journey| ==>
      SameRecord(r.journey[k], a.journey[if k < i then k else k + 1])
    ensures WellFormed(a.journey) ==> WellFormed(r.journey)
  {
    a.(journey := Remove(a.journey, i))
  }

  /** `moveJourney(index, dir)`. */
  function MoveJourney(a: About, i: nat, dir: int): (r: About)
    requires i < |a.journey|
    ensures r.introText == a.introText && r.philosophy == a.philosophy
    ensures !(0 <= i + dir < |a.journey|) ==> r == a
    ensures multiset(Ids(r.journey)) == multiset(Ids(a.journey))
    ensures 0 <= i + dir < |a.journey| ==>
      (|r.journey| == |a.journey| && Numbered(r.journey)
       && SameRecord(r.journey[i + dir], a.journey[i]) && SameRecord(r.journey[i], a.journey[i + dir]))
    ensures 0 <= i + dir < |a.journey| ==>
      forall k :: 0 <= k < |a.journey| && k != i && k != i + dir ==> SameRecord(r.journey[k], a.journey[k])
  {
    a.(journey := Move(a.journey, i, dir))
  }
}
