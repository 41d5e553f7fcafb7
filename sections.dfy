// Sections of the page, the cyclic order of the four content ("card") pages,
// the bezel angle of each section and the labels shown on the two aces.

module Opt {
  datatype Option<T> = None | Some(value: T)
}

module Sections {
  import opened Opt

  const Home: string := "home"

  /** The content pages in their cyclic order (`cardPages`). */
  const CardPages: seq<string> := ["about", "projects", "achievements", "contact"]

  /** A DOM attribute that may be missing; JavaScript treats "" as missing too. */
  predicate Present(attr: Option<string>)
  {
    attr.Some? && attr.value != ""
  }

  /** `cardPages.indexOf(page)`: the position of `page`, or -1. */
  function IndexOf(page: string): (r: int)
    ensures -1 <= r < |CardPages|
    ensures r == -1 <==> page !in CardPages
    ensures r >= 0 ==> CardPages[r] == page
  {
    if page == "about" then 0
    else if page == "projects" then 1
    else if page == "achievements" then 2
    else if page == "contact" then 3
    else -1
  }

  /** `cardPages[k]`, which is `undefined` outside the array. */
  function CardPageAt(k: int): (r: Option<string>)
    ensures r.Some? <==> 0 <= k < |CardPages|
    ensures r.Some? ==> IndexOf(r.value) == k
  {
    if 0 <= k < |CardPages| then Some(CardPages[k]) else None
  }

  /** JavaScript's `%`: the remainder truncates toward zero, so it takes the sign of `a`. */
  function JsRem(a: int, n: int): (r: int)
    requires n > 0
    ensures a >= 0 ==> r == a % n
    ensures a < 0 ==> -n < r <= 0
    ensures a == n * (if a >= 0 then a / n else -((-a) / n)) + r
  {
    if a >= 0 then a % n else -((-a) % n)
  }

  /** Index of the page the left ace shows: `(i - 1 + cardPages.length) % cardPages.length`. */
  function PrevIndex(i: int): (r: int)
    ensures 0 <= i < |CardPages| ==> 0 <= r < |CardPages| && r == (i + 3) % 4
  {
    JsRem(i - 1 + |CardPages|, |CardPages|)
  }

  /** Index of the page the right ace shows: `(i + 1) % cardPages.length`. */
  function NextIndex(i: int): (r: int)
    ensures 0 <= i < |CardPages| ==> 0 <= r < |CardPages| && r == (i + 1) % 4
  {
    JsRem(i + 1, |CardPages|)
  }

  /** For a valid page index the two neighbours are each other's inverse, and the
      current page and its two neighbours are three different pages. */
  lemma Neighbours(i: int)
    requires 0 <= i < |CardPages|
    ensures 0 <= PrevIndex(i) < |CardPages| && 0 <= NextIndex(i) < |CardPages|
    ensures PrevIndex(i) == (i + 3) % 4 && NextIndex(i) == (i + 1) % 4
    ensures PrevIndex(NextIndex(i)) == i && NextIndex(PrevIndex(i)) == i
    ensures CardPages[PrevIndex(i)] != CardPages[i]
    ensures CardPages[NextIndex(i)] != CardPages[i]
    ensures CardPages[PrevIndex(i)] != CardPages[NextIndex(i)]
  {
  }

  /** `indexOf` and indexing into `cardPages` are inverse. */
  lemma {:induction false} IndexOfCardPage(k: int)
    requires 0 <= k < |CardPages|
    ensures IndexOf(CardPages[k]) == k
  {
    assert CardPages[k] in CardPages;
    var r := IndexOf(CardPages[k]);
    assert CardPages[r] == CardPages[k];
  }

  /** `sectionAngles`: the bezel angle of a section, the hour marker times 30 degrees. */
  function SectionAngle(section: string): (r: Option<int>)
    ensures r.Some? <==> section in {Home, "contact", "about", "projects", "achievements"}
    ensures r.Some? ==> 0 <= r.value < 360 && r.value % 90 == 0
  {
    if section == Home then Some(0)
    else if section == "contact" then Some(0)
    else if section == "about" then Some(90)
    else if section == "projects" then Some(180)
    else if section == "achievements" then Some(270)
    else None
  }

  /** The angle navigation rotates to: the mapped angle, or 0 for an unmapped section. */
  function TargetAngle(section: string): (a: int)
    ensures a == 0 || a == 90 || a == 180 || a == 270
    ensures SectionAngle(section).None? ==> a == 0
  {
    match SectionAngle(section)
    case Some(t) => t
    case None => 0
  }

  /** The dial buttons of the content pages go clockwise in card order, a quarter
      turn apart, with `contact` at twelve o'clock like `home`. */
  lemma CardAnglesClockwise(k: int)
    requires 0 <= k < |CardPages|
    ensures TargetAngle(CardPages[k]) == ((k + 1) * 90) % 360
    ensures TargetAngle(CardPages[k]) == TargetAngle(Home) <==> CardPages[k] == "contact"
  {
  }

  /** The two aces, left of the watch (previous page) and right of it (next page). */
  datatype Side = Left | Right

  /** The data behind one ace label (`aceData`). Suit, colour and name are
      display text; the script only asks whether a page has an entry. */
  datatype AceLabel = AceLabel(suit: char, red: bool, name: string)

  function AceData(page: string): (r: Option<AceLabel>)
    ensures r.Some? <==> page in CardPages
  {
    if page == "about" then Some(AceLabel('♠', false, "ABOUT"))
    else if page == "projects" then Some(AceLabel('♥', true, "PROJECTS"))
    else if page == "achievements" then Some(AceLabel('♦', true, "AWARDS"))
    else if page == "contact" then Some(AceLabel('♣', false, "CONTACT"))
    else None
  }

  /** `setAce`: an ace takes the new page only when that page has ace data;
      otherwise it keeps its old `data-page`. */
  function SetAce(current: Option<string>, page: Option<string>): (r: Option<string>)
    ensures page.Some? && page.value in CardPages ==> r == page
    ensures !(page.Some? && page.value in CardPages) ==> r == current
  {
    if page.Some? && AceData(page.value).Some? then page else current
  }
}
