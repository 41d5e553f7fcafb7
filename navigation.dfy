// The page's state and every event handler that changes it, as steps on a
// value. An `async` handler is cut at each point where it waits (an `await`
// or a timer): each piece runs to completion before any other event is
// handled, and between two pieces any other handler may run.

module Navigation {
  import opened Opt
  import opened Sections
  import opened Bezel
  import opened Suits
  import opened Keys
  import opened EasterEgg

  /** Which of the two areas is shown: the watch face (`showWatch`) or the
      content zone beside the minimised watch (`showContent`). */
  datatype View = Watch | Content

  datatype Theme = Light | Dark

  /** The parts of the document the script looks up and tests for absence. */
  datatype Document = Document(
    pages: set<string>,      // the `data-page` values of the `.page` elements
    hasBezelAndDial: bool,   // both `#bezel` and `#dial` exist
    hasShuffleCard: bool)    // the shuffle overlay holds its `.flip-card-inner` and `.flip-card-face`

  /** The page shown by `loadDynamicPage`. */
  const DynamicPage: string := "dynamic"

  /** The script's top-level variables and the parts of the DOM the model keeps:
      the view, the visible page and the `data-page` target of each ace. */
  datatype PageState = PageState(
    currentSection: string,
    currentPageIndex: int,
    isAnimating: bool,
    currentTheme: Theme,
    bezelAngle: int,
    suitIndex: int,
    secret: string,
    view: View,
    visiblePage: Option<string>,
    leftAce: Option<string>,
    rightAce: Option<string>)

  /** What holds between events: the page index is a valid card index and the
      aces target its two cyclic neighbours; the bezel rests at a section
      angle; the suit index is a valid suit; the easter-egg buffer holds at
      most eleven characters and never the secret word itself. */
  predicate Valid(st: PageState)
    ensures Valid(st) ==> st.leftAce.Some? && st.rightAce.Some? && st.leftAce != st.rightAce
    ensures Valid(st) ==> 0 <= st.currentPageIndex < |CardPages|
                          && st.leftAce != Some(CardPages[st.currentPageIndex])
                          && st.rightAce != Some(CardPages[st.currentPageIndex])
  {
    && 0 <= st.currentPageIndex < |CardPages|
    && st.leftAce == CardPageAt(PrevIndex(st.currentPageIndex))
    && st.rightAce == CardPageAt(NextIndex(st.currentPageIndex))
    && Mapped(st.bezelAngle)
    && 0 <= st.suitIndex < |Symbols|
    && |st.secret| <= |Secret| && st.secret != Secret
  }

  // ---------------------------------------------------------------------------
  // DOM helpers
  // ---------------------------------------------------------------------------

  /** `showPage`: hide every page, then show the one with that `data-page`, if any. */
  function ShowPage(doc: Document, page: string): (r: Option<string>)
    ensures r.Some? <==> page in doc.pages
    ensures r.Some? ==> r.value == page
  {
    if page in doc.pages then Some(page) else None
  }

  /** `updateAces`: point the left ace at the previous page and the right ace
      at the next one. */
  function UpdateAces(st: PageState): (r: PageState)
    ensures r == st.(leftAce := r.leftAce, rightAce := r.rightAce)
    ensures 0 <= st.currentPageIndex < |CardPages| ==>
              r.leftAce == Some(CardPages[(st.currentPageIndex + 3) % 4])
              && r.rightAce == Some(CardPages[(st.currentPageIndex + 1) % 4])
  {
    var i := st.currentPageIndex;
    if 0 <= i < |CardPages| then Neighbours(i); UpdateAcesAt(st, i) else UpdateAcesAt(st, i)
  }

  function UpdateAcesAt(st: PageState, i: int): PageState
  {
    st.(leftAce := SetAce(st.leftAce, CardPageAt(PrevIndex(i))),
        rightAce := SetAce(st.rightAce, CardPageAt(NextIndex(i))))
  }

  /** The synchronous start of `aceShuffleAnimation`: the suit resets to clubs,
      unless the card is incomplete, in which case nothing happens. */
  function ShuffleStart(doc: Document, st: PageState): (r: PageState)
    ensures r == st.(suitIndex := r.suitIndex)
    ensures r.suitIndex == if doc.hasShuffleCard then 0 else st.suitIndex
  {
    if doc.hasShuffleCard then st.(suitIndex := 0) else st
  }

  /** The state once the script has loaded and `DOMContentLoaded` has shown the
      watch and labelled the aces. `initialPage` is whatever page the markup
      shows; the aces' `data-page` values in the markup are overwritten. */
  function Initial(initialPage: Option<string>): (st: PageState)
    ensures Valid(st)
    ensures st == PageState(Home, 0, false, Light, 0, 0, [], Watch, initialPage,
                            Some("contact"), Some("projects"))
  {
    UpdateAces(PageState(Home, 0, false, Light, 0, 0, "", Watch, initialPage, None, None))
  }

  // ---------------------------------------------------------------------------
  // navigateToSection, cut into the pieces between its awaits
  // ---------------------------------------------------------------------------

  /** Where an accepted navigation has got to: the stage it is waiting on. */
  datatype Stage =
    | Rotating   // waiting for the bezel rotation (stage 1)
    | Sweeping   // waiting for the hands (stage 2)
    | Shuffling  // waiting for the shuffle card (stage 3)
    | Shifting   // waiting for the ace shift (stage 4)

  /** The local state of one running `navigateToSection` call: the requested
      section, the bezel angle the rotation started from and its target. */
  datatype NavTask = NavTask(section: string, start: int, target: int, stage: Stage)

  predicate TaskOk(t: NavTask)
  {
    Mapped(t.start) && t.target == TargetAngle(t.section)
  }

  /** The state after a piece of a handler, and the handler's continuation if
      it is still running. */
  datatype NavStep = NavStep(state: PageState, next: Option<NavTask>)

  /** The synchronous start of `navigateToSection`: refuse while animating or
      when the section is already current; otherwise take the lock and start
      the rotation from the current bezel angle. */
  function NavBegin(st: PageState, section: string): (r: NavStep)
    ensures r.next.None? <==> st.isAnimating || section == st.currentSection
    ensures r.next.None? ==> r.state == st
    ensures r.next.Some? ==> r.state == st.(isAnimating := true)
    ensures r.next.Some? ==> r.next.value.stage == Rotating && r.next.value.section == section
    ensures r.next.Some? ==> r.next.value.start == st.bezelAngle && r.next.value.target == TargetAngle(section)
    ensures Valid(st) ==> Valid(r.state) && (r.next.Some? ==> TaskOk(r.next.value))
  {
    if st.isAnimating || section == st.currentSection then NavStep(st, None)
    else NavStep(st.(isAnimating := true),
                 Some(NavTask(section, st.bezelAngle, TargetAngle(section), Rotating)))
  }

  /** The last rotation tick, then the synchronous start of `animateHands`:
      the bezel angle becomes the target (it stays put when the bezel or the
      dial is missing) and the lock is set again. */
  function NavAfterRotate(doc: Document, st: PageState, t: NavTask): (r: NavStep)
    requires t.stage == Rotating
    ensures r.state.bezelAngle == if doc.hasBezelAndDial then t.target else st.bezelAngle
    ensures r.state.isAnimating
    ensures r.state == st.(bezelAngle := r.state.bezelAngle, isAnimating := true)
    ensures r.next == Some(t.(stage := Sweeping))
    ensures Valid(st) && TaskOk(t) ==> Valid(r.state)
  {
    var angle := if doc.hasBezelAndDial then t.target else st.bezelAngle;
    NavStep(st.(bezelAngle := angle, isAnimating := true), Some(t.(stage := Sweeping)))
  }

  /** The end of `animateHands`, then the synchronous start of the shuffle: the
      hands release the lock although the navigation has not committed yet. */
  function NavAfterHands(doc: Document, st: PageState, t: NavTask): (r: NavStep)
    requires t.stage == Sweeping
    ensures !r.state.isAnimating
    ensures r.state.currentSection == st.currentSection
    ensures r.state == ShuffleStart(doc, st).(isAnimating := false)
    ensures r.next == Some(t.(stage := Shuffling))
    ensures Valid(st) ==> Valid(r.state)
  {
    NavStep(ShuffleStart(doc, st.(isAnimating := false)), Some(t.(stage := Shuffling)))
  }

  /** After the shuffle. Going home from the content view waits for the ace
      shift; going home from the watch view shows the watch and commits. Going
      to a card page sets the index, relabels the aces, shows the page and the
      content view, then waits for the ace shift. Any other section commits at
      once without touching the view. */
  function NavAfterShuffle(doc: Document, st: PageState, t: NavTask): (r: NavStep)
    requires t.stage == Shuffling
    ensures r.next.Some? <==> (t.section == Home && st.view == Content) || t.section in CardPages
    ensures r.next.Some? ==> r.next.value == t.(stage := Shifting) && r.state.currentSection == st.currentSection
    ensures r.next.None? ==> r.state.currentSection == t.section && !r.state.isAnimating
    ensures t.section in CardPages ==>
              r.state.currentPageIndex == IndexOf(t.section) && r.state.view == Content
              && r.state.visiblePage == ShowPage(doc, t.section)
    ensures t.section == Home ==> r.state.view == Watch || r.state == st
    ensures t.section !in CardPages ==>
              r.state.currentPageIndex == st.currentPageIndex && r.state.visiblePage == st.visiblePage
              && r.state.leftAce == st.leftAce && r.state.rightAce == st.rightAce
    ensures t.section != Home && t.section !in CardPages ==> r.state.view == st.view
    ensures r.state.bezelAngle == st.bezelAngle && r.state.suitIndex == st.suitIndex
    ensures t.section == Home && st.view == Content ==> r.state == st
    ensures t.section == Home && st.view == Watch ==>
              r.state == st.(currentSection := Home, isAnimating := false)
    ensures t.section in CardPages ==>
              var i := IndexOf(t.section);
              r.state == st.(currentPageIndex := i,
                             leftAce := Some(CardPages[(i + 3) % 4]),
                             rightAce := Some(CardPages[(i + 1) % 4]),
                             visiblePage := ShowPage(doc, t.section),
                             view := Content)
    ensures t.section != Home && t.section !in CardPages ==>
              r.state == st.(currentSection := t.section, isAnimating := false)
    ensures Valid(st) ==> Valid(r.state)
  {
    if t.section == Home then
      if st.view == Content then NavStep(st, Some(t.(stage := Shifting)))
      else NavStep(Commit(st.(view := Watch), t.section), None)
    else
      var idx := IndexOf(t.section);
      if idx != -1 then
        var shown := UpdateAces(st.(currentPageIndex := idx)).(visiblePage := ShowPage(doc, t.section), view := Content);
        NavStep(shown, Some(t.(stage := Shifting)))
      else NavStep(Commit(st, t.section), None)
  }

  /** After the ace shift: show the watch when going home, then commit. */
  function NavAfterShift(st: PageState, t: NavTask): (r: PageState)
    requires t.stage == Shifting
    ensures r.currentSection == t.section && !r.isAnimating
    ensures t.section == Home ==> r.view == Watch
    ensures r == st.(currentSection := t.section, isAnimating := false,
                     view := if t.section == Home then Watch else st.view)
    ensures Valid(st) ==> Valid(r)
  {
    if t.section == Home then Commit(st.(view := Watch), t.section) else Commit(st, t.section)
  }

  /** `currentSection = section; isAnimating = false;` */
  function Commit(st: PageState, section: string): PageState
  {
    st.(currentSection := section, isAnimating := false)
  }

  /** The pieces after the hands, when no other event interleaves. */
  function NavFinish(doc: Document, st: PageState, t: NavTask): PageState
    requires t.stage == Shuffling
  {
    var s := NavAfterShuffle(doc, st, t);
    if s.next.Some? then NavAfterShift(s.state, s.next.value) else s.state
  }

  /** A whole `navigateToSection(section)` when no other event interleaves. */
  function Navigate(doc: Document, st: PageState, section: string): (r: PageState)
    ensures st.isAnimating || section == st.currentSection ==> r == st
    ensures !st.isAnimating && section != st.currentSection ==> r.currentSection == section && !r.isAnimating
    ensures Valid(st) ==> Valid(r)
  {
    var s1 := NavBegin(st, section);
    if s1.next.None? then s1.state
    else
      var s2 := NavAfterRotate(doc, s1.state, s1.next.value);
      var s3 := NavAfterHands(doc, s2.state, s2.next.value);
      NavFinish(doc, s3.state, s3.next.value)
  }

  /** The outcome of an accepted navigation that runs undisturbed. No
      `cycleSuit` tick runs in between here, so the suit index is the one the
      shuffle reset it to, before its ticks (see `SuitAfterTicksCycles` for the
      index after k ticks). */
  lemma NavigateOutcome(doc: Document, st: PageState, section: string)
    requires Valid(st) && !st.isAnimating && section != st.currentSection
    ensures var r := Navigate(doc, st, section);
      && Valid(r)
      && r.currentSection == section && !r.isAnimating
      && r.bezelAngle == (if doc.hasBezelAndDial then TargetAngle(section) else st.bezelAngle)
      && r.currentTheme == st.currentTheme && r.secret == st.secret
      && r.suitIndex == (if doc.hasShuffleCard then 0 else st.suitIndex)
      && (section in CardPages ==>
            && r.currentPageIndex == IndexOf(section)
            && CardPages[r.currentPageIndex] == section
            && r.view == Content && r.visiblePage == ShowPage(doc, section))
      && (section == Home ==>
            r.view == Watch && r.currentPageIndex == st.currentPageIndex && r.visiblePage == st.visiblePage)
      && (section != Home && section !in CardPages ==>
            r.view == st.view && r.currentPageIndex == st.currentPageIndex && r.visiblePage == st.visiblePage)
  {
    var s1 := NavBegin(st, section);
    var s2 := NavAfterRotate(doc, s1.state, s1.next.value);
    var s3 := NavAfterHands(doc, s2.state, s2.next.value);
    var s4 := NavAfterShuffle(doc, s3.state, s3.next.value);
    if section in CardPages {
      IndexOfCardPage(IndexOf(section));
    }
  }

  /** The lock is taken before the first await: when no earlier navigation is
      still running, a second request made while the bezel turns or the hands
      sweep is refused. */
  lemma RequestDuringRotationOrSweepRefused(doc: Document, st: PageState, a: string, b: string)
    requires !st.isAnimating && a != st.currentSection
    ensures var s1 := NavBegin(st, a);
            var s2 := NavAfterRotate(doc, s1.state, s1.next.value);
            NavBegin(s1.state, b).next.None? && NavBegin(s2.state, b).next.None?
  {
  }

  /** The lock is NOT held during the shuffle and the ace shift: once the hands
      have settled, a second request for any section other than the one still
      current is accepted, and when the first navigation then commits it
      clears the lock that the second one holds. */
  lemma RequestDuringShuffleAccepted(doc: Document, st: PageState, a: string, b: string)
    requires !st.isAnimating && a != st.currentSection && b != st.currentSection
    ensures var s1 := NavBegin(st, a);
            var s2 := NavAfterRotate(doc, s1.state, s1.next.value);
            var s3 := NavAfterHands(doc, s2.state, s2.next.value);
            var second := NavBegin(s3.state, b);
            && second.next.Some?
            && second.state.isAnimating
            && var r := NavFinish(doc, second.state, s3.next.value);
               r.currentSection == a && !r.isAnimating
  {
  }

  /** With an earlier navigation still running, the rotation and the sweep are
      not protected: navigation A is past its hands when B begins, A's commit
      clears the lock B took, and a third request is accepted while B is still
      rotating, and also when B has reached its sweep before A commits. */
  lemma RequestDuringRotationAcceptedAfterOverlap(doc: Document, st: PageState, a: string, b: string, c: string)
    requires !st.isAnimating && a != st.currentSection && b != st.currentSection && c != a
    ensures var s1 := NavBegin(st, a);
            var s2 := NavAfterRotate(doc, s1.state, s1.next.value);
            var s3 := NavAfterHands(doc, s2.state, s2.next.value);
            var second := NavBegin(s3.state, b);
            && second.next.Some? && second.next.value.stage == Rotating
            && NavBegin(NavFinish(doc, second.state, s3.next.value), c).next.Some?
            && var sweep := NavAfterRotate(doc, second.state, second.next.value);
               && sweep.next.Some? && sweep.next.value.stage == Sweeping
               && NavBegin(NavFinish(doc, sweep.state, s3.next.value), c).next.Some?
  {
  }

  // ---------------------------------------------------------------------------
  // aceClicked
  // ---------------------------------------------------------------------------

  /** The local state of one running `aceClicked` call: the page the ace
      targeted and its index. */
  datatype AceTask = AceTask(page: string, index: int)

  predicate AceTaskOk(t: AceTask)
  {
    0 <= t.index < |CardPages| && CardPages[t.index] == t.page
  }

  datatype AceStep = AceStep(state: PageState, next: Option<AceTask>)

  /** The synchronous start of `aceClicked(side)`: refuse while animating; take
      the lock; give it back and stop when the ace has no `data-page` or one
      that is not a card page; otherwise start the shuffle. */
  function AceBegin(doc: Document, st: PageState, side: Side): (r: AceStep)
    ensures r.next.None? ==> r.state == st
    ensures st.isAnimating ==> r.next.None?
    ensures r.next.Some? ==>
              && AceTaskOk(r.next.value)
              && Some(r.next.value.page) == (if side == Left then st.leftAce else st.rightAce)
              && r.state == ShuffleStart(doc, st).(isAnimating := true)
    ensures Valid(st) && !st.isAnimating ==> r.next.Some?
    ensures Valid(st) ==> Valid(r.state)
  {
    if st.isAnimating then AceStep(st, None)
    else
      var page := if side == Left then st.leftAce else st.rightAce;
      if !Present(page) then AceStep(st, None)
      else
        var idx := IndexOf(page.value);
        if idx == -1 then AceStep(st, None)
        else AceStep(ShuffleStart(doc, st.(isAnimating := true)), Some(AceTask(page.value, idx)))
  }

  /** The end of `aceClicked`: move to the ace's page, relabel the aces, show
      the page and release the lock. The view and the bezel stay as they are. */
  function AceFinish(doc: Document, st: PageState, t: AceTask): (r: PageState)
    ensures r.currentSection == t.page && r.currentPageIndex == t.index && !r.isAnimating
    ensures r.visiblePage == ShowPage(doc, t.page)
    ensures r.view == st.view && r.bezelAngle == st.bezelAngle && r.suitIndex == st.suitIndex
    ensures r == st.(currentSection := t.page, currentPageIndex := t.index, isAnimating := false,
                     visiblePage := ShowPage(doc, t.page), leftAce := r.leftAce, rightAce := r.rightAce)
    ensures 0 <= t.index < |CardPages| ==>
              r.leftAce == Some(CardPages[(t.index + 3) % 4]) && r.rightAce == Some(CardPages[(t.index + 1) % 4])
    ensures Valid(st) && AceTaskOk(t) ==> Valid(r)
  {
    UpdateAces(st.(currentPageIndex := t.index, currentSection := t.page))
      .(visiblePage := ShowPage(doc, t.page), isAnimating := false)
  }

  /** A whole `aceClicked(side)` when no other event interleaves. */
  function AceClick(doc: Document, st: PageState, side: Side): (r: PageState)
    ensures st.isAnimating ==> r == st
    ensures r != st ==>
              && 0 <= r.currentPageIndex < |CardPages| && !r.isAnimating
              && Some(r.currentSection) == (if side == Left then st.leftAce else st.rightAce)
              && CardPages[r.currentPageIndex] == r.currentSection
    ensures Valid(st) ==> Valid(r)
  {
    var s := AceBegin(doc, st, side);
    if s.next.Some? then AceFinish(doc, s.state, s.next.value) else s.state
  }

  /** From a valid idle state the left ace moves one page back and the right ace
      one page forward, cyclically, and the aces are relabelled for the new page. */
  lemma {:induction false} AceStepsCyclically(doc: Document, st: PageState, side: Side)
    requires Valid(st) && !st.isAnimating
    ensures var i := st.currentPageIndex;
            var j := if side == Left then (i + 3) % 4 else (i + 1) % 4;
            var r := AceClick(doc, st, side);
            && Valid(r)
            && r.currentPageIndex == j && r.currentSection == CardPages[j]
            && r.visiblePage == ShowPage(doc, CardPages[j])
            && r.view == st.view && r.bezelAngle == st.bezelAngle && !r.isAnimating
  {
    Neighbours(st.currentPageIndex);
    var s := AceBegin(doc, st, side);
    var t := s.next.value;
    IndexOfCardPage(if side == Left then PrevIndex(st.currentPageIndex) else NextIndex(st.currentPageIndex));
    assert t.index == if side == Left then PrevIndex(st.currentPageIndex) else NextIndex(st.currentPageIndex);
  }

  // ---------------------------------------------------------------------------
  // The other handlers
  // ---------------------------------------------------------------------------

  datatype HomeStep = HomeStep(state: PageState, pending: bool)

  /** The synchronous start of the home button's handler: refuse while
      animating; otherwise take the lock and start the shuffle. */
  function HomeBegin(doc: Document, st: PageState): (r: HomeStep)
    ensures r.pending <==> !st.isAnimating
    ensures !r.pending ==> r.state == st
    ensures r.pending ==> r.state == ShuffleStart(doc, st).(isAnimating := true)
    ensures Valid(st) ==> Valid(r.state)
  {
    if st.isAnimating then HomeStep(st, false)
    else HomeStep(ShuffleStart(doc, st.(isAnimating := true)), true)
  }

  /** The end of the home button's handler: show the watch, make home current
      and release the lock. Neither the page index nor the bezel moves. */
  function HomeFinish(st: PageState): (r: PageState)
    ensures r.view == Watch && r.currentSection == Home && !r.isAnimating
    ensures r == st.(view := Watch, currentSection := Home, isAnimating := false)
    ensures Valid(st) ==> Valid(r)
  {
    Commit(st.(view := Watch), Home)
  }

  /** A click on a dial button: navigate to its `data-section`, if it has one. */
  function DialClick(st: PageState, section: Option<string>): (r: NavStep)
    ensures !Present(section) ==> r == NavStep(st, None)
    ensures Present(section) ==> r == NavBegin(st, section.value)
    ensures r.next.Some? ==> Present(section) && r.next.value.section == section.value
    ensures Valid(st) ==> Valid(r.state) && (r.next.Some? ==> TaskOk(r.next.value))
  {
    if Present(section) then NavBegin(st, section.value) else NavStep(st, None)
  }

  /** A click on a mobile navigation button: show the page and the content view
      and make the section current at once. It ignores the lock and leaves the
      page index and the aces as they were. */
  function MobileNav(doc: Document, st: PageState, section: Option<string>): (r: PageState)
    ensures !Present(section) ==> r == st
    ensures Present(section) ==>
              r == st.(currentSection := section.value, view := Content,
                       visiblePage := ShowPage(doc, section.value))
    ensures r.isAnimating == st.isAnimating && r.currentPageIndex == st.currentPageIndex
    ensures r.leftAce == st.leftAce && r.rightAce == st.rightAce && r.bezelAngle == st.bezelAngle
    ensures Valid(st) ==> Valid(r)
  {
    if !Present(section) then st
    else st.(visiblePage := ShowPage(doc, section.value), view := Content, currentSection := section.value)
  }

  /** After the mobile navigation the current section and the page index can
      disagree: from the initial state, `projects` becomes current while the
      index still names `about`, so the right ace leads to the page already shown. */
  lemma MobileNavLeavesIndexStale(doc: Document, initialPage: Option<string>)
    ensures var r := MobileNav(doc, Initial(initialPage), Some("projects"));
            && r.currentSection == "projects"
            && CardPages[r.currentPageIndex] == "about"
            && r.rightAce == Some("projects")
  {
  }

  /** A click on a sub-page button (`.btn` with a `data-page`): ignored while
      animating; shows that page and the content view when the page exists,
      else the dynamic page (whose content is not modelled). */
  function SubPageClick(doc: Document, st: PageState, page: Option<string>): (r: PageState)
    ensures st.isAnimating || !Present(page) ==> r == st
    ensures !st.isAnimating && Present(page) && page.value in doc.pages ==>
              r == st.(visiblePage := page, view := Content)
    ensures !st.isAnimating && Present(page) && page.value !in doc.pages ==>
              r == st.(visiblePage := ShowPage(doc, DynamicPage))
    ensures r.currentSection == st.currentSection && r.isAnimating == st.isAnimating
    ensures Valid(st) ==> Valid(r)
  {
    if st.isAnimating || !Present(page) then st
    else if page.value in doc.pages then st.(visiblePage := ShowPage(doc, page.value), view := Content)
    else st.(visiblePage := ShowPage(doc, DynamicPage))
  }

  /** The theme toggle: light and dark swap. */
  function ToggleTheme(st: PageState): (r: PageState)
    ensures r.currentTheme != st.currentTheme
    ensures r == st.(currentTheme := r.currentTheme)
  {
    st.(currentTheme := if st.currentTheme == Light then Dark else Light)
  }

  lemma ToggleThemeTwice(st: PageState)
    ensures ToggleTheme(ToggleTheme(st)) == st
  {
  }

  /** One tick of `cycleSuit`: the next suit, cyclically, if the card face exists. */
  function CycleSuit(doc: Document, st: PageState): (r: PageState)
    ensures r == st.(suitIndex := r.suitIndex)
    ensures doc.hasShuffleCard && 0 <= st.suitIndex < |Symbols| ==> r.suitIndex == (st.suitIndex + 1) % 4
    ensures !doc.hasShuffleCard ==> r == st
    ensures Valid(st) ==> Valid(r)
  {
    if doc.hasShuffleCard then st.(suitIndex := NextSuit(st.suitIndex)) else st
  }

  /** The `keypress` handler: feed the key to the easter-egg buffer. */
  function KeyPress(st: PageState, key: string): (r: PageState)
    ensures r == st.(secret := r.secret)
    ensures |r.secret| <= |Secret| && r.secret != Secret
    ensures r.secret == [] <==> Last11(st.secret + Lower(key)) in {Secret, []}
    ensures r.secret != [] ==> r.secret == Last11(st.secret + Lower(key))
    ensures Valid(st) ==> Valid(r)
  {
    st.(secret := Feed(st.secret, key))
  }

  /** What a `keydown` starts: a navigation, an ace click, or nothing. */
  datatype KeyStep = KeyStep(state: PageState, nav: Option<NavTask>, ace: Option<AceTask>)

  /** The `keydown` handler: dispatch on the key (see `KeyDownAction`). */
  function KeyDown(doc: Document, st: PageState, key: string): (r: KeyStep)
    ensures st.isAnimating ==> r == KeyStep(st, None, None)
    ensures r.nav.Some? ==> r.ace.None? && r.nav.value.section != "contact"
    ensures r.ace.Some? ==> r.nav.None? && st.currentSection != Home
    ensures KeyDownAction(key, st.isAnimating, st.currentSection) == Ignore ==> r == KeyStep(st, None, None)
    ensures KeyDownAction(key, st.isAnimating, st.currentSection).Navigate? ==>
              var s := NavBegin(st, KeyDownAction(key, st.isAnimating, st.currentSection).section);
              r == KeyStep(s.state, s.next, None)
    ensures KeyDownAction(key, st.isAnimating, st.currentSection).Ace? ==>
              var s := AceBegin(doc, st, KeyDownAction(key, st.isAnimating, st.currentSection).side);
              r == KeyStep(s.state, None, s.next)
    ensures Valid(st) ==> Valid(r.state)
  {
    match KeyDownAction(key, st.isAnimating, st.currentSection)
    case Ignore => KeyStep(st, None, None)
    case Navigate(section) =>
      var s := NavBegin(st, section);
      KeyStep(s.state, s.next, None)
    case Ace(side) =>
      var s := AceBegin(doc, st, side);
      KeyStep(s.state, None, s.next)
  }
}
