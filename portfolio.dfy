// The script's top-level variables as the fields of one object, and its event
// handlers as methods that update them in place. Each method is specified by
// the step function of module Navigation that it carries out.

module Page {
  import opened Opt
  import opened Sections
  import opened Bezel
  import opened Keys
  import opened EasterEgg
  import opened Suits
  import N = Navigation

  class Portfolio {
    // the document, fixed once loaded
    const pages: set<string>
    const hasBezelAndDial: bool
    const hasShuffleCard: bool

    // the script's variables
    var currentSection: string
    var currentPageIndex: int
    var isAnimating: bool
    var currentTheme: N.Theme
    var bezelAngle: int
    var suitIndex: int
    var secret: string

    // the DOM, abstracted
    var view: N.View
    var visiblePage: Option<string>
    var leftAce: Option<string>
    var rightAce: Option<string>

    function Doc(): N.Document
    {
      N.Document(pages, hasBezelAndDial, hasShuffleCard)
    }

    function State(): N.PageState
      reads this
    {
      N.PageState(currentSection, currentPageIndex, isAnimating, currentTheme, bezelAngle,
                  suitIndex, secret, view, visiblePage, leftAce, rightAce)
    }

    ghost predicate Valid()
      reads this
    {
      N.Valid(State())
    }

    /** Script load followed by `DOMContentLoaded`: show the watch, label the aces. */
    constructor (pages: set<string>, hasBezelAndDial: bool, hasShuffleCard: bool, initialPage: Option<string>)
      ensures Valid()
      ensures Doc() == N.Document(pages, hasBezelAndDial, hasShuffleCard)
      ensures State() == N.Initial(initialPage)
    {
      this.pages := pages;
      this.hasBezelAndDial := hasBezelAndDial;
      this.hasShuffleCard := hasShuffleCard;
      currentSection := Home;
      currentPageIndex := 0;
      isAnimating := false;
      currentTheme := N.Light;
      bezelAngle := 0;
      suitIndex := 0;
      secret := "";
      view := N.Watch;
      visiblePage := initialPage;
      leftAce := Some(CardPages[3]);
      rightAce := Some(CardPages[1]);
    }

    /** `updateAces` on the current page index. */
    method UpdateAces()
      modifies this
      ensures State() == N.UpdateAces(old(State()))
    {
      var i := currentPageIndex;
      leftAce := SetAce(leftAce, CardPageAt(PrevIndex(i)));
      rightAce := SetAce(rightAce, CardPageAt(NextIndex(i)));
    }

    /** The synchronous part of `aceShuffleAnimation`. */
    method StartShuffle()
      modifies this
      ensures State() == N.ShuffleStart(Doc(), old(State()))
    {
      if hasShuffleCard {
        suitIndex := 0;
      }
    }

    // ---- navigateToSection ----

    method NavigateBegin(section: string) returns (task: Option<N.NavTask>)
      requires Valid()
      modifies this
      ensures Valid()
      ensures N.NavStep(State(), task) == N.NavBegin(old(State()), section)
    {
      if isAnimating {
        return None;
      }
      if section == currentSection {
        return None;
      }
      isAnimating := true;
      task := Some(N.NavTask(section, bezelAngle, TargetAngle(section), N.Rotating));
    }

    /** The rotation's ticks and its last tick, then the start of the hand sweep.
        `frames` are the angles applied to the markers, one per tick. */
    method NavigateAfterRotate(task: N.NavTask) returns (frames: seq<int>, next: N.NavTask)
      requires Valid() && task.stage == N.Rotating && N.TaskOk(task)
      modifies this
      ensures Valid()
      ensures N.NavStep(State(), Some(next)) == N.NavAfterRotate(Doc(), old(State()), task)
      ensures !hasBezelAndDial ==> frames == []
      ensures hasBezelAndDial ==>
                && |frames| == TickCount(ShortestDiff(task.start, task.target))
                && frames[|frames| - 1] == task.target
                && forall k :: 0 <= k < |frames| - 1 ==>
                     frames[k] == task.start + TickDelta(task.start, task.target) * (k + 1)
    {
      frames := [];
      if hasBezelAndDial {
        frames := RotationFrames(task.start, task.target);
        bezelAngle := task.target;
      }
      isAnimating := true;
      next := task.(stage := N.Sweeping);
    }

    /** The hands settle and release the lock; the shuffle starts. */
    method NavigateAfterHands(task: N.NavTask) returns (next: N.NavTask)
      requires Valid() && task.stage == N.Sweeping
      modifies this
      ensures Valid()
      ensures !isAnimating
      ensures N.NavStep(State(), Some(next)) == N.NavAfterHands(Doc(), old(State()), task)
    {
      isAnimating := false;
      StartShuffle();
      next := task.(stage := N.Shuffling);
    }

    method NavigateAfterShuffle(task: N.NavTask) returns (next: Option<N.NavTask>)
      requires Valid() && task.stage == N.Shuffling
      modifies this
      ensures Valid()
      ensures N.NavStep(State(), next) == N.NavAfterShuffle(Doc(), old(State()), task)
    {
      var section := task.section;
      if section == Home {
        if view == N.Content {
          return Some(task.(stage := N.Shifting));
        }
        view := N.Watch;
      } else {
        var idx := IndexOf(section);
        if idx != -1 {
          currentPageIndex := idx;
          UpdateAces();
          visiblePage := N.ShowPage(Doc(), section);
          view := N.Content;
          return Some(task.(stage := N.Shifting));
        }
      }
      currentSection := section;
      isAnimating := false;
      next := None;
    }

    method NavigateAfterShift(task: N.NavTask)
      requires Valid() && task.stage == N.Shifting
      modifies this
      ensures Valid()
      ensures State() == N.NavAfterShift(old(State()), task)
    {
      if task.section == Home {
        view := N.Watch;
      }
      currentSection := task.section;
      isAnimating := false;
    }

    /** A whole `navigateToSection(section)` with no other event in between. */
    method NavigateToSection(section: string) returns (frames: seq<int>)
      requires Valid()
      modifies this
      ensures Valid()
      ensures State() == N.Navigate(Doc(), old(State()), section)
      ensures old(isAnimating) || section == old(currentSection) ==> State() == old(State())
      ensures !old(isAnimating) && section != old(currentSection) ==>
                currentSection == section && !isAnimating
                && (hasBezelAndDial ==> bezelAngle == TargetAngle(section))
      ensures old(isAnimating) || section == old(currentSection) || !hasBezelAndDial ==> frames == []
      ensures !old(isAnimating) && section != old(currentSection) && hasBezelAndDial ==>
                var start := old(bezelAngle);
                var target := TargetAngle(section);
                && |frames| == TickCount(ShortestDiff(start, target))
                && frames[|frames| - 1] == target
                && forall k :: 0 <= k < |frames| - 1 ==> frames[k] == start + TickDelta(start, target) * (k + 1)
    {
      frames := [];
      var task := NavigateBegin(section);
      if task.None? {
        return;
      }
      var t2;
      frames, t2 := NavigateAfterRotate(task.value);
      var t3 := NavigateAfterHands(t2);
      var t4 := NavigateAfterShuffle(t3);
      if t4.Some? {
        NavigateAfterShift(t4.value);
      }
    }

    // ---- aceClicked ----

    /** The guards below can only fail in a state that is not `Valid()`, which is
        why this method does not require it. */
    method AceClickBegin(side: Side) returns (task: Option<N.AceTask>)
      modifies this
      ensures old(Valid()) ==> Valid()
      ensures N.AceStep(State(), task) == N.AceBegin(Doc(), old(State()), side)
    {
      if isAnimating {
        return None;
      }
      isAnimating := true;
      var page := if side == Left then leftAce else rightAce;
      if !Present(page) {
        isAnimating := false;
        return None;
      }
      var idx := IndexOf(page.value);
      if idx == -1 {
        isAnimating := false;
        return None;
      }
      StartShuffle();
      task := Some(N.AceTask(page.value, idx));
    }

    method AceClickFinish(task: N.AceTask)
      requires Valid() && N.AceTaskOk(task)
      modifies this
      ensures Valid()
      ensures State() == N.AceFinish(Doc(), old(State()), task)
    {
      currentPageIndex := task.index;
      currentSection := task.page;
      UpdateAces();
      visiblePage := N.ShowPage(Doc(), task.page);
      isAnimating := false;
    }

    /** A whole `aceClicked(side)` with no other event in between. */
    method AceClicked(side: Side)
      requires Valid()
      modifies this
      ensures Valid()
      ensures State() == N.AceClick(Doc(), old(State()), side)
      ensures !old(isAnimating) ==>
                currentPageIndex == (if side == Left then (old(currentPageIndex) + 3) % 4
                                     else (old(currentPageIndex) + 1) % 4)
                && currentSection == CardPages[currentPageIndex]
                && view == old(view) && bezelAngle == old(bezelAngle)
    {
      ghost var before := State();
      var task := AceClickBegin(side);
      if task.Some? {
        AceClickFinish(task.value);
      }
      if !before.isAnimating {
        N.AceStepsCyclically(Doc(), before, side);
      }
    }

    // ---- the home button ----

    method HomeButtonBegin() returns (pending: bool)
      requires Valid()
      modifies this
      ensures Valid()
      ensures N.HomeStep(State(), pending) == N.HomeBegin(Doc(), old(State()))
    {
      if isAnimating {
        return false;
      }
      isAnimating := true;
      StartShuffle();
      pending := true;
    }

    method HomeButtonFinish()
      requires Valid()
      modifies this
      ensures Valid()
      ensures State() == N.HomeFinish(old(State()))
    {
      view := N.Watch;
      currentSection := Home;
      isAnimating := false;
    }

    // ---- the other handlers ----

    method DialClicked(section: Option<string>) returns (task: Option<N.NavTask>)
      requires Valid()
      modifies this
      ensures Valid()
      ensures N.NavStep(State(), task) == N.DialClick(old(State()), section)
    {
      task := None;
      if Present(section) {
        task := NavigateBegin(section.value);
      }
    }

    method MobileNavClicked(section: Option<string>)
      requires Valid()
      modifies this
      ensures Valid()
      ensures State() == N.MobileNav(Doc(), old(State()), section)
    {
      if !Present(section) {
        return;
      }
      visiblePage := N.ShowPage(Doc(), section.value);
      view := N.Content;
      currentSection := section.value;
    }

    method SubPageClicked(page: Option<string>)
      requires Valid()
      modifies this
      ensures Valid()
      ensures State() == N.SubPageClick(Doc(), old(State()), page)
    {
      if isAnimating || !Present(page) {
        return;
      }
      if page.value in pages {
        visiblePage := N.ShowPage(Doc(), page.value);
        view := N.Content;
        return;
      }
      visiblePage := N.ShowPage(Doc(), N.DynamicPage);
    }

    method ToggleTheme()
      requires Valid()
      modifies this
      ensures Valid()
      ensures State() == N.ToggleTheme(old(State()))
    {
      currentTheme := if currentTheme == N.Light then N.Dark else N.Light;
    }

    method CycleSuit()
      requires Valid()
      modifies this
      ensures Valid()
      ensures State() == N.CycleSuit(Doc(), old(State()))
    {
      if !hasShuffleCard {
        return;
      }
      suitIndex := NextSuit(suitIndex);
    }

    /** The `keydown` handler; it returns the continuation of whatever it started. */
    method KeyDown(key: string) returns (nav: Option<N.NavTask>, ace: Option<N.AceTask>)
      requires Valid()
      modifies this
      ensures Valid()
      ensures N.KeyStep(State(), nav, ace) == N.KeyDown(Doc(), old(State()), key)
    {
      nav, ace := None, None;
      match KeyDownAction(key, isAnimating, currentSection)
      case Ignore =>
      case Navigate(section) =>
        nav := NavigateBegin(section);
      case Ace(side) =>
        ace := AceClickBegin(side);
    }

    /** The `keypress` handler. */
    method KeyPress(key: string)
      requires Valid()
      modifies this
      ensures Valid()
      ensures State() == N.KeyPress(old(State()), key)
    {
      secret := Feed(secret, key);
    }
  }
}
