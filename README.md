# Yachtmaster portfolio: the navigation logic of `script.js`

`script.js` drives a portfolio page drawn as a wristwatch. A bezel turns to the
section picked on the dial, the hands sweep to the same angle, a playing card
shuffles, and two "aces" beside the watch lead to the previous and next content
page. Under the DOM code sits a small amount of state: the current section,
the index of the current content ("card") page, the `isAnimating` lock, the
bezel angle, the shuffle card's suit index, the theme and the easter-egg key
buffer. Every event handler reads or rewrites that state.

This project models that state and the handlers, and proves what they
guarantee and what they do not:

- `sections.dfy`: the four card pages in cyclic order, `indexOf`, the angle of
  each section, the ace labels, and the cyclic neighbour arithmetic of
  `updateAces` (with JavaScript's truncating `%`).
- `bezel.dfy`: the shortest-way bezel turn, the tick count
  `max(1, round(|diff| / 6))`, the tick loop that produces the applied angles,
  and the 60-marker loop.
- `clock.dfy`: `pad` and the `hh:mm:ss` text, with a round trip back to the numbers.
- `suits.dfy`: the suit cycler.
- `keyboard.dfy`: the `keydown` dispatch table and the `keypress` easter-egg buffer.
- `navigation.dfy`: the page state as a value and one step function per piece
  of each handler. An `async` handler is cut at every `await` or timer. Each
  piece runs to completion, and any other handler may run between two pieces.
  `navigateToSection` becomes begin, after rotate, after hands, after shuffle
  and after shift. The pieces return the handler's continuation (a task value
  holding its local variables), so interleavings can be stated.
- `portfolio.dfy`: class `Portfolio`, whose fields are the script's variables
  and an abstract DOM: the view (watch or content), the visible page, and the
  two aces' `data-page` targets. Its methods update the fields in place. Each
  method is specified by the step function it carries out and keeps the
  invariant `Valid()`.

The document is a parameter (`Navigation.Document`). It gives the set of
`data-page` values present, whether `#bezel` and `#dial` both exist, and
whether the shuffle card holds its inner parts. These are the lookups the
script tests for absence.

The model follows what the code does at three places worth knowing:

- The normalised bezel turn lies in [-180, 180], and both ends occur: a half
  turn is taken clockwise or anticlockwise depending on the starting angle
  (`Bezel.DiffEndpoints`).
- The lock is not held for the whole navigation. `animateHands` clears
  `isAnimating` when the hands settle (script.js:169). So during the shuffle
  and the ace shift a second navigation is accepted, and the first one's
  commit then clears the lock that the second holds
  (`Navigation.RequestDuringShuffleAccepted`). When no earlier navigation is
  still running, a request made during the rotation or the sweep is refused
  (`Navigation.RequestDuringRotationOrSweepRefused`). After such an overlap,
  though, the second navigation rotates and sweeps without the lock, and a
  third request is accepted (`Navigation.RequestDuringRotationAcceptedAfterOverlap`).
- The mobile navigation ignores the lock. It changes the current section
  without the page index or the aces, so the two can disagree
  (`Navigation.MobileNavLeavesIndexStale`).

## Model

| member | source | states |
|---|---|---|
| `Sections.IndexOf` | script.js:271 | the result is the page's position in `cardPages`, and -1 exactly when the page is not a card page |
| `Sections.CardPageAt` | script.js:228-229 | indexing `cardPages` gives a page exactly inside 0..3, and that page's `indexOf` is the index |
| `Sections.JsRem` | script.js:228-229 | JavaScript `%`: the remainder of the quotient truncated toward zero, taking the dividend's sign; it agrees with the mathematical remainder on non-negative operands |
| `Sections.PrevIndex` | script.js:228 | for a valid index the previous card index is `(i+3) mod 4`, a valid index |
| `Sections.NextIndex` | script.js:229 | for a valid index the next card index is `(i+1) mod 4`, a valid index |
| `Sections.SectionAngle` | script.js:42-48 | exactly home and the four card pages have an angle; each is a multiple of 90 in [0, 360) |
| `Sections.Neighbours` | script.js:227-233 | for a valid index the left ace's index is `(i+3)%4` and the right ace's is `(i+1)%4`; they are inverse moves; the three pages are pairwise different |
| `Sections.IndexOfCardPage` | script.js:6 | `indexOf(cardPages[k]) == k`: indexing and `indexOf` are inverse |
| `Sections.TargetAngle` | script.js:254-257 | the rotation target is always 0, 90, 180 or 270, and 0 for a section without an angle |
| `Sections.CardAnglesClockwise` | script.js:42-48 | card page k sits at `(k+1)*90 mod 360`; only `contact` shares home's angle |
| `Sections.AceData` | script.js:14-19 | exactly the card pages have ace data |
| `Sections.SetAce` | script.js:235-244 | an ace takes a new target exactly when it is a card page; otherwise its target is unchanged |
| `Bezel.ShortestDiff` | script.js:121-125 | the turn lands on the target modulo 360 and, for angles in [0, 360), lies in [-180, 180]; a raw difference already in [-180, 180], half turns included, is kept as it is |
| `Bezel.ShortestDiffIsShortest` | script.js:123-125 | no turn that lands on the same angle is shorter |
| `Bezel.DiffEndpoints` | script.js:124-125 | both +180 and -180 occur: 0 to 180 and 90 to 270 turn +180, 180 to 0 and 270 to 90 turn -180; 270 to 0 turns +90 |
| `Bezel.TickCount` | script.js:127-128 | the tick count is at least 1 and is `|diff| / 6` rounded half up; a single tick means a turn of under 9 degrees |
| `Bezel.MappedTicks` | script.js:127-140 | between section angles each tick turns 0 or 6 degrees, the ticks add up to the whole turn, and only a turn to the same angle takes one tick |
| `Bezel.RotationFrames` | script.js:129-143 | the loop applies one angle per tick; tick k applies `start + (diff/steps)*k`, and the last tick applies the target |
| `Bezel.FramesAreEvenTicks` | script.js:131-141 | consecutive frames are 6 degrees apart, and the final frame is one more tick on, modulo 360 |
| `Bezel.GenerateBezelMarkers` | script.js:53-73 | 60 markers, none without the container; the hour marks are the multiples of 15; numbered marks are the other multiples of 5, at `6*i` degrees |
| `Bezel.MarkersAvoidButtons` | script.js:57-68 | the hour positions are exactly the section angles, and no numbered mark falls on one |
| `Clock.Digits` | script.js:87 | `String(n)`: at least one character, all decimal digits, a single digit exactly below 10, and no leading zero for n >= 1 |
| `Clock.Pad` | script.js:87 | the result is all digits, at least two long, with a leading 0 below 10 |
| `Clock.ValueOfDigits` | script.js:87 | the decimal digits of n read back as n |
| `Clock.LeadingZero` | script.js:87 | a leading zero does not change the value |
| `Clock.PadRoundTrip` | script.js:87 | padding never changes the number shown |
| `Clock.TwoDigits` | script.js:87 | numbers below 100 pad to exactly two characters |
| `Clock.FormatTime` | script.js:97 | the colons of the text stand exactly after the padded hours and after the padded minutes, and every other character is a digit |
| `Clock.FormatTimeFields` | script.js:94-97 | the clock text is 8 characters with colons at 2 and 5, and each field reads back as h, m and s |
| `Suits.NextSuit` | script.js:33 | for a non-negative index the next suit index is `(i+1) mod 4`, a valid suit index |
| `Suits.SuitAfterTicksCycles` | script.js:29-38 | after the reset to clubs and k ticks, the card shows suit `k mod 4` |
| `Keys.LowerChar` | script.js:471 | upper-case ASCII letters map to lower case; every other character is kept |
| `Keys.Lower` | script.js:448 | lower-casing keeps the length and maps each character |
| `Keys.KeyDownAction` | script.js:440-455 | nothing while animating; no key navigates to `contact`; arrows act only off home |
| `Keys.LowerIsH` | script.js:448 | a key lower-cases to `h` exactly when it is `h` or `H` |
| `Keys.HomeKeys` | script.js:444-448 | a key leads home exactly when idle and it is `1`, `h`, `H` or `Escape` |
| `Keys.SectionKeys` | script.js:444-445 | `2`, `3`, `4` lead to about, projects, achievements, and no key leads to any other section but home |
| `Keys.ArrowKeys` | script.js:450-454 | an arrow clicks its ace exactly when idle and not on home |
| `EasterEgg.Last11` | script.js:472 | the result is the last eleven characters, or all of them |
| `EasterEgg.Feed` | script.js:470-481 | after a key the buffer holds at most 11 characters and never the word; it is empty exactly when the trimmed buffer was the word or empty; otherwise it is exactly the last eleven characters of the old buffer plus the lower-cased key |
| `EasterEgg.SuffixOfSuffix` | script.js:472 | a suffix of a suffix is a suffix |
| `EasterEgg.OnlyLastLetterIsR` | script.js:473 | the word's last letter occurs nowhere earlier in it |
| `EasterEgg.FeedNextLetter` | script.js:471-481 | typing the next letter of the word extends the matched start, and only the last letter clears the buffer |
| `EasterEgg.FeedTowardSecret` | script.js:469-481 | typing the rest of the word after its matched start clears the buffer |
| `EasterEgg.TypingSecretClears` | script.js:469-481 | from any buffer, typing `yachtmaster` in any case clears the buffer |
| `Navigation.Valid` | script.js:227-244 | in every valid state both aces have a target, the two differ, and neither is the current card page |
| `Navigation.ShowPage` | script.js:301-305 | a page is visible exactly when the document has it |
| `Navigation.UpdateAces` | script.js:227-233 | for a valid index the aces target `cardPages[(i+3)%4]` and `cardPages[(i+1)%4]`; nothing else changes |
| `Navigation.ShuffleStart` | script.js:197-209 | the shuffle resets the suit to clubs unless the card is incomplete; nothing else changes |
| `Navigation.Initial` | script.js:5-11 | the loaded page is valid and its whole state is given: home, index 0, idle, light theme, angle 0, suit 0, empty buffer, the watch, the markup's visible page, aces on contact and projects |
| `Navigation.NavBegin` | script.js:249-252 | a request is refused exactly while animating or for the current section, and then nothing changes; otherwise only the lock is set |
| `Navigation.NavAfterRotate` | script.js:115-144 | the bezel angle becomes the target, or is unchanged without bezel or dial; the hands take the lock again |
| `Navigation.NavAfterHands` | script.js:164-171 | when the hands settle the lock is free although the section is not yet committed |
| `Navigation.NavAfterShuffle` | script.js:261-280 | the whole new state per case: home from content changes nothing and waits for the shift; home from the watch commits; a card page sets the index, its neighbour aces, the content view and the page and waits for the shift; other sections commit; lock, theme, bezel, suit and buffer are otherwise kept |
| `Navigation.NavAfterShift` | script.js:262-283 | the section commits and the lock is cleared; home shows the watch, any other section keeps the view; nothing else changes |
| `Navigation.Navigate` | script.js:249-284 | a request while animating or for the current section changes nothing; any other ends idle on the section; validity is kept |
| `Navigation.NavigateOutcome` | script.js:249-284 | an undisturbed navigation ends valid, idle, on the section, with the bezel at its angle and the suit reset to clubs when the card is whole, before the shuffle's own ticks (see `Suits.SuitAfterTicksCycles`); a card page's index, view and page are set; home shows the watch and keeps the index; other sections change neither view nor index |
| `Navigation.RequestDuringRotationOrSweepRefused` | script.js:250-260 | with no earlier navigation running, a second request during the rotation or the sweep is refused |
| `Navigation.RequestDuringRotationAcceptedAfterOverlap` | script.js:164-171 | once the first commit has cleared a second navigation's lock, a third request is accepted while the second is rotating or sweeping |
| `Navigation.RequestDuringShuffleAccepted` | script.js:164-171 | a second request during the shuffle is accepted, and the first commit clears its lock |
| `Navigation.AceBegin` | script.js:312-324 | refused while animating; a missing or unknown target changes nothing; otherwise it locks, starts the shuffle and remembers the ace's page |
| `Navigation.AceFinish` | script.js:326-332 | the ace's page becomes current with its index and its neighbour aces; the page is shown and the lock released; nothing else changes |
| `Navigation.AceClick` | script.js:312-333 | a click while animating changes nothing; a click that changes anything ends idle on the clicked ace's page with its index; validity is kept |
| `Navigation.AceStepsCyclically` | script.js:312-333 | from a valid idle state the left ace moves one page back and the right ace one forward, cyclically |
| `Navigation.HomeBegin` | script.js:338-341 | the home button is refused exactly while animating; otherwise it locks and starts the shuffle |
| `Navigation.HomeFinish` | script.js:342-344 | the watch is shown, home is current and the lock is released |
| `Navigation.DialClick` | script.js:350-355 | a dial button without a section does nothing; otherwise it starts navigating to that section |
| `Navigation.MobileNav` | script.js:359-369 | the section becomes current with the content view and its page, whatever the lock; nothing else changes |
| `Navigation.MobileNavLeavesIndexStale` | script.js:359-369 | after a mobile click on projects the section is projects while the index still names about |
| `Navigation.SubPageClick` | script.js:380-396 | ignored while animating; an existing page is shown with the content view, otherwise the dynamic page in the current view; nothing else changes |
| `Navigation.ToggleTheme` | script.js:78-82 | the theme flips and nothing else changes |
| `Navigation.ToggleThemeTwice` | script.js:79 | toggling twice restores the state |
| `Navigation.CycleSuit` | script.js:29-38 | a tick moves the suit one on, modulo 4, if the card face exists |
| `Navigation.KeyPress` | script.js:470-481 | only the buffer changes; it becomes the last eleven characters of the old buffer plus the lower-cased key, or empty when those are the word |
| `Navigation.KeyDown` | script.js:440-455 | every key is ignored while animating; a key starts at most one thing: a navigation for a section key, an ace click for an arrow off home, nothing otherwise; no key navigates to contact |
| `Page.Portfolio.constructor` | script.js:460-462 | the object starts in the initial state |
| `Page.Portfolio.UpdateAces` | script.js:227-233 | the ace fields are updated as `updateAces` does |
| `Page.Portfolio.StartShuffle` | script.js:204-209 | the suit index resets as the shuffle does |
| `Page.Portfolio.NavigateBegin` | script.js:249-252 | the fields and returned task follow `NavBegin`; validity is kept |
| `Page.Portfolio.NavigateAfterRotate` | script.js:115-144 | follows `NavAfterRotate`; returns one angle per tick: tick k at `start + (diff/steps)*(k+1)`, the last tick at the target; none without bezel or dial |
| `Page.Portfolio.NavigateAfterHands` | script.js:164-171 | follows `NavAfterHands`; the lock is free afterwards |
| `Page.Portfolio.NavigateAfterShuffle` | script.js:261-280 | follows `NavAfterShuffle` |
| `Page.Portfolio.NavigateAfterShift` | script.js:262-283 | follows `NavAfterShift` |
| `Page.Portfolio.NavigateToSection` | script.js:249-284 | an undisturbed navigation follows `Navigate`: refused requests change nothing; accepted ones commit, release the lock and leave the bezel at the target; the returned frames are the rotation's per-tick angles from the old bezel angle to the target, and empty when refused or without bezel or dial |
| `Page.Portfolio.AceClickBegin` | script.js:312-324 | follows `AceBegin` |
| `Page.Portfolio.AceClickFinish` | script.js:326-332 | follows `AceFinish` |
| `Page.Portfolio.AceClicked` | script.js:312-333 | an undisturbed ace click moves the index one step back or forward cyclically; view and bezel unchanged |
| `Page.Portfolio.HomeButtonBegin` | script.js:338-341 | follows `HomeBegin` |
| `Page.Portfolio.HomeButtonFinish` | script.js:342-344 | follows `HomeFinish` |
| `Page.Portfolio.DialClicked` | script.js:350-355 | follows `DialClick` |
| `Page.Portfolio.MobileNavClicked` | script.js:359-369 | follows `MobileNav` |
| `Page.Portfolio.SubPageClicked` | script.js:380-396 | follows `SubPageClick` |
| `Page.Portfolio.ToggleTheme` | script.js:78-82 | follows `ToggleTheme` |
| `Page.Portfolio.CycleSuit` | script.js:29-38 | follows `CycleSuit` |
| `Page.Portfolio.KeyDown` | script.js:440-455 | follows `KeyDown`, returning the continuation it started |
| `Page.Portfolio.KeyPress` | script.js:469-482 | follows `KeyPress` |

## Left out

- Reading the wall clock (`new Date`, the one-second interval) and the hand angles it computes. These are floating-point divisions (script.js:92-109). Only the `hh:mm:ss` text built from integers is modelled.
- Durations: the 30 ms ticks, the easing times and the 1900, 800, 250, 360 and 420 ms waits. Only the order of the pieces of each handler is kept.
- Bezel.RotationFrames: modelled only for rotations between section angles, where every tick is a whole 6 degrees. For other angles `diff / steps` is fractional, but the bezel never rests anywhere else.
- The rotation's intermediate ticks are not separate events. They only set the markers' transform, and `bezelAngle` is written at the last tick alone.
- When the bezel or dial is missing, the rotation resolves without a timer. No other event can then run between the begin and after-rotate pieces, but the model allows one there.
- `cycleSuit` ticks are an event that may occur any number of times. How many fire during one shuffle depends on timers, so a tick is not tied to a running shuffle.
- The DOM itself: classes, text, styles, the ace labels' suit and name text, the toggle icon, the home button's visibility (it follows the view) and the ace shift animation, which changes no modelled state.
- Elements other than `#bezel`/`#dial` and the shuffle card's parts are assumed present. The source dereferences them without a check, so a missing one raises an error. This includes `#shuffleOverlay`, which is dereferenced before its own null test (script.js:198-202).
- When the shuffle card lacks its inner parts, `aceShuffleAnimation` returns at once with no timer. No other event can then run between after-hands and after-shuffle, between the ace click's begin and finish, or between the home button's begin and finish, but the model allows one there.
- The markup before `DOMContentLoaded`: the initial visible page is a parameter, and the markup's ace targets are overwritten by `updateAces`.
- `loadDynamicPage`'s titles and HTML bodies (script.js:399-435). Only which page becomes visible is modelled.
- Whether a click lands inside a `.btn` element. The sub-page handler is modelled from the button's `data-page` onward.
- `console.log` output and the box-shadow flash of the easter egg.
- The `isAnimating` test in `updateClock`, which only decides whether the hands follow the clock.
- Lookups in object literals (`sectionAngles`, `aceData`, the key map) return only their own entries. Inherited names such as `toString` are not modelled.
- Keys.LowerChar: lower-cases ASCII letters only, not all of Unicode. Strings are counted in characters, not UTF-16 code units.
