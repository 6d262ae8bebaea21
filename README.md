# Page script of the event website, modelled in Dafny

`script.js` drives a static event page: it hides the fixed header while the
reader scrolls down, turns clicks on committee cards and secretariat entries
into page navigations, runs an off-canvas mobile menu, and counts down to
2025-10-24 00:00 IST. This project pulls the logic out of those four
behaviours and treats the DOM as plain state. Browser lookups, listener
registration and timers become method parameters and method calls.

- `wrappers.dfy` (module `Wrappers`): `Option`, used for an element or a
  data attribute that may be absent.
- `header.dfy` (module `Header`): the scroll handler. `HeaderController`
  holds `lastScrollTop` and the header's `hidden` class. `OnScroll` is one
  scroll event. The pure `Scrolled` and `Replay` functions specify one event
  and a run of events. The lemmas say that after any run, `hidden` depends
  only on the last two offsets read.
- `card_navigation.dfy` (module `CardNavigation`): what a click on a card
  ends in once the press animation is over. A truthy slug gives
  `Navigate(path)`. A missing or empty slug gives `Warn(message)`. `ParsePath`
  reads a path back, and the round-trip lemma shows that the path determines
  the card category and the slug.
- `mobile_nav.dfy` (module `MobileNav`): `MobileNavController` holds the
  button flag, the panel flag and the body's `overflow` style, with one
  method per handler. Each method is tied to the pure transition function
  `After`. The lemmas prove the lockstep and scroll-lock invariant over any
  run of events, that the close handlers close, and that closing is
  idempotent.
- `countdown.dfy` (module `Countdown`): the arithmetic (`Remaining`,
  `Decompose`, `SplitStepwise`), the padding (`Decimal`, `PadStart`, `Pad`)
  and the resolution of the slot ids. `CountdownTimer` holds the four slot
  texts, the subtitle and whether the repeating timer is registered. `Tick`
  is one call of `tick` with the clock reading `now` passed in. `Fire` is the
  repeating timer coming due. `AlignedStart` is the callback that runs one
  tick and then registers the timer.

All times are integer milliseconds. The target is the constant
1761244200000, which is 2025-10-23T18:30:00Z. `Date.now()` returns integers
below 2^53, so the source's `Math.floor(a / b)` equals Dafny's integer
division here.

As written, `clearInterval(interval)` at script.js:209 does nothing during
the ticks at lines 213 and 216, because `interval` is assigned only at line
217. A page opened after the target therefore still registers the repeating
timer. The next due tick clears it and rewrites the same all-zero display.
`AlignedStart` models this: it sets `intervalActive` unconditionally.
`PageAfterTarget` shows that the display and the subtitle do not change.

## Model

| member | source | states |
|---|---|---|
| `Header.ScrollOffset` | script.js:9 | The offset read is `pageYOffset` unless that is 0, in which case it is the document element's `scrollTop`. |
| `Header.HeaderController.constructor` | script.js:2 | `lastScrollTop` starts at 0. |
| `Header.HeaderController.OnScroll` | script.js:8-18 | After a scroll event, `hidden` holds iff the new offset is above both the previous offset and 100. `lastScrollTop` becomes the new offset on either branch. |
| `Header.ReplayLast` | script.js:9-17 | After any non-empty run of scroll events, the stored offset is the last one read. The header is hidden iff that offset exceeds both 100 and the offset read just before it. |
| `Header.ReplayForgetsHistory` | script.js:11-17 | Two histories that end in the same two offsets leave the header in the same state, so no hidden state accumulates. |
| `CardNavigation.PathFor` | script.js:56 | The path is the folder, then the slug verbatim, then `.html`. Each piece sits at a fixed position. |
| `CardNavigation.AfterPress` | script.js:52-85 | Navigation happens iff the slug is present and non-empty. The path is then `committees/<slug>.html` for a card or `secretariat/<slug>.html` for a member. Otherwise the result is the category's warning and no navigation. |
| `CardNavigation.ParsePath` | script.js:56-82 | Any path it accepts is rebuilt exactly by `PathFor` from the category and slug it returns. |
| `CardNavigation.PathRoundTrip` | script.js:52-85 | Every built path parses back to the category and slug it came from. |
| `CardNavigation.PathInjective` | script.js:52-85 | Distinct (category, slug) pairs build distinct path strings. |
| `MobileNav.AfterConsistent` | script.js:123-166 | Each handler keeps both flags equal. It also keeps `overflow` equal to "hidden" exactly while the panel is active, and "" otherwise. |
| `MobileNav.RunConsistent` | script.js:123-166 | Starting from a consistent state, such as page load, that invariant holds after any sequence of events. |
| `MobileNav.CloseEventsClose` | script.js:143-165 | A nav-link click, a click outside the button and the panel, and Escape while the panel is active each leave both flags false and `overflow` "". |
| `MobileNav.CloseIdempotent` | script.js:143-165 | Every handler except the hamburger toggle, applied twice, gives the state it gives once. |
| `MobileNav.KeyDownInert` | script.js:160-166 | Escape while the panel is inactive, or any other key, changes nothing. |
| `MobileNav.ToggleTwice` | script.js:124-138 | Two hamburger clicks restore a consistent state. |
| `MobileNav.ButtonClickBubbles` | script.js:124-157 | The click that opens the menu also reaches the document handler, which keeps the menu open because the target is inside the button. |
| `MobileNav.MobileNavController.constructor` | script.js:120-123 | Both flags start inactive with `overflow` "", and the invariant holds. |
| `MobileNav.MobileNavController.OnHamburgerClick` | script.js:124-138 | Both flags are toggled. `overflow` becomes "hidden" iff the panel is now active. The invariant is kept. |
| `MobileNav.MobileNavController.OnNavLinkClick` | script.js:141-148 | Both flags are cleared and `overflow` is set to "". |
| `MobileNav.MobileNavController.OnDocumentClick` | script.js:151-157 | A click outside both elements closes the menu. A click inside either one changes nothing. |
| `MobileNav.MobileNavController.OnKeyDown` | script.js:160-166 | Escape with the panel active closes the menu. Any other key press changes nothing. |
| `Countdown.Remaining` | script.js:186 | The remaining time is never negative and is at least `target - now`. It is either 0 or `target - now`, and it is 0 iff the target is reached. |
| `Countdown.DecomposeSplits` | script.js:188-199 | `d*86400000 + h*3600000 + m*60000 + s*1000 <= diff < that sum + 1000`, with `h < 24`, `m < 60`, `s < 60` and `d` unbounded. |
| `Countdown.DecomposeUnique` | script.js:188-199 | Any split meeting those bounds is the one computed, so the decomposition is the unique exact split. |
| `Countdown.DecomposeSteps` | script.js:193-199 | Floor-dividing by each unit and subtracting the whole units, largest first, gives `Decompose`. |
| `Countdown.SplitStepwise` | script.js:188-199 | The step-by-step subtraction in `tick` computes `Decompose`. |
| `Countdown.DigitChar` | script.js:181 | A digit below 10 becomes a character that reads back as that digit. |
| `Countdown.Decimal` | script.js:181 | `String(n)` has at least one character. |
| `Countdown.DecimalDigits` | script.js:181 | `String(n)` consists of decimal digits with no leading zero. |
| `Countdown.DecimalLength` | script.js:181 | `String(n)` has exactly as many characters as `n` has decimal digits. |
| `Countdown.DecimalRoundTrip` | script.js:181 | Reading `String(n)` back gives `n`. |
| `Countdown.PadStart` | script.js:181 | `padStart` yields the larger of the width and the text's length. |
| `Countdown.PadStartShape` | script.js:181 | `padStart` keeps the text whole at the end and puts only fill characters in front. |
| `Countdown.PadLength` | script.js:181 | `pad(n)` has length `max(2, digits(n))`, so nothing is truncated. |
| `Countdown.PadSmall` | script.js:181 | For `n < 10`, `pad(n)` is "0" followed by the digit. |
| `Countdown.PadLarge` | script.js:181 | For `n >= 10`, `pad(n)` is the plain decimal text, so a day count above 99 is shown in full. |
| `Countdown.PadTwoDigits` | script.js:181 | For `n < 100`, `pad(n)` is the tens digit followed by the units digit. |
| `Countdown.PadRoundTrip` | script.js:181 | Reading `pad(n)` back gives `n`. |
| `Countdown.ShowsReadsBack` | script.js:193-204 | The hours, minutes and seconds slots always hold exactly two characters. The four slots read back as the exact split of the remaining time. |
| `Countdown.ShowsZeroWhenReached` | script.js:186-204 | At or after the target the remaining time is 0 and every slot reads "00". |
| `Countdown.ShowsExample` | script.js:177-204 | One day, two hours, three minutes and four seconds before the target, the slots read 01, 02, 03 and 04. |
| `Countdown.ShowsStableAfterTarget` | script.js:206-210 | Once a tick sees the target reached, every later tick shows the same all-zero display. |
| `Countdown.FirstPresent` | script.js:171-174 | The preferred element is used when it exists. Otherwise the legacy one is used, and the result is absent only if both are. |
| `Countdown.ResolveSlots` | script.js:171-176 | The countdown activates iff each of the four slots resolves through its preferred or its legacy id. Each slot gets its preferred element when that exists and its legacy element otherwise. |
| `Countdown.SubtitleAfter` | script.js:206-208 | Once the target is reached, an existing subtitle reads "Event Started". Before that it is untouched, and it never appears or disappears. |
| `Countdown.CountdownTimer.constructor` | script.js:176-182 | The timer starts with the markup's display and subtitle, and with no repeating timer registered. |
| `Countdown.CountdownTimer.Tick` | script.js:184-211 | The four slots show the padded decomposition of `max(0, target - now)`. The subtitle is updated as in `SubtitleAfter`. The repeating timer is cleared iff `target - now <= 0`. |
| `Countdown.CountdownTimer.Fire` | script.js:206-217 | A due repeating timer runs `tick`. Once the timer is cleared, nothing changes: not the display, not the subtitle. |
| `Countdown.CountdownTimer.AlignedStart` | script.js:213-218 | Runs one tick, then registers the repeating timer, even when that tick found the target reached. |
| `Countdown.PageBeforeTarget` | script.js:184-218 | On a page opened before the target, the first tick at or after the target leaves all slots "00", the subtitle "Event Started" and no timer running. Later due times change nothing. |
| `Countdown.PageAfterTarget` | script.js:184-218 | On a page opened after the target, the repeating timer is registered anyway. The next due time clears it without changing the display or the subtitle. |

## Left out

- DOM lookups and listener registration (`getElementById`, `querySelectorAll`, `addEventListener`) are not modelled; their results are parameters. Each controller stands for a component whose guard at script.js:5, 123 or 176 found its elements.
- The reveal-on-scroll `IntersectionObserver` (script.js:24-41): it depends on viewport geometry and a fractional threshold, and only adds a class one way.
- The hover shadows (script.js:100-108), the load fade-in (script.js:111-117), the press transform (script.js:47-49, 74-76), the pointer cursor (script.js:90) and the parallax reset (script.js:94-97): cosmetic style writes.
- `console.log` and `console.warn` output: the warning is modelled only as the `Warn` outcome and its message.
- `e.preventDefault()` on member links (script.js:68-71) and the actual `window.location` navigation: browser behaviour. Only the computed path is modelled.
- Real-time scheduling: the 150 ms delays, the second-aligned start delay (script.js:214) and the one-second period. Ticks are method calls with the clock reading passed in.
- Parsing the ISO 8601 target string (script.js:178-179): the model uses its value, 1761244200000 ms.
- Resolution of the built paths by the browser: the slug is inserted unescaped, so a slug holding `../` can make two distinct path strings land on one page; the model speaks only of the path strings.
- Scroll offsets are modelled as integers; fractional offsets from the browser are not.
