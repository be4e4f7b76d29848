# Portfolio page interactions, modelled in Dafny

This project models the interaction layer of a personal portfolio page, `script.js`.
That file holds DOM event handlers. Each handler hides a small decision rule or state
machine, and the model states each one over explicit state instead of the document:

- **ActiveSection**: the scroll handler that picks the active navigation link. The
  sections are `Section(id, offsetTop, offsetHeight)` values. The viewport of a tick is
  `Viewport(scrollY, windowHeight, documentHeight)`. The `.nav-link` elements are a
  class holding their hrefs and an `array<bool>` of `active` flags.
- **ScrollEffects**: the navigation bar's `scrolled` flag and the back-to-top
  button's `visible` flag.
- **MobileMenu**: the `active` classes of the menu and the menu icon, and the three
  click handlers that change them.
- **Theme**: the `data-theme` attribute and its stored copy under the key `theme`.
- **ProjectFilter**: the filter buttons' `active` flags and the project items'
  `hidden` flags, with substring matching on `data-category`.
- **FadeIn**: the one-way reveal of sections driven by intersection notifications.
- **Typing**: the counter loop that types out "Zarif Haikal" one character per step.

Each stateful handler is a method of a class. Its `ensures` ties the new state to a
pure function of the old state and the inputs. The lemmas state what the page promises
about those functions.

Two behaviours of the active-link handler are easy to misread:

- Every matching section clears all links and marks its own, so the **last** match in
  document order wins a scroll tick (`WinnerIsLastMatch`).
- The handler guarantees only **at most one** active link (`AfterTick`,
  `MatchMarksWinnerLink`). Before the first matching tick the links keep the classes
  the markup gives them. After a tick whose winning section has no link, no link is
  active.

## Model

| member | source | states |
|---|---|---|
| ActiveSection.Matches | script.js:77-89 | A non-last section with a non-positive height never matches (its band is empty); the last section always matches when the page bottom is less than 150 px away |
| ActiveSection.Marked | script.js:81-87 | After "clear all, mark the link for the section", at most one link is active, only a link with the section's href can be active, and some link is active exactly when some link has that href |
| ActiveSection.AfterTick | script.js:71-98 | A tick keeps the number of flags, and keeps "at most one link active" when it held before |
| ActiveSection.Winner | script.js:71-98 | The chosen section, if any, is among the first `n` and satisfies its match rule |
| ActiveSection.WinnerIsLastMatch | script.js:71-98 | The winner is exactly the last matching section in document order; there is none exactly when no section matches |
| ActiveSection.LastSectionOverrides | script.js:77-88 | When the last section's rule holds (page bottom within 150 px, or offset past its top), it wins over every earlier match |
| ActiveSection.BandIsHalfOpen | script.js:89 | A non-last section's band excludes its top (offset equal to `offsetTop - 100`) and, when its height is positive, includes its bottom |
| ActiveSection.BandsDisjoint | script.js:89 | When sections do not overlap (gaps allowed), no two non-last sections match the same offset |
| ActiveSection.NoMatchKeepsFlags | script.js:71-98 | A tick on which no section matches leaves every link flag unchanged |
| ActiveSection.MatchMarksWinnerLink | script.js:81-96 | After a matching tick at most one link is active; it carries the winner's href; no link is active exactly when no link has that href |
| ActiveSection.FirstLink | script.js:84 | The link lookup returns the first link whose href is the target, or none when no link has it |
| ActiveSection.NavLinks.FindLink | script.js:84 | The scan over the links finds the same link as the lookup |
| ActiveSection.NavLinks.Activate | script.js:81-87 | Clears every link, then marks only the first link for the section |
| ActiveSection.NavLinks.OnScroll | script.js:66-99 | The flags after the handler are the flags of the last matching section, or the old flags when none matches |
| ScrollEffects.NavbarScrolled | script.js:6 | The navbar rule: the offset exceeds 100 |
| ScrollEffects.BackToTopVisible | script.js:248 | The back-to-top rule: the offset exceeds 300 |
| ScrollEffects.ThresholdsAreUpwardClosed | script.js:6-10 | The navbar rule holds strictly above 100 and the back-to-top rule strictly above 300; both stay on as the offset grows |
| ScrollEffects.ScrollFlags.OnScrollNavbar | script.js:4-11 | `scrolled` is set iff the offset exceeds 100, from the current offset alone |
| ScrollEffects.ScrollFlags.OnScrollBackToTop | script.js:247-253 | `visible` is set iff the offset exceeds 300, from the current offset alone |
| MobileMenu.Toggled | script.js:20-23 | A toggle flips the menu flag and the icon flag, each on its own |
| MobileMenu.AfterLinkClick | script.js:26-31 | After a link click both flags are off, whatever the prior state |
| MobileMenu.AfterDocumentClick | script.js:34-39 | A document click either changes nothing or closes both; it never opens the menu |
| MobileMenu.HandlersKeepSync | script.js:20-39 | If the menu and the icon flags agree, they still agree after any of the three handlers |
| MobileMenu.ToggleTwiceRestores | script.js:20-23 | Two toggles restore the state |
| MobileMenu.DocumentClickCloses | script.js:34-39 | A document click changes the state exactly when the menu is open and the click is outside the navbar; otherwise nothing changes |
| MobileMenu.Menu.OnToggleClick | script.js:20-23 | The new state is the toggled old state |
| MobileMenu.Menu.OnNavLinkClick | script.js:26-31 | Both flags end inactive |
| MobileMenu.Menu.OnDocumentClick | script.js:34-39 | The new state follows the outside-click rule |
| Theme.InitialTheme | script.js:215 | The load-time theme is never empty; it is the stored value when that is present and non-empty |
| Theme.DefaultIsDark | script.js:215 | Absent or empty storage gives "dark" |
| Theme.Flip | script.js:220 | The toggled theme is "light" or "dark", always differs from the current one, and is "dark" exactly when the current one is "light" |
| Theme.ToggleTwice | script.js:218-224 | Two toggles are the identity exactly on "light" and "dark"; any other value ends as "dark" |
| Theme.ToggledThemeSurvivesReload | script.js:215-223 | Reading a toggled theme back from storage at the next load gives that theme |
| Theme.ThemeController.constructor | script.js:215-216 | At load the attribute is the initial theme and storage is left as it was |
| Theme.ThemeController.Toggle | script.js:218-224 | The attribute becomes the flipped theme and storage holds the same value |
| ProjectFilter.Includes | script.js:282 | `includes` holds only when the needle is no longer than the string, and always holds for the empty needle |
| ProjectFilter.SearchString | script.js:275-282 | The string searched for: the `data-filter` value, or "null" when the attribute is missing |
| ProjectFilter.Shown | script.js:278-286 | Under a filter other than "all", a shown item has a present, non-empty category at least as long as the searched string |
| ProjectFilter.HiddenFlags | script.js:277-288 | One hidden flag per project item |
| ProjectFilter.IncludesIsSubstring | script.js:282 | `includes` holds iff the needle occurs at some position of the category string |
| ProjectFilter.AllShowsEverything | script.js:278-279 | The filter "all" leaves no item hidden |
| ProjectFilter.ShownIffCategoryContains | script.js:280-286 | Any other filter shows an item iff its category is present, non-empty and contains the filter value |
| ProjectFilter.FilterBar.OnFilterClick | script.js:268-290 | Exactly the clicked button is active; the hidden flags depend only on the clicked filter and the categories, so re-applying a filter is idempotent |
| FadeIn.Notify | script.js:109-116 | The callback keeps one flag per section and never un-reveals a section |
| FadeIn.NotifyReveals | script.js:109-116 | A section is revealed after a callback iff it was already revealed or some entry reported it intersecting |
| FadeIn.RenotifyIsIdempotent | script.js:109-116 | Delivering the same entries again changes nothing |
| FadeIn.Revealer.constructor | script.js:119-124 | Every observed section starts hidden |
| FadeIn.Revealer.OnIntersection | script.js:109-116 | The revealed flags after the callback are the notified flags |
| Typing.Typewriter.constructor | script.js:169-172 | The counter starts at 0 with the existing text content |
| Typing.Typewriter.Type | script.js:175-189 | While characters remain, one call appends the next character, advances `i` and reschedules; otherwise nothing changes and no call is scheduled; `i` never exceeds the text length |
| Typing.Typewriter.Run | script.js:175-194 | The timer chain ends with the initial content followed by the whole text, after one call per character plus one final call |

## Left out

- Offsets are modelled as integers. Browsers may report a fractional `pageYOffset`.
- The scroll-progress width (script.js:231-240) is left out. It uses floating-point
  division and divides by zero when the document height equals the window height.
- Smooth scrolling (script.js:44-58) is left out. It needs browser geometry; its
  target is the element's client top plus `pageYOffset` minus 80.
- The back-to-top click (script.js:255-260) only calls `scrollTo`, so it is left out.
- The custom cursor (script.js:129-164) is left out. It is pure styling and is never enabled.
- The current year (script.js:200-206) reads the clock, and the console greeting
  (script.js:295-310) is output only. Both are left out.
- Timers are left out: the 100 ms and 300 ms delays, and the cursor animation restart
  with its forced reflow (script.js:179-194). The typing reveal is a sequence of
  discrete `Type` calls.
- IntersectionObserver options (script.js:104-107) are left out. Intersection is an
  input entry per section, and styles are a single revealed flag.
- The click target of the outside-click handler is a boolean: whether the navigation
  bar contains it.
- Missing elements are left out: every element the handlers use is assumed present.
  In the code, a missing menu icon skips the toggle handler but makes the link handler
  throw.
- The link lookup compares hrefs with `"#" + id` as strings. CSS selector escaping of
  unusual ids is not modelled.
- Storage and DOM lookups are plain fields, arrays and sequences.
