# Derech Hasidim page script: a Dafny model of its stateful listeners

`script.js` is the client-side script of a taxi-service landing page. Most of it wires
DOM elements to effects. A few of its listeners keep state of their own, and this
project models those listeners:

- **Header scroll responder** (`initHeader`, module `Header`, `header.dfy`). The
  listener remembers `lastScroll`. On each scroll position it sets the header's
  `scrolled` class when the position is past 50. It hides the header
  (`translateY(-100%)`) when the position grew and is past 200.
- **Mobile menu** (`initMobileMenu`, module `MobileMenu`, `mobile_menu.dfy`). A flag
  `isOpen` is driven by three listeners: the button's, the menu links', and the
  document's. `toggleMenu` draws the flag: the two `active` classes, the three
  hamburger bars and the body's `overflow: hidden`. A click is modelled as the
  listener on the clicked element, then the document listener the event bubbles to.
- **One-shot observers** (`initScrollAnimations` and `initCounterAnimations`, module
  `OneShotObservers`, `observers.dfy`). Each is an `IntersectionObserver`. For every
  intersecting entry, its callback triggers the effect for the entry's target and
  unobserves that target. The two observers differ only in their threshold (0.1 and
  0.5) and in their effect (scheduling `aos-animate`, or starting the counter), so one
  class models both. The effects are recorded in a log.
- **Testimonials auto-scroller** (`initTestimonialsSlider`, module
  `TestimonialsSlider`, `slider.dfy`). `scrollAmount` advances by one card width
  (`offsetWidth + 32`) per tick and goes back to 0 once past `scrollWidth - clientWidth`.
  No scroller starts without a slider, or on a viewport wider than 768.
- **Form validation** (`validateForm`, module `FormValidation`,
  `form_validation.dfy`). The function walks the required inputs. It sets `error` on
  each input whose trimmed value is empty and clears it on the others. It returns whether
  no input was blank. `String.prototype.trim` is modelled with the ECMAScript whitespace
  and line-terminator characters written out.

Each stateful closure becomes a class. Its fields stand for the closure variable and
for the classes and styles the listener writes. Each listener becomes a method with a
`modifies` clause. A pure state datatype and a step function sit beside each class. The
methods are proved against these functions. The properties over whole event sequences
are lemmas about the functions.

Browser inputs are parameters: scroll positions, click targets, observer entries,
element sizes and the viewport width. Scroll positions are integers. `pageYOffset` can
be fractional, but only its comparisons with 50, 200 and the previous position matter.

Initial states:
- `lastScroll = 0` comes from script.js:42. The header starting without the `scrolled`
  class and without a transform is an assumption about the page markup: the script
  writes neither before the first scroll event.
- `isOpen = false` comes from script.js:72. The menu and button starting without the
  `active` classes and with the hamburger drawn as bars is an assumption about the page
  markup: the script never draws the initial state.
- `bodyScrollLocked` stands for the menu's own writes to the body's `overflow` style
  only, which start out as none (unlocked).

## Model

| member | source | states |
|---|---|---|
| `Header.HeaderResponder.constructor` | script.js:41-42 | The listener starts with `lastScroll` 0 and the header neither `scrolled` nor hidden. |
| `Header.HeaderResponder.OnScroll` | script.js:44-62 | After a scroll to `p`, `scrolled` holds iff `p > 50`, hidden holds iff `p` exceeds the previous `lastScroll` and 200, and `lastScroll` becomes `p`. |
| `Header.RunDecidedByLastStep` | script.js:44-62 | After any non-empty sequence of scroll events, the header depends only on the last two positions: `scrolled` iff the last is past 50, hidden iff the last step went down past 200. |
| `Header.UpwardStepShows` | script.js:55-61 | A step to a position at or above the last one seen (the starting `lastScroll` for the first event) shows the header, whatever its size and whatever came before. |
| `Header.HiddenOnlyAfterDownwardStep` | script.js:55-61 | If the header is hidden after a step, that step ended past 200 and strictly below the previous position. |
| `Header.RunAppend` | script.js:44-62 | Handling one more scroll event is one more application of the listener to the state so far. |
| `MobileMenu.OnDocument` | script.js:89-94 | The document listener leaves the flag alone for clicks in the menu or on the button, and leaves it closed for any other click. |
| `MobileMenu.AfterClick` | script.js:75-94 | A full click on the button flips the flag exactly once. A click on a link or outside menu and button leaves it closed. A click elsewhere in the menu leaves it unchanged. |
| `MobileMenu.ClosingClickIdempotent` | script.js:82-94 | Repeating a link click or an outside click changes nothing: the menu stays closed. |
| `MobileMenu.ReplayAppend` | script.js:75-94 | Handling one more click is one more application of the click handlers to the flag so far. |
| `MobileMenu.ReplayIsParity` | script.js:72-94 | After any click sequence, the menu is open iff an odd number of button clicks followed the last closing click. With no closing click, the parity of button clicks decides whether the flag flipped. |
| `MobileMenu.Menu.constructor` | script.js:72 | The menu starts closed and drawn closed. |
| `MobileMenu.Menu.ToggleMenu` | script.js:96-113 | The flag is kept. Afterwards both `active` classes, the three hamburger bars and the body scroll lock all equal the flag. |
| `MobileMenu.Menu.ButtonClicked` | script.js:75-78 | The button listener negates the flag and draws it. |
| `MobileMenu.Menu.LinkClicked` | script.js:81-86 | A link listener closes the menu and draws it closed. |
| `MobileMenu.Menu.DocumentClicked` | script.js:89-94 | The document listener closes an open menu on a click outside menu and button. In every other case it changes nothing. |
| `MobileMenu.Menu.Click` | script.js:75-94 | A click, with bubbling, leaves the flag as `AfterClick` says, and the visual state matches the flag. |
| `OneShotObservers.Observe` | script.js:144-146 | Set-up observes exactly the selected elements and has triggered none, which is a one-shot state. |
| `OneShotObservers.Deliver` | script.js:128-142 | A batch only appends to the trigger log. The targets appended are exactly those of its intersecting entries. Exactly those targets stop being observed. |
| `OneShotObservers.NonIntersectingIgnored` | script.js:129-130 | A batch with no intersecting entry changes neither the observed set nor the log. |
| `OneShotObservers.DeliverKeepsOneShot` | script.js:161-168 | A batch with one entry per observed target keeps the log duplicate-free. No triggered target is observed again. Targets with no intersecting entry stay observed. |
| `OneShotObservers.DeliverAllKeepsOneShot` | script.js:128-142 | The one-shot invariant holds across any run of well-formed batches. |
| `OneShotObservers.AtMostOncePerElement` | script.js:128-146 | Over a page session, each element's effect is triggered at most once, and only for elements observed at set-up. |
| `OneShotObservers.RepeatedEntryFiresTwice` | script.js:129-139 | The callback does not check whether a target is still observed, so two intersecting entries for one target in a single batch trigger it twice. |
| `OneShotObservers.Observer.constructor` | script.js:128-146 | The observer starts observing exactly the selected elements, with nothing triggered. |
| `OneShotObservers.Observer.Callback` | script.js:161-168 | The callback's loop over its entries leaves the observer in the state `Deliver` gives. |
| `TestimonialsSlider.AdvanceInRange` | script.js:341-345 | A tick keeps `scrollAmount` a non-negative whole number of card widths, at most `maxScroll` unless it is 0. |
| `TestimonialsSlider.AdvanceOneCard` | script.js:342-345 | From the `j`-th card position, a tick moves to the next card if it still fits within `maxScroll`, and to 0 otherwise. |
| `TestimonialsSlider.TicksClosedForm` | script.js:337-350 | From 0, with `maxScroll >= 0`, the position after `k` ticks is `(k mod (maxScroll / cardWidth + 1)) * cardWidth`: it advances card by card, then wraps to 0. |
| `TestimonialsSlider.Slider.constructor` | script.js:337-339 | The scroller starts at 0. Its step is the card's `offsetWidth` plus 32, and its extent is `scrollWidth - clientWidth`. |
| `TestimonialsSlider.Slider.Tick` | script.js:341-350 | A tick moves `scrollAmount` to the old value plus `cardWidth`, or to 0 if that sum is past `maxScroll`, and keeps it in range. |
| `TestimonialsSlider.Init` | script.js:333-339 | A scroller starts iff the slider exists and the viewport is at most 768 wide. It starts at 0. |
| `FormValidation.TrimStartCutsLeadingBlank` | script.js:365 | Trimming the start removes a whitespace-only prefix. What is left is empty or starts with a non-whitespace character. |
| `FormValidation.TrimEndCutsTrailingBlank` | script.js:365 | Trimming the end removes a whitespace-only suffix. What is left is empty or ends with a non-whitespace character. |
| `FormValidation.TrimEmptyIffBlank` | script.js:365 | A trimmed value is empty iff the value is whitespace only, the empty value included. |
| `FormValidation.TrimIsInfix` | script.js:365 | The trimmed value is a contiguous piece of the value, with only whitespace cut off on each side. |
| `FormValidation.ValidateForm` | script.js:360-374 | The result is true iff every required input's trimmed value is non-empty. Each input's `error` flag is set iff its trimmed value is empty. No value changes. |

## Left out

- Loader (`initLoader`, script.js:22-35): it is timer-driven. Its own writes to the body's `overflow` are not modelled. It locks the body at start-up (script.js:34), and its timeout unlocks it (script.js:27-30), even while the menu is open. Closing the menu also clears the loader's lock. Neither interaction is captured.
- MobileMenu.Menu.constructor: `Shown()` ties `bodyScrollLocked` only to the menu's own writes to `overflow`. It does not describe the real body style from page load until the loader's timeout, when the loader holds the body locked while `isOpen` is false.
- MobileMenu.Menu.ToggleMenu: it assumes the button holds at least three `span` bars. script.js:103-110 throws with fewer, and that failure is not modelled.
- Counter interpolation (`animateCounter`, script.js:174-191): it accumulates the floating-point `target / 60`. Whether it stops on the 60th or 61st step depends on rounding. The model records only that the counter was started.
- Reveal delay (script.js:132-136): `data-aos-delay || 0` is passed to `setTimeout`. Timer delays are not modelled, so the model records that `aos-animate` was scheduled, not when it lands.
- Observer thresholds (0.1 and 0.5): the browser decides when entries are delivered and what they carry, so an entry's `isIntersecting` is an input. `isIntersecting` is geometric: an entry below the threshold can still carry `true`. Extra deliveries of this kind are one way the one-batch-per-target assumption behind `AtMostOncePerElement` can fail.
- OneShotObservers.AtMostOncePerElement: it assumes the browser delivers at most one entry per target per batch, and only for targets still observed. Without that assumption the callback can trigger an element twice, as `RepeatedEntryFiresTwice` shows.
- Smooth anchor scrolling (script.js:197-219) and parallax (script.js:224-242): both are floating-point geometry on measured values, handed to `scrollTo` or written to styles.
- Ripple, toast, injected keyframes and reduced-motion variables (script.js:247-288, 379-416, 431-435): they create elements and styles only.
- Lazy image loading, phone and WhatsApp tracking, the service-worker stub and debug logging (script.js:293-328, 421-426, 440-444): they are I/O or no-ops. `initLazyLoading` is never called.
- Slider interval and resize handling (script.js:341, 354-355): the 5000 ms period is not modelled. Each `load` or `resize` event starts one more independent scroller and never clears the old ones. Each scroller is modelled as its own `Slider`.
- Missing elements: script.js dereferences the header, the menu button and the menu without checking, and throws if any is absent. The model assumes they exist. `TestimonialsSlider.Init` likewise takes the first card's width as given, where script.js:338 throws if the slider has no card.
