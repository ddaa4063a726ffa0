# Slide presentation controller, modelled in Dafny

This project models the navigation core of a browser slide presentation
(`PresentationController` in `script.js`). The controller holds the index
of the current slide out of fifteen and a transition guard. It moves
forward, backward or to a given slide in response to buttons, keys and
swipes. A move toggles the `active` and `prev` classes of the slides in
two deferred steps, rewrites the slide counter and preloads lazy assets
on the slide after the new one. After start-up, `goToSlide` is replaced
by a wrapper. The wrapper dispatches a `slidechange` event after every
call, and an accessibility listener sets `aria-hidden` from that event.

Modules:

- `Wrappers` (`wrappers.dfy`): `Option`.
- `Decimal` (`decimal.dfy`): decimal rendering of numbers as JavaScript's template literals write them, and its inverse `Value`.
- `Navigation` (`navigation.dfy`): the pure decisions. These are next and previous index with wrap-around, the swipe classifier, the key-to-command mapping, the counter text and the title table.
- `LazyLoad` (`lazyload.dfy`): what preloading does to the elements of one slide.
- `Presentation` (`presentation.dfy`): the class `Controller`, with its fields, its invariant `Valid`/`Accessible`, and one method per operation. It also holds two client methods that run whole scenarios.

How the model represents the browser:

- The CSS classes `active` and `prev` and the `aria-hidden` attribute are `array<bool>` fields with one entry per slide.
- The lazy elements of each slide are an `array<LazyElement>`. `LazyElement` holds an optional `data-src` and a `src`.
- The two `setTimeout` callbacks of `goToSlide` are separate methods, `Reveal` (50 ms) and `Settle` (600 ms). The fields `pendingReveal` and `pendingSettle` record that they are scheduled. The caller runs them. `Settle` requires that `Reveal` has already run, because the 50 ms timer of a transition always fires before its 600 ms timer.
- Dispatched `slidechange` events are appended to the field `events`. Only the accessibility listener is modelled as a listener.
- Keys are a small datatype `Key`. Touch coordinates are integers.

Behaviour that follows from the code:

- Every input path goes through the patched `goToSlide`. Once the wrapper is installed on the instance, `this.goToSlide` inside `nextSlide`, `previousSlide` and `handleKeyboard` resolves to the wrapper.
- `nextSlide` and `previousSlide` return early while a transition is in flight, so they dispatch nothing then.
- Home, End and the digit keys call `goToSlide` directly. The patched `goToSlide` dispatches a `slidechange` event on every call, including a rejected or no-op one (script.js:428-437).
- So a jump that the guard rejects while a move to another slide is in flight still dispatches an event for its own target. `aria-hidden` then shows a slide that is not current. `JumpDuringTransition` proves such a case. A jump rejected because its target is already current names the current slide, so there `aria-hidden` stays in step.
- A swipe from (300,200) to (220,210) has `deltaX` = -80, so it goes forward (script.js:68-72; `NavigationExamples`).

## Model

| member | source | states |
|---|---|---|
| `Navigation.NextIndex` | script.js:112-117 | the next slide is in range; it is one further, and the last slide wraps to 0 |
| `Navigation.PreviousIndex` | script.js:119-124 | the previous slide is in range, and going next from it returns to the start slide |
| `Navigation.PreviousUndoesNext` | script.js:112-124 | previous undoes next and next undoes previous |
| `Navigation.NextFullCycle` | script.js:112-117 | `total` nexts from any slide return to that slide |
| `Navigation.PreviousFullCycle` | script.js:119-124 | `total` previouses from any slide return to that slide |
| `Navigation.NextIterateUndoesPrevious` | script.js:112-124 | `k` nexts undo `k` previouses |
| `Navigation.ClassifySwipe` | script.js:61-74 | a swipe navigates iff horizontal movement is strictly larger than vertical and strictly above 50 px; going back only on a rightward, going forward only on a leftward movement |
| `Navigation.SwipeReversal` | script.js:61-74 | the same gesture made in reverse navigates the opposite way |
| `Navigation.SwipeTranslation` | script.js:61-74 | only the displacement matters, not the start point |
| `Navigation.SwipeThresholdIsStrict` | script.js:64-67 | exactly 50 px does nothing; 51 px does |
| `Navigation.KeyCommand` | script.js:76-110 | ArrowRight/Space/Enter go next and only they; ArrowLeft/Backspace go back and only they; Home jumps to 0, End to the last slide; digit d jumps to d-1 iff 1 <= d <= total; only Home, End and digits jump; Escape only toggles fullscreen; any other key does nothing; every jump target is in range |
| `Navigation.NavigationExamples` | script.js:61-124 | back from slide 0 of 15 is 14, next is 1; key 5 jumps to 4; key 9 with 5 slides and key 0 are ignored; the 80 px leftward swipe goes next; a vertical-dominant swipe does nothing |
| `Navigation.CounterText` | script.js:161 | the counter text for a slide parses back to its 1-based position and the total |
| `Navigation.CounterFormatReadsBack` | script.js:161 | any text "{n} / {total}" written with decimal numbers parses back to exactly `n` and `total` |
| `Navigation.CounterTextInjective` | script.js:160-162 | different slides give different counter texts |
| `Navigation.SlideTitle` | script.js:304-324 | the title is never empty; in range it is the table entry; beyond the table it is "Slide " followed by the decimal 1-based number |
| `Decimal.Digits` | script.js:161 | the decimal text of a number is non-empty, all digits, and has no leading zero |
| `Decimal.ValueOfDigits` | script.js:161 | reading the decimal text of a number gives the number back |
| `LazyLoad.Load` | script.js:171-176 | an element with a non-empty `data-src` gets it as `src` and loses `data-src`; any other element is unchanged; afterwards nothing is deferred |
| `LazyLoad.Preloaded` | script.js:170-176 | preloading a slide keeps its length and loads each element on its own, in its place |
| `LazyLoad.PreloadedLeavesNoneDeferred` | script.js:170-176 | after preloading, no element of the slide still has a non-empty `data-src` |
| `LazyLoad.PreloadedIdempotent` | script.js:164-177 | a second preload of the same slide changes nothing |
| `Presentation.Controller.constructor` | script.js:3-21 | slide 0 is current, the guard is down, no event yet, counter "1 / 15", slide 1 preloaded and no other slide touched |
| `Presentation.Controller.UpdateSlideCounter` | script.js:160-162 | the counter shows the current slide |
| `Presentation.Controller.PreloadNextSlide` | script.js:164-177 | exactly slide (current+1) mod total is preloaded, element by element; every other slide is unchanged |
| `Presentation.Controller.GoToSlide` | script.js:126-156 | while transitioning, or when the target is current, nothing changes; otherwise the guard goes up, the target becomes current, the outgoing slide loses `active` and gains `prev` only when moving to a higher index, both deferred steps are pending, the counter shows the target and the following slide is preloaded; the invariant is kept |
| `Presentation.Controller.BeginTransition` | script.js:129-151 | once the guard lets a move through: the guard goes up, the target becomes current, the outgoing slide loses `active` and gains `prev` only when moving to a higher index, both deferred steps are pending, the counter shows the target and exactly the following slide is preloaded |
| `Presentation.Controller.Reveal` | script.js:138-141 | the target gains `active` and loses `prev`; it is then the only active slide |
| `Presentation.Controller.Settle` | script.js:144-147 | `prev` is cleared on every slide and the guard comes down |
| `Presentation.Controller.EnableAccessibility` | script.js:395-401 | `aria-hidden` is false on slide 0 only |
| `Presentation.Controller.OnSlideChange` | script.js:403-408 | `aria-hidden` is false on exactly the event's slide |
| `Presentation.Controller.PatchedGoToSlide` | script.js:427-438 | the original `goToSlide`, then exactly one `slidechange` event {slide, 15, title}, whether or not the move was accepted, with `aria-hidden` false on exactly that slide |
| `Presentation.Controller.NextSlide` | script.js:112-117 | nothing at all while transitioning; otherwise an accepted move to the next slide and one event for it |
| `Presentation.Controller.PreviousSlide` | script.js:119-124 | nothing at all while transitioning; otherwise an accepted move to the previous slide and one event for it |
| `Presentation.Controller.HandleSwipe` | script.js:61-74 | a classified swipe has the effect of previous or next; any other swipe changes nothing |
| `Presentation.Controller.HandleKeyboard` | script.js:76-110 | each key has the effect of its command: next, previous, the patched jump, or nothing |
| `Presentation.TransitionAndSettle` | script.js:126-147 | after an accepted move and both deferred steps, only the target is active, no slide is `prev`, the guard is down, and the counter reads back as the target out of 15 |
| `Presentation.JumpDuringTransition` | script.js:89-92 | Home during a move to slide 3 is rejected but still dispatched: slide 3 stays current while `aria-hidden` shows slide 0 |

## Left out

- DOM querying, element creation, CSS and print-style injection, and the progress bar (script.js:342-353, 371-393, 503-536). These are browser plumbing, and the progress width is floating-point arithmetic rendered as CSS text.
- The `role` and `aria-label` attributes that `enableAccessibility` writes (script.js:398-399). They are constants per slide and no operation changes them.
- `triggerSlideAnimations` and the per-slide animations (script.js:179-255), hover and click effects (script.js:451-485), and `typewriterEffect` (script.js:488-501). These are cosmetic timers with no state the navigation reads.
- `toggleFullscreen` (script.js:281-289). Escape is mapped to `ToggleFullscreen`, and the host's fullscreen API is not modelled. `trackSlideView`, `gtag` and `console.log` (script.js:291-302, 443-447) are left out too, because they are foreign calls with no effect on the state.
- Auto-advance and visibility handling (script.js:257-279), because auto-advance is never started (script.js:20). The IntersectionObserver lazy-load (script.js:539-560) is left out as a foreign browser API.
- The speaker-notes toggle (script.js:355-369). It is UI with no bearing on navigation.
- The getters `getCurrentSlide`, `getTotalSlides` and `isCurrentlyTransitioning` (script.js:327-337). In the model they are plain field reads.
- Real timer scheduling. The two deferred steps are methods the caller invokes, and `Settle` requires that `Reveal` has run.
- Presentation.Controller.constructor: fixes the initial `active` class on slide 0 and no `prev` class. That comes from the document's markup, which is not part of this model.
- Navigation.KeyCommand: treats keys as a datatype. The source's test `e.key >= '1' && e.key <= '9'` is a string comparison that would also accept multi-character key names starting with 1-8, which browsers do not produce.
- Navigation.ClassifySwipe: takes integer coordinates, while the browser reports floating-point `clientX`/`clientY`.
- Presentation.Controller.GoToSlide: requires an in-range target, like PatchedGoToSlide below.
- Presentation.Controller.PatchedGoToSlide: requires an in-range target. Every caller in the source passes one. Out of range, `triggerSlideAnimations` would throw at once on the missing slide element (script.js:180-183). The state would already have moved, and the wrapper would dispatch no event.
- The `e.preventDefault()` calls in `handleKeyboard` (script.js:81, 86, 90, 94, 98). They suppress the browser's default action for the arrow keys, Space, Enter, Backspace, Home, End and Escape, but not for the digits. The model has no browser defaults to suppress.
