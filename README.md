# Count-up counter and contact form of the insurance landing page, in Dafny

This project models the two pieces of the landing page that have behaviour
beyond markup.

- **The statistics counter card** (`src/components/CounterCard.jsx`). It covers:
  - the icon lookup with its `shield` fallback;
  - the IntersectionObserver callback that latches `isVisible`;
  - the animation effect;
  - the `animate` frame closure. Each frame fixes `startTime` on the first
    call, computes `progress = min(elapsed / duration, 1)`, applies
    `easeOutQuart(p) = 1 - (1 - p)^4`, shows `floor(target * eased)`, and
    requests another frame while `progress < 1`.
- **The contact form** (`src/components/ContactForm.jsx`). It covers:
  - field edits, the consent checkbox and the challenge widget's token
    callbacks;
  - the guarded submit, the status transitions on success and failure, and
    the reset five seconds after a success;
  - the submit button's disabled predicate.

Files:

- `easing.dfy` (module `Easing`). It holds progress, easing and the count in exact
  reals, as the source writes them. They are proved equal to the integer formula
  `(target * (d^4 - (d - e)^4)) / d^4` with `e = min(elapsed, d)`. The bounds,
  the exact final value and monotonicity are proved through that formula.
- `counter.dfy` (module `Counter`). It holds:
  - one `animate` closure as the value `Loop`, one frame as `Animate`, and a
    closure's whole run over a sequence of frame timestamps as `Run`;
  - the observer callback;
  - the card as written (`CounterCard`);
  - the card with the evidently intended restart (`CancellingCounterCard`).
- `icons.dfy` (module `Icons`). It holds the icon lookup as written and as intended.
- `contact_form.dfy` (module `Contact`). It holds the form state as the class
  `ContactForm`.
- `wrappers.dfy` (module `Wrappers`). It holds `Option`.

How the environment is modelled:

- Timestamps are integer milliseconds supplied by the caller of `AnimateFrame`.
- "Became visible" is the list of `isIntersecting` flags passed to `Observe`.
- A prop change is a call of `SetProps`.
- The HTTP result is the boolean given to `Outcome`.
- The five-second timer firing is a call of `Reset`. `Reset` may be called only
  while a timer armed by a success is outstanding.
- `Outcome` may be called only while a posted request is outstanding.

On these points the model follows the code as written:

- Each observer is disconnected and replaced when `isVisible` changes, so
  observation never stops. Its callback still sets `isVisible` at most once,
  because of the `!isVisible` guard.
- No frame request is ever cancelled, not on unmount and not when the effect runs
  again. A change of `targetValue` or `duration` while visible starts a new loop
  from 0 with a fresh start time, and the old loop keeps running. See Findings.

## Model

| member | source | states |
|---|---|---|
| `Easing.ProgressIsClampedRatio` | src/components/CounterCard.jsx:96-99 | progress equals `min(elapsed, duration) / duration` |
| `Easing.ProgressRange` | src/components/CounterCard.jsx:96-99 | for elapsed >= 0, progress lies in [0, 1], and it is 1 exactly when elapsed >= duration |
| `Easing.ProgressBelowOne` | src/components/CounterCard.jsx:99-113 | `progress < 1`, the condition for requesting another frame, holds exactly when elapsed < duration |
| `Easing.EasedAsQuotient` | src/components/CounterCard.jsx:87-102 | the eased progress `1 - (1 - progress)^4` equals the rational `(d^4 - (d - e)^4) / d^4` with `e = min(elapsed, d)` |
| `Easing.FrameCountIsExact` | src/components/CounterCard.jsx:87-105 | `floor(target * (1 - (1 - progress)^4))` in exact reals equals the integer quotient `(target * (d^4 - (d - e)^4)) / d^4` |
| `Easing.FrameCountBounds` | src/components/CounterCard.jsx:87-105 | for target >= 0 and elapsed >= 0, the count lies between 0 and target |
| `Easing.FrameCountAtEnd` | src/components/CounterCard.jsx:99-105 | once elapsed >= duration, the count is exactly the target |
| `Easing.FrameCountAtStart` | src/components/CounterCard.jsx:93-105 | at elapsed 0 the count is 0 |
| `Easing.FrameCountMonotone` | src/components/CounterCard.jsx:87-105 | for target >= 0, a later elapsed time never shows a smaller count |
| `Counter.Animate` | src/components/CounterCard.jsx:91-114 | one frame keeps the captured target and duration, sets `startTime` on the first frame to that frame's timestamp, and never changes it afterwards |
| `Counter.AnimateFirstFrame` | src/components/CounterCard.jsx:93-96 | the first frame's start time is its own timestamp; it shows 0 and requests another frame |
| `Counter.AnimateSchedulesIff` | src/components/CounterCard.jsx:111-113 | another frame is requested if and only if `t - startTime < duration` |
| `Counter.AnimateFinalFrame` | src/components/CounterCard.jsx:99-113 | a frame requests no further frame exactly when it is at or past `startTime + duration`, and such a frame shows exactly the target |
| `Counter.AnimateBounds` | src/components/CounterCard.jsx:96-105 | a frame no earlier than the start shows a count between 0 and a non-negative target |
| `Counter.Run` | src/components/CounterCard.jsx:91-117 | a loop run over frames keeps its captured target and duration and shows at most one count per frame |
| `Counter.RunCountsBetween` | src/components/CounterCard.jsx:99-105 | every count a started loop shows at frames no earlier than `lo` lies between the count at `lo` and the target |
| `Counter.RunMonotone` | src/components/CounterCard.jsx:87-113 | with non-decreasing timestamps and target >= 0, the counts of a loop are non-decreasing and lie in [0, target] |
| `Counter.RunFinishes` | src/components/CounterCard.jsx:99-113 | once a frame reaches `startTime + duration`, the loop stops there: all earlier frames were before the end, the last count is exactly the target, and no frame is pending |
| `Counter.ObserverCallback` | src/components/CounterCard.jsx:53-59 | the new `isVisible` is the old one or any intersecting entry, so it only ever goes from false to true |
| `Counter.CounterCard.constructor` | src/components/CounterCard.jsx:39-40 | at mount the count is 0, the card is not visible, and no frame is requested |
| `Counter.CounterCard.AnimationEffect` | src/components/CounterCard.jsx:75-118 | while not visible the effect does nothing; otherwise it appends a new loop with the current props and leaves every earlier loop running |
| `Counter.CounterCard.Observe` | src/components/CounterCard.jsx:50-71 | `isVisible` latches to true on an intersecting entry and never returns to false; the first latch starts one loop |
| `Counter.CounterCard.SetProps` | src/components/CounterCard.jsx:36-118 | a change of target or duration while visible starts another loop from 0; otherwise no loop starts |
| `Counter.CounterCard.AnimateFrame` | src/components/CounterCard.jsx:91-114 | a pending loop's frame updates only that loop and sets the count to the frame's value |
| `Counter.StaleTargetScenario` | src/components/CounterCard.jsx:75-118 | target 100 over 1000 ms, changed to 50 over 10 ms after the first frame, ends with no frame pending and 100 shown while the target is 50 |
| `Counter.CancellingCounterCard.constructor` | src/components/CounterCard.jsx:39-40 | corrected card: at mount the count is 0, the card is not visible, and there is no loop |
| `Counter.CancellingCounterCard.AnimationEffect` | src/components/CounterCard.jsx:75-118 | corrected card: the effect cancels the previous loop, then starts one with the current props if the card is visible |
| `Counter.CancellingCounterCard.Observe` | src/components/CounterCard.jsx:50-71 | corrected card: the same latch; the first latch starts the loop |
| `Counter.CancellingCounterCard.SetProps` | src/components/CounterCard.jsx:36-118 | corrected card: a change of props while visible replaces the loop with a fresh one |
| `Counter.CancellingCounterCard.AnimateFrame` | src/components/CounterCard.jsx:91-114 | corrected card: when the live loop requests no further frame, the count is exactly the current `targetValue` |
| `Counter.RestartScenario` | src/components/CounterCard.jsx:75-118 | the same events on the corrected card end with 50 shown, the current target |
| `Icons.ResolveIcon` | src/components/CounterCard.jsx:6-45 | intended lookup: `shield`, `users`, `trending` and `award` give their own icon; any other or missing name gives `shield` |
| `Icons.LookupAsWritten` | src/components/CounterCard.jsx:45 | an own key gives its icon; only a name inherited from `Object.prototype` gives something that is not an icon |
| `Icons.LookupAsWrittenAgrees` | src/components/CounterCard.jsx:45 | the lookup as written equals the intended one for every name except the inherited members, and for those it yields the inherited member |
| `Icons.ToStringHasNoFallback` | src/components/CounterCard.jsx:45 | `icon="toString"` yields `Object.prototype.toString`, not `shield` |
| `Contact.EmptyForm` | src/components/ContactForm.jsx:13-19 | the initial form has exactly the five field keys, all empty |
| `Contact.Payload` | src/components/ContactForm.jsx:71-77 | the request body has the form's keys plus `_subject`, `_captcha = 'false'`, `_template = 'table'` and `turnstile-token` equal to the token; every other key keeps its form value |
| `Contact.PayloadCarriesForm` | src/components/ContactForm.jsx:71-77 | for the five-field form, the body holds every field's value unchanged |
| `Contact.ContactForm.SubmitDisabled` | src/components/ContactForm.jsx:305 | the `disabled` expression of the submit button: `loading`, or an empty token, or no consent |
| `Contact.ContactForm.constructor` | src/components/ContactForm.jsx:13-29 | initial state: empty fields, idle status, empty token, no consent |
| `Contact.ContactForm.Change` | src/components/ContactForm.jsx:34-39 | sets only the named field; every other field, the status, the token and consent are unchanged |
| `Contact.ContactForm.SetConsent` | src/components/ContactForm.jsx:277 | consent becomes the checkbox value; nothing else changes |
| `Contact.ContactForm.TokenVerify` | src/components/ContactForm.jsx:295 | the token becomes the verified one; nothing else changes |
| `Contact.ContactForm.TokenExpire` | src/components/ContactForm.jsx:296 | the token becomes empty, so the button is disabled; nothing else changes |
| `Contact.ContactForm.TokenError` | src/components/ContactForm.jsx:297 | the token becomes empty, so the button is disabled; nothing else changes |
| `Contact.ContactForm.Submit` | src/components/ContactForm.jsx:41-77 | without consent: the consent warning and no change. With consent but no token: the verification warning and no change. With both: status `{loading: true, success: false, error: false, message: ''}` and a request with the payload of the current fields and token. An enabled button always leads to a request, and the button is disabled right after the request is posted |
| `Contact.ContactForm.Outcome` | src/components/ContactForm.jsx:79-126 | success: loading false, success true, error false, the success message, and a reset timer armed. Failure: loading false, success false, error true, the error message. Fields, token and consent are unchanged |
| `Contact.ContactForm.Reset` | src/components/ContactForm.jsx:105-117 | all five fields become `''`, the status is cleared, the token is emptied and consent is withdrawn |

## Findings

| source | as written | input that shows it | evidently intended | confidence | as-written member | corrected member |
|---|---|---|---|---|---|---|
| src/components/CounterCard.jsx:75-118 | each run of the animation effect starts a new frame loop, and no loop is ever cancelled, so a loop started with old props keeps writing the count | `targetValue` 100 and `duration` 1000 become visible, with a frame at 0 ms. The props then change to 50 and 10 ms. Frames at 100, 110 and 1000 ms leave 100 shown, no frame pending, and `targetValue` 50 | a restart replaces the running loop, so a finished animation shows the current `targetValue` | medium, not executed | `Counter.StaleTargetScenario` | `Counter.CancellingCounterCard.AnimateFrame` |
| src/components/CounterCard.jsx:45 | the lookup `IconComponents[icon]`, with `IconComponents.shield` as the fallback, finds members that `IconComponents` inherits from `Object.prototype`, and they are truthy, so no fallback happens | `icon="toString"` renders `Object.prototype.toString` instead of an icon | any name other than the four icons falls back to `shield` | low, not executed | `Icons.ToStringHasNoFallback` | `Icons.ResolveIcon` |

## Left out

- `src/components/Navbar.jsx` is not part of this model: it is static links and a boolean menu toggle.
- JSX and SVG markup, CSS classes, icon path data, the status banner and the dialogs' texts: rendering only.
- The IntersectionObserver's geometry, its 0.3 threshold, and observer attach and disconnect: "became visible" is an input to `Observe`.
- `requestAnimationFrame` itself: a loop's `pending` flag stands for its outstanding request, and the frame timestamp is a parameter.
- The order in which the browser calls several pending loops within one frame: any pending loop may be called.
- Floating-point rounding of `Math.pow` and of division: the model computes in exact reals, and the integer formula equals the real one.
- Termination of the frame loop: it needs timestamps that eventually reach `startTime + duration`. This is a premise of `Counter.RunFinishes`, not something proved.
- A `duration` of 0 or below: the card requires a positive duration. In JavaScript a duration of 0 makes the first frame compute `0/0`, so the count is `NaN` and the loop stops. A negative duration shows 0 on the first frame, then a count that keeps falling, and the loop never stops because `progress < 1` always holds.
- The default `duration = 2000` for a missing prop: the constructor always takes a duration.
- Unmounting the card: React ignores a state update after unmount, so a surviving loop has no visible effect then.
- `toLocaleString` thousands grouping and the `suffix`: they depend on the locale and only affect display.
- axios and the formsubmit.co endpoint, SweetAlert dialogs, Turnstile widget internals, `console.log`, the site key from the environment, and `setTimeout` timing: the request is the `Posted` payload, its result is `Outcome(ok)`, and the timer is `Reset`.
- The browser's constraint validation from the `required` and `type="email"` attributes, and the inputs' `disabled` attribute while loading: `Submit` models `handleSubmit` as called.
