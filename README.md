# A verified model of `SecureNotification` (notify.js)

notify.js defines a toast-notification manager, class `SecureNotification`, plus a global `Notify` façade. `add` checks and coerces its arguments into a note. The note is queued and at once rendered: `render` takes the queue, and for the note at position `index`, `createNotice` builds an element and arms a reveal timer of `index * 150` ms. The timer's id is recorded in `pendingTimers`.

When the reveal timer fires, `showNotice` does four things:
- records the note in `activeNotices`;
- for a positive duration, arms an auto-dismiss timer;
- for a positive duration, attaches mouseenter/mouseleave listeners that pause and restart that timer;
- for a closable note, attaches a close-button listener.

`closeByMessageImmediately` drops the queued notes and the active notices that carry a message. Its loop over the pending timers is meant to cancel those too, but as written it never cancels one. `destroy` clears the pending timers, empties the three collections and releases the singleton.

The model has five modules:

- **JsValues** (`values.dfy`): JavaScript argument values, default parameters, truthiness (`!!x`) and `String.prototype.trim` with the ECMAScript whitespace set.
- **Notices** (`notices.dfy`): the note record and `add`'s argument checks. Also `getIconClass`, `getNoteById` and the two filters by message.
- **Lifecycle** (`lifecycle.dfy`): the instance's state as a value. Besides the three collections, this state includes:
  - the table of armed `setTimeout` callbacks, keyed by handle;
  - the listeners attached to elements.

  There is one step function per operation and per timer or event firing, and one invariant, `Valid`.
- **LifecycleProps** (`lifecycle_props.dfy`): what each step promises, plus the proof that each step keeps `Valid`.
- **Manager** (`manager.dfy`): the class `SecureNotification`, whose fields are updated in place by methods with loops over the collections, and `Global`, the holder of the static `SecureNotification.instance`. Each method is proved to follow its Lifecycle step, and each public method to keep the invariant.
- **Facade** (`facade.dfy`): the `Notify` entry points with their default arguments.

Timers are explicit. `setTimeout` adds a callback to a table under a fresh handle, and `clearTimeout` removes it. The event loop appears as the methods `FireTimer`, `MouseEnter`, `MouseLeave` and `ClickClose`, which a caller may invoke in any order.

## Model

| member | source | states |
|---|---|---|
| JsValues.WithDefault | notify.js:174 | a JavaScript default parameter: the argument is replaced only when it is `undefined` |
| JsValues.WithDefaultAbsorbs | notify.js:363-365 | once a caller has applied a default that is not `undefined`, the callee's own default changes nothing, so `Notify.add` passing its defaults on to `add` is the same as `add` applying them |
| JsValues.Truthy | notify.js:194 | ECMAScript ToBoolean, the meaning of `!!closable` |
| JsValues.IsWhitespace | notify.js:191 | the characters `trim` strips: the ECMAScript WhiteSpace and LineTerminator code points |
| JsValues.TrimStart | notify.js:191 | drops the leading whitespace: the result is the suffix that starts at the first non-whitespace character |
| JsValues.TrimEnd | notify.js:191 | drops the trailing whitespace: the result is the prefix that ends at the last non-whitespace character |
| JsValues.Trim | notify.js:191 | the trimmed message is no longer than the input and neither starts nor ends with whitespace |
| JsValues.TrimIsSlice | notify.js:191 | the trimmed message is a contiguous piece of the input, with only whitespace dropped on either side |
| JsValues.TrimEmptyIff | notify.js:176 | `message.trim() === ''` holds exactly when every character is whitespace |
| JsValues.TrimIdempotent | notify.js:191 | trimming a stored message again changes nothing |
| Notices.SeverityOf | notify.js:181-183 | one of the four type names is kept; any other string or non-string becomes `info` |
| Notices.SeverityRoundTrip | notify.js:181-183 | each type's name is mapped back to that type |
| Notices.DurationMs | notify.js:185-193 | a non-negative number of seconds becomes that many thousand milliseconds; anything else becomes 3000 ms; the result is never negative |
| Notices.AcceptsMessage | notify.js:176 | the message check of `add`: a string that is not blank after trimming |
| Notices.MakeNote | notify.js:174-196 | no note exactly when the message is not a string or is all whitespace; otherwise the note has the given id, the trimmed non-empty message, the coerced type and duration, and `closable` true for `undefined` or a truthy value |
| Notices.MakeNoteStable | notify.js:189-196 | re-adding a stored note's message yields the same note |
| Notices.IconClass | notify.js:243-251 | the info icon is returned exactly for `info` |
| Notices.IconClassInjective | notify.js:243-251 | different types get different icons |
| Notices.GetNoteById | notify.js:324-329 | the result is the first queued note with that id, or null exactly when no queued note has it |
| Notices.WithoutMessage | notify.js:304 | every note of the filtered queue comes from the queue and carries another message, every such note of the queue is in it, and it is no longer than the queue |
| Notices.WithoutMessageSingle | notify.js:304 | a single note is kept exactly when its message differs |
| Notices.WithoutMessageConcat | notify.js:304 | filtering a concatenation concatenates the filtered parts, so the filter keeps the order and the repetitions of the queue |
| Notices.WithoutMessageKeepsOthers | notify.js:304 | a queue with no note carrying the message passes the filter unchanged |
| Notices.RemoveMessage | notify.js:316-321 | the remaining active entries are exactly those with another message, each unchanged |
| Notices.FilteredLookupMisses | notify.js:304-309 | the lookup over the filtered queue never finds a note with the message, so the clearing branch cannot be taken |
| Lifecycle.Arm | notify.js:235-238 | `setTimeout`: the callback is armed under the next handle and the handle counter advances |
| Lifecycle.CreateNoticeStep | notify.js:216-241 | `createNotice`: a new element, a reveal timer of `index * 150` ms, and its handle recorded under the note's id |
| Lifecycle.CreateAll | notify.js:209-211 | the `forEach` of `render` after the first k notes of the batch |
| Lifecycle.RenderStep | notify.js:206-214 | `render`: nothing for an empty queue; otherwise a notice for each queued note, then the queue emptied |
| Lifecycle.AddStep | notify.js:174-200 | `add`: nothing for a rejected message; otherwise the note is queued under a fresh id and the queue rendered |
| Lifecycle.ShowNoticeStep | notify.js:253-291 | `showNotice`: the active entry; for a positive duration the auto-dismiss timer and the hover listeners; for a closable note the close listener |
| Lifecycle.FireStep | notify.js:235-268 | a timer firing: a cleared handle does nothing; a reveal callback shows the notice and drops its pending entry; an auto-dismiss callback drops the active entry |
| Lifecycle.MouseEnterStep | notify.js:270 | mouseenter clears the timer captured by `showNotice` |
| Lifecycle.MouseLeaveStep | notify.js:271-276 | mouseleave arms a new auto-dismiss timer for the note's duration |
| Lifecycle.ClickCloseStep | notify.js:282-289 | a close click drops the active entry and removes its own listener |
| Lifecycle.Cancels | notify.js:308-309 | the test of the pending-timer loop: the note found by id in the queue carries the message |
| Lifecycle.CloseByMessageStep | notify.js:302-322 | `closeByMessageImmediately` as written: the queue is filtered, then the pending timers the lookup matches are cleared, then the matching active entries are removed |
| Lifecycle.DestroyStep | notify.js:337-342 | `destroy`: the timers in `pendingTimers` are cleared and the three collections emptied |
| Lifecycle.InitialValid | notify.js:145-147 | a freshly constructed instance satisfies the invariant |
| LifecycleProps.AddRejected | notify.js:176-179 | a rejected message leaves the whole state unchanged |
| LifecycleProps.AddAccepted | notify.js:189-199 | an accepted message gets a fresh id, a reveal timer with delay 0 under a fresh handle that is recorded in `pendingTimers`, and a new element; the queue is empty afterwards and nothing else changes |
| LifecycleProps.AddPreservesValid | notify.js:174-200 | `add` keeps the invariant |
| LifecycleProps.CreateAllKeeps | notify.js:209-211 | after k iterations of the render loop only the timers, `pendingTimers` and the handle and element counters (each advanced by k) have changed |
| LifecycleProps.CreateAllTimerAt | notify.js:235-238 | after k iterations, the note at position i < k has a reveal timer of i * 150 ms under the i-th new handle |
| LifecycleProps.CreateAllPendingAt | notify.js:240 | with distinct ids, after k iterations the note at position i < k is recorded in `pendingTimers` under the i-th new handle |
| LifecycleProps.CreateNoticeEffect | notify.js:216-241 | `createNotice` arms one reveal timer under the next handle, records that handle under the note's id, and changes nothing else |
| LifecycleProps.RenderArmsEachNote | notify.js:206-214 | after `render` the queue is empty and each queued note has its own reveal timer of `index * 150` ms, recorded under its id |
| LifecycleProps.FireReveal | notify.js:235-290 | the reveal callback makes the active entry from the note and removes only that note's pending entry. It keeps every other timer, and arms an auto-dismiss timer under the next handle exactly when the duration is positive. For a positive duration it attaches the hover listeners, whose `original` is that new handle, and otherwise leaves the listeners alone. It attaches the close listener exactly when the note is closable |
| LifecycleProps.FireAutoDismiss | notify.js:265-268 | the auto-dismiss callback drops its note's active entry and no other; a second firing for the same id changes nothing |
| LifecycleProps.FirePreservesValid | notify.js:235-268 | every timer firing keeps the invariant |
| LifecycleProps.ZeroDurationStaysActive | notify.js:264 | an active note with duration 0 is removed by no timer |
| LifecycleProps.MouseEnterClearsOriginal | notify.js:270 | mouseenter clears the timer `showNotice` armed and no other timer, and leaves the entries alone |
| LifecycleProps.MouseLeaveRestartsFullDuration | notify.js:271-276 | mouseleave arms a fresh timer for the note's whole stored duration, not for the time that was left |
| LifecycleProps.SecondEnterMissesLeaveTimer | notify.js:265-276 | after enter, leave, enter, the timer armed by mouseleave is still armed |
| LifecycleProps.MouseEnterPreservesValid | notify.js:270 | mouseenter keeps the invariant |
| LifecycleProps.MouseLeavePreservesValid | notify.js:271-276 | mouseleave keeps the invariant |
| LifecycleProps.ClickCloseOnce | notify.js:280-290 | a close click drops that note's active entry and no other, and removes the listener, so a second click does nothing |
| LifecycleProps.ClickClosePreservesValid | notify.js:280-290 | a close click keeps the invariant |
| LifecycleProps.CloseByMessageNeverCancelsPending | notify.js:302-313 | `closeByMessageImmediately` clears no reveal timer and leaves `pendingTimers` unchanged |
| LifecycleProps.ValidQueueLookupMisses | notify.js:324-329 | between public operations the queue is empty, so the lookup by id finds nothing |
| LifecycleProps.CloseByMessageRemovesMatches | notify.js:302-322 | afterwards, no queued note or active entry carries the message, and every note and entry with another message remains unchanged |
| LifecycleProps.CloseThenRevealStillShows | notify.js:302-313 | a notice whose reveal is pending when it is closed by message still becomes active, with that message, when its timer fires |
| LifecycleProps.CloseByMessagePreservesValid | notify.js:302-322 | `closeByMessageImmediately` keeps the invariant |
| LifecycleProps.DestroyEffects | notify.js:337-342 | `destroy` empties the collections and clears every reveal timer, but its auto-dismiss timers stay armed |
| LifecycleProps.DestroyIdempotent | notify.js:337-342 | a second `destroy` changes nothing |
| LifecycleProps.EmptyStaysEmpty | notify.js:337-342 | once the collections are empty, no timer or listener brings an entry back |
| Facade.SugarFallbackIsAddDefault | notify.js:368-386 | a missing duration takes the entry point's default; an invalid one falls back to the 3 s of `add` |
| Manager.SecureNotification.constructor | notify.js:145-147 | a fresh instance has empty collections and satisfies the invariant |
| Manager.SecureNotification.SetTimeout | notify.js:235 | the callback is armed under the next handle |
| Manager.SecureNotification.Add | notify.js:174-200 | the instance moves by the `add` step and keeps the invariant |
| Manager.SecureNotification.Render | notify.js:206-214 | the loop over the queue leaves the state of the `render` step |
| Manager.SecureNotification.CreateNotice | notify.js:216-241 | the state moves by the `createNotice` step |
| Manager.SecureNotification.ShowNotice | notify.js:253-291 | the state moves by the `showNotice` step |
| Manager.SecureNotification.FireTimer | notify.js:235-268 | running an armed callback follows the firing step and keeps the invariant; a cleared handle does nothing |
| Manager.SecureNotification.FireReveal | notify.js:235-238 | the reveal callback shows the notice and then drops its pending entry |
| Manager.SecureNotification.FireAutoDismiss | notify.js:265-268 | the auto-dismiss callback drops the active entry |
| Manager.SecureNotification.MouseEnter | notify.js:270 | follows the mouseenter step and keeps the invariant |
| Manager.SecureNotification.MouseLeave | notify.js:271-276 | follows the mouseleave step and keeps the invariant |
| Manager.SecureNotification.ClickClose | notify.js:282-289 | follows the close-click step and keeps the invariant |
| Manager.SecureNotification.CloseByMessageImmediately | notify.js:302-322 | the three passes leave the state of the as-written step and keep the invariant |
| Manager.SecureNotification.CancelPendingWith | notify.js:307-313 | over a filtered queue, the loop over `pendingTimers` changes nothing |
| Manager.SecureNotification.RemoveActiveWith | notify.js:316-321 | the loop over `activeNotices` removes exactly the entries carrying the message |
| Manager.SecureNotification.Destroy | notify.js:337-355 | clears each pending timer, empties the collections, releases the singleton and keeps the invariant |
| Manager.Global.Construct | notify.js:139-152 | yields the existing instance unchanged, or a fresh empty one that becomes the instance |
| Facade.Add | notify.js:363-366 | `Notify.add` applies `add`'s defaults to the singleton |
| Facade.Sugar | notify.js:368-386 | the shared shape of the four sugar entry points |
| Facade.Success | notify.js:368-371 | `add` with type `success` and a default of 3 s, on the existing singleton or on a fresh one that becomes the singleton |
| Facade.Error | notify.js:373-376 | `add` with type `error` and a default of 5 s, on the existing singleton or on a fresh one that becomes the singleton |
| Facade.Warning | notify.js:378-381 | `add` with type `warning` and a default of 4 s, on the existing singleton or on a fresh one that becomes the singleton |
| Facade.Info | notify.js:383-386 | `add` with type `info` and a default of 3 s, on the existing singleton or on a fresh one that becomes the singleton |
| Facade.CloseByMessageImmediately | notify.js:388-391 | `closeByMessageImmediately` on the existing singleton, or on a fresh one that becomes the singleton |
| Facade.Destroy | notify.js:393-396 | `destroy` on the singleton; afterwards no instance is set |

### Quirks of the code that the model keeps

In each of these cases the code does less than a caller would expect, and the model does what the code does:

- **No burst stagger.** A caller might expect notices added together to appear 150 ms apart. But `add` renders immediately, so every batch holds one note and every reveal delay is 0 (`AddAccepted`). The 0, 150, 300 ms stagger of `RenderArmsEachNote` applies only to a longer queue, which `add` never builds.
- **destroy leaves auto-dismiss timers armed.** A caller might expect `destroy` to cancel every timer. It clears only the timers recorded in `pendingTimers`, so auto-dismiss and mouseleave timers stay armed (`DestroyEffects`). Their callbacks can only delete from an `activeNotices` map that is already empty, so they remove no notice (`EmptyStaysEmpty`).
- **closeByMessageImmediately cannot cancel a notice waiting to be revealed.** It filters the queue before looking up the pending ids in it (`CloseByMessageNeverCancelsPending`). Even without the filter the lookup would miss, because every `add` empties the queue (`ValidQueueLookupMisses`). Such a notice still appears (`CloseThenRevealStillShows`).
- **mouseenter cannot always pause.** A caller might expect hovering always to pause the countdown, but mouseenter clears only the first auto-dismiss timer. A timer armed by mouseleave cannot be paused (`SecondEnterMissesLeaveTimer`).
- **The sugar defaults do not cover invalid values.** A caller might expect `Notify.error` to fall back to 5 s, but an invalid duration passed to `Notify.error` gives 3 s, not 5 s (`SugarFallbackIsAddDefault`).

## Left out

- DOM and styling: these are not modelled.
  - Not modelled: `injectStyles`, `createContainer`, the element's markup, attributes, classes and container.
  - `hideNotice`'s 450 ms removal and `removeNoticeImmediately` are not modelled either.
  - Elements are abstract numbers. Listeners stay callable after their element is removed, which over-approximates what a page can do.
- `escapeHtml`, `processMessage` and `allow_html`: they produce only markup, which is not modelled.
- `init`, `initialized`, the duplicate-load guard and the export to `global`: they concern page setup.
- `generateId`: ids come from a counter instead of the clock and `Math.random`. The model therefore guarantees fresh ids, which the source only makes likely.
- The note's `timestamp`: it is never read.
- `console.error` and `console.warn`: output only.
- Numbers: NaN and the infinities are not modelled, since durations are reals.
- Non-string messages passed to `closeByMessageImmediately`: the façade and method take a string.
- `getIconClass`: only the four types reach it, so its fallback for other keys, including inherited object keys, is not modelled.
- Timing: delays are recorded, but the order in which timers fire is not derived from them. Any armed timer may fire next.
- Manager.SecureNotification.CreateNotice: its contract states only the timer bookkeeping, because the element it builds is not modelled.
- Manager.SecureNotification.ShowNotice: its contract states only the active-entry, timer and listener bookkeeping. The `show` class is not modelled.
