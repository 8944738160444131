# vue3-popper: overlay state and outside-click decisions in Dafny

vue3-popper is a Vue 3 component library. It shows a floating overlay (a
"popper") next to a trigger element and places the overlay with the Popper
positioning engine. This project models the logic behind it as pure functions
and proves what that logic promises:

- **The `usePopper` composable** (`UsePopper`). It holds an `isOpen` flag and
  an engine instance. `open`, `close` and `toggle` flip the flag and emit
  `open:popper` or `close:popper`. A watcher on `[isOpen, placement]` creates
  a new engine instance and asks it for one update whenever the watched
  values change while the overlay is open. Unmounting destroys the current
  instance, if one exists.
  - Vue's batched, asynchronous watcher is modelled as an explicit `Settle`
    step. `Settle` compares the current values with the values the watcher
    last saw.
  - The engine is modelled as an append-only log of calls: `Create(options)`,
    `Update` and `Destroy`.
- **The older `userPopper` composable** (`UserPopper`). It offers
  `show`/`hide`/`toggle` and watches `isOpen` alone. It is related to
  `usePopper` by a step-by-step simulation.
- **The engine options** (`Popper`). This is the modifier list that
  `initializePopper` builds. The `toInt` helper, which is JavaScript's
  `parseInt(x, 10)`, is modelled in `JsNumber`. The placement names of the
  typings are modelled in `PlacementNames`.
- **The outside-click decisions.**
  - The `clickOutside` directive (src/click-outside.js) and the `clickAway`
    directive (src/directives/click-away.js), modelled in `ClickDirective`,
    `ClickOutside` and `ClickAway`. Each adds one "click" listener on the
    document per element and removes it again on unmount. The listener calls
    the bound function exactly when the click's target is neither the
    element nor inside it.
  - The `useClickAway` composable (`UseClickAway`). It registers one
    "pointerdown" listener on the window. The listener reads the target ref
    at event time and uses the event's composed path to decide.
  - The DOM pieces these need, modelled in `Dom` and `EventTarget`:
    containment, the composed path, and listener lists with
    add/remove/dispatch.

Facts about the code that the model keeps:

- **Placements.** `index.d.ts` lists fifteen placements: `auto`, `top`,
  `bottom`, `left` and `right`, each alone or with `-start` or `-end`.
  `Popper.Side` has the five sides.
- **Re-creating the engine.** `initializePopper` overwrites
  `popperInstance` without destroying the previous instance.
  `UsePopper.ReinitializationKeepsPreviousInstance` states the consequence:
  after a placement change there are two creates and only one destroy.
- **Closing.** `close` clears the flag and emits `close:popper`. The engine
  instance stays as it is until the next initialization or unmount.
- **Outside clicks.** The directives decide on every click from the
  element and the target alone. They listen for "click" on the document,
  and `useClickAway` listens for "pointerdown" on the window.
- **No window.** `useClickAway` tests `!window`, which throws where
  `window` is not declared at all. See "## Findings".

## Model

| member | source | states |
|---|---|---|
| UsePopper.Init | src/composables/usePopper.js:17-18 | a new overlay is closed, has no engine instance, has emitted nothing and satisfies the state invariant |
| UsePopper.Close | src/composables/usePopper.js:22-28 | closing an open overlay clears the flag and emits exactly one `close:popper`; closing a closed overlay changes nothing; the engine is untouched |
| UsePopper.Open | src/composables/usePopper.js:30-36 | opening a closed overlay sets the flag and emits exactly one `open:popper`; opening an open overlay changes nothing; the engine is untouched |
| UsePopper.Toggle | src/composables/usePopper.js:38-40 | toggling inverts the flag and emits the event matching the new state |
| UsePopper.Settle | src/composables/usePopper.js:42-47 | the watcher runs only when `isOpen` or `placement` changed; it creates and updates an engine instance, built from the current props, exactly when it runs while the overlay is open; otherwise the instance and the engine are unchanged |
| UsePopper.Unmount | src/composables/usePopper.js:75-77 | unmounting appends `destroy` exactly when an engine instance exists |
| UsePopper.ApplyKeepsValid | src/composables/usePopper.js:22-47 | every single operation keeps the invariant: events alternate; `isOpen` matches an odd event count; the engine log is create/update pairs; the instance is the last one created |
| UsePopper.RunKeepsValid | src/composables/usePopper.js:22-47 | any sequence of operations keeps that invariant |
| UsePopper.EventsAlternate | src/composables/usePopper.js:22-36 | from the initial state, the first emitted event is `open:popper`; no event is emitted twice in a row; the overlay is open exactly when the last event was `open:popper` |
| UsePopper.EngineCallsPaired | src/composables/usePopper.js:49-73 | every engine creation is immediately followed by one update, and the current instance is the one created last |
| UsePopper.UnmountDestroysAtMostOnce | src/composables/usePopper.js:75-77 | after any run, unmounting destroys once if an instance was ever created and never otherwise |
| UsePopper.ReinitializationKeepsPreviousInstance | src/composables/usePopper.js:49-50 | a placement change while open creates a second instance without destroying the first, so unmounting leaves two creates against one destroy |
| UsePopper.OpenWhenOpenDoesNotReinitialize | src/composables/usePopper.js:30-33 | opening an already open overlay whose watched values are unchanged triggers no engine call |
| UsePopper.OpenThenCloseCycle | src/composables/usePopper.js:22-73 | opening, settling, closing and settling again emits `open:popper` then `close:popper`, and creates and updates exactly one instance, which is kept |
| UsePopper.ClosedThenSettled | src/composables/usePopper.js:42-47 | closing an open overlay and letting the watcher run emits exactly one `close:popper` and makes no engine call |
| Popper.Modifiers | src/composables/usePopper.js:52-69 | the modifier list is preventOverflow, flip, arrow, arrow options, offset, offset options; the arrow padding and the offset pair sit in the options entries; each options entry follows the modifier it configures |
| Popper.InitialOptionsReadPadding | src/composables/usePopper.js:50-61 | when the arrow padding prop holds a decimal integer, possibly followed by a unit such as "px", the engine's arrow options receive that integer as the padding, whatever the other props hold |
| Popper.InitialOptionsReadSkid | src/composables/usePopper.js:62-67 | when the horizontal offset prop holds a decimal integer, possibly followed by its own unit, the engine's offset option receives that integer as its first component |
| Popper.InitialOptionsReadDistance | src/composables/usePopper.js:62-67 | when the vertical offset prop holds a decimal integer, possibly followed by its own unit, the engine's offset option receives that integer as its second component |
| Popper.Initialize | src/composables/usePopper.js:49-73 | initializing appends exactly a create with the options and then an update, and keeps the earlier log |
| Popper.InitializeCounts | src/composables/usePopper.js:49-73 | initializing adds one create, no destroy, and keeps the log made of create/update pairs |
| Popper.CountsOfAppend | src/composables/usePopper.js:75-77 | counting creates and destroys distributes over concatenating engine logs |
| JsNumber.ToInt | src/composables/usePopper.js:8 | `toInt` gives NaN exactly when, after the leading white space and an optional sign, the text does not start with a decimal digit |
| JsNumber.ToIntWithUnit | src/composables/usePopper.js:8 | a decimal integer followed by a unit, or by nothing, reads as that integer |
| JsNumber.ToIntOfFormatInt | src/composables/usePopper.js:8 | `toInt` reads back any integer written in decimal, after any leading white space and before any non-digit tail |
| JsNumber.ToIntWithoutDigits | src/composables/usePopper.js:8 | a string with no decimal digit parses to NaN |
| JsNumber.TrimStartRemovesLeadingWhiteSpace | src/composables/usePopper.js:8 | parsing skips exactly the leading white space and line terminators: the rest is a suffix and does not start with white space |
| JsNumber.DigitPrefixIsLongest | src/composables/usePopper.js:8 | the digits read are a prefix of the input, and it is the longest such prefix |
| JsNumber.DigitsValueOfFormatNat | src/composables/usePopper.js:8 | the value of a decimal digit string is the number it was written from |
| PlacementNames.PlacementFromName | index.d.ts:5-20 | any placement name accepted is exactly the name of the placement returned |
| PlacementNames.PlacementNameRoundTrip | index.d.ts:5-20 | every one of the fifteen placements reads back from its name |
| UserPopper.Init | src/composables/userPopper.js:11-12 | a new overlay is hidden, with no engine instance and no engine calls |
| UserPopper.Hide | src/composables/userPopper.js:16-18 | hiding always leaves the overlay hidden, changes nothing if already hidden, and leaves the engine untouched |
| UserPopper.HideIdempotent | src/composables/userPopper.js:16-18 | hiding twice is the same as hiding once |
| UserPopper.Show | src/composables/userPopper.js:20-26 | showing leaves the overlay shown, changes nothing if already shown, and leaves the engine untouched |
| UserPopper.Toggle | src/composables/userPopper.js:28-30 | toggling inverts the flag and leaves the engine untouched |
| UserPopper.Settle | src/composables/userPopper.js:32-66 | the watcher runs only when `isOpen` changed, and creates and updates an instance from the current props exactly when it changed to open |
| UserPopper.SameVisibility | src/composables/userPopper.js:16-30 | for any sequence of operations, this variant and `usePopper` end equally open or closed |
| UserPopper.SameEngineCallsForFixedPlacement | src/composables/userPopper.js:32-37 | while the placement does not change, both composables make the same engine calls and hold the same instance for any sequence of operations |
| UserPopper.InitialStatesCorrespond | src/composables/userPopper.js:11-12 | the two composables start in corresponding states |
| UserPopper.PlacementChangeOnlyReinitializesNewer | src/composables/userPopper.js:32-37 | a placement change on an open overlay re-creates the instance in `usePopper` but not in this variant, which watches `isOpen` only |
| ClickDirective.BeforeMount | src/click-outside.js:2-11 | mounting stores a new handler on the element and adds exactly one "click" listener for it to the document; the handlers stored on every other element are unchanged |
| ClickDirective.Unmounted | src/click-outside.js:12-14 | unmounting removes exactly the stored handler's listener and leaves the stored handlers as they are; it changes nothing for an element never mounted |
| ClickDirective.Handle | src/click-outside.js:3-9 | the handler calls the bound function once when the target is neither the element nor inside it, and never otherwise |
| ClickDirective.HandleAll | src/click-outside.js:3-10 | running the registered handlers calls nobody exactly when every handler's element is an inclusive ancestor of the target; a function is called exactly when some handler whose element is not an inclusive ancestor of the target has it as its bound function; there are never more calls than handlers |
| ClickDirective.HandleAllAtHandler | src/click-outside.js:3-10 | at every handler, the calls split into those of the handlers before it, then that handler's own decision (its own function once, or nothing), then those of the handlers after it; so each handler contributes at most one call, in registration order |
| ClickDirective.OnEvent | src/click-outside.js:10 | an event reaching the document calls nobody exactly when every handler registered for its type has an element that is an inclusive ancestor of the target |
| ClickDirective.HandleAllAppend | src/click-outside.js:10 | the calls for a document-wide click are those of each registered handler, in registration order |
| ClickDirective.ClickAfterMount | src/click-outside.js:3-10 | after mounting, a click produces the earlier calls followed by this element's decision |
| ClickDirective.OnlyClicksObserved | src/click-outside.js:10 | mounting changes nothing for events other than "click" |
| ClickDirective.MountUnmountBalanced | src/click-outside.js:10-13 | mounting and then unmounting leaves the document's listeners as they were |
| ClickDirective.ApplyKeepsMountedOver | src/click-outside.js:2-14 | a hook on any other element, or of the other directive, keeps a mounted handler on top of the same page without it |
| ClickDirective.RunKeepsMountedOver | src/click-outside.js:2-14 | any run of such hooks keeps that relation |
| ClickDirective.BalancedAcrossOtherHooks | src/click-outside.js:2-14 | mount on an element, run any hooks on other elements, then unmount it: the document's listeners are exactly those the same hooks leave where the element never mounted |
| ClickOutside.ClickDecision | src/click-outside.js:3-10 | a click on the element or inside it calls nothing more; a click outside calls the bound function once more |
| ClickOutside.OnlyClicksObserved | src/click-outside.js:10 | the `clickOutside` directive ignores every event type except "click" |
| ClickOutside.MountUnmountBalanced | src/click-outside.js:10-13 | the `clickOutside` directive removes on unmount exactly the listener it added on mount, whatever other elements mount and unmount in between |
| ClickAway.ClickDecision | src/directives/click-away.js:3-10 | a click on the element or inside it calls nothing more; a click outside calls the bound function once more |
| ClickAway.OnlyClicksObserved | src/directives/click-away.js:10 | the `clickAway` directive ignores every event type except "click" |
| ClickAway.MountUnmountBalanced | src/directives/click-away.js:10-13 | the `clickAway` directive removes on unmount exactly the listener it added on mount, whatever other elements mount and unmount in between |
| EventTarget.AddEventListener | src/click-outside.js:10 | after adding, the listener is registered exactly once: it is appended only if absent |
| EventTarget.RemoveEventListener | src/click-outside.js:13 | removing drops exactly the given listener and nothing else |
| EventTarget.AddThenRemove | src/click-outside.js:10-13 | adding a new listener and removing it restores the list |
| EventTarget.RemoveCommutes | src/click-outside.js:13 | removing two listeners gives the same list in either order |
| EventTarget.RemoveFromAppend | src/click-outside.js:13 | removal distributes over concatenating listener lists |
| EventTarget.Dispatch | src/click-outside.js:10 | an event reaches exactly the callbacks registered for its type |
| EventTarget.DispatchAppend | src/click-outside.js:10 | dispatch order follows registration order |
| Dom.Contains | src/click-outside.js:5 | every node contains itself, and a node contains only nodes that come after it in tree order |
| Dom.ContainsIsInclusiveAncestor | src/click-outside.js:5 | the target being the element or inside it (`el.contains`) holds exactly when `el` is an inclusive ancestor of the target |
| Dom.ComposedPath | src/composables/useClickAway.js:17 | the composed path starts at the target and climbs parent by parent to the root |
| Dom.ComposedPathIsContainers | src/composables/useClickAway.js:17 | a node is on the target's composed path exactly when it contains the target |
| Dom.ContainsTransitive | src/click-outside.js:5 | containment is transitive |
| UseClickAway.UseClickAway | src/composables/useClickAway.js:4-24 | as written: throws a ReferenceError exactly where `window` is not declared, returns without registering exactly where it is declared but falsy, and otherwise registers one "pointerdown" listener for this ref and handler |
| UseClickAway.UseClickAwayGuarded | src/composables/useClickAway.js:7-9 | with the guard evidently meant: nothing is registered exactly when there is no real window, and otherwise the same single "pointerdown" listener |
| UseClickAway.UndeclaredWindowThrows | src/composables/useClickAway.js:7-9 | where `window` is not declared, the code as written throws while the guarded version returns without registering |
| UseClickAway.GuardedAgreesWhereDeclared | src/composables/useClickAway.js:7-24 | wherever `window` is declared, the guarded version does exactly what the code as written does |
| UseClickAway.Listen | src/composables/useClickAway.js:11-22 | an empty ref calls nothing; otherwise the handler is called once with the event exactly when the ref's element is not an inclusive ancestor of the target |
| UseClickAway.Deliver | src/composables/useClickAway.js:24 | the window listener runs only for the event type it was registered for |
| UseClickAway.OnlyPointerDownObserved | src/composables/useClickAway.js:5-9 | without a real window (guarded version), or for any event other than "pointerdown", the handler is never called |
| UseClickAway.PointerDownDecision | src/composables/useClickAway.js:11-24 | a pointer-down inside the element calls nothing; one outside calls the handler once with the event |
| UseClickAway.SameDecisionAsDirectives | src/composables/useClickAway.js:17 | on the same tree, the composed-path test decides like the directives' `contains` test |
| UseClickAway.DecisionFollowsCurrentRef | src/composables/useClickAway.js:12 | the decision uses the element the ref holds when the event arrives |

## Left out

- Vue's reactivity and `nextTick`. The watcher is the explicit `Settle`
  step, which runs once per batch of changes and completes at once.
- `UsePopper.Settle`: the watcher (src/composables/usePopper.js:42-47)
  awaits `nextTick` before calling `initializePopper`, and in between both
  the props and `isOpen` can change. Neither interleaving is modelled. In
  particular, a `close()` that lands after the watcher fires but before
  `initializePopper` runs still creates an instance while the overlay is
  closed. The clause "the engine grows exactly when a watched value changed
  and `isOpen` holds" rules that run out.
- The `triggerNode` and `popperNode` refs, and all positioning geometry. The
  engine is an opaque log of create, update and destroy calls.
- `emit` is modelled as an append-only list of emitted event names.
- `JsNumber.ToInt`: JavaScript's `parseInt("-0", 10)` is negative zero,
  while the model has a single zero and gives `Int(0)`. The engine treats
  both zeros alike as offsets and padding.
- `JsNumber.ToIntOfFormatInt`: integers are unbounded. JavaScript's
  `parseInt` rounds results beyond 2^53 to the nearest double, and that
  rounding is not modelled. Strings are sequences of Unicode characters, not
  UTF-16 code units. Props are assumed to be strings already, so the
  `ToString` conversion `parseInt` applies first is not modelled.
- `useEventListener` is not part of this model. `useClickAway` is modelled
  up to the registration it asks for; the stop handle that the helper
  returns is left out.
- `UseClickAway.SameDecisionAsDirectives`: the tree is fixed for the whole
  dispatch of one event. In a browser, `composedPath()` is fixed when
  dispatch starts, while `el.contains(event.target)` reads the live tree
  when the document listener runs. An earlier listener, such as a re-render
  caused by the target's own click handler, can detach the target in
  between, and then the two tests can disagree.
- The composed path ignores shadow roots, and omits the document and window
  entries that follow the root node. Those entries are never the element a
  ref holds.
- Re-mounting a directive on an element that was never unmounted
  overwrites the stored handler, and the earlier listener stays registered.
  The balance lemmas cover runs with no second mount of the same directive
  on the same element before its unmount, which is what Vue does.
- `userPopper` has no unmount hook, so it has no destroy step.
- `useContent.js`, the components, the dev server and the build
  configuration hold no decision logic of the modelled core.

## Findings

| source | as written | input that shows it | evidently intended | confidence | as-written member | corrected member |
|---|---|---|---|---|---|---|
| src/composables/useClickAway.js:7-9 | the guard `if (!window)` reads the global `window` binding directly | a call where `window` is not declared at all, as in server-side rendering under Node: the guard throws a ReferenceError instead of returning | test `typeof window` first, so that a missing window returns without registering anything | medium, not executed | UseClickAway.UseClickAway, UseClickAway.UndeclaredWindowThrows | UseClickAway.UseClickAwayGuarded, UseClickAway.GuardedAgreesWhereDeclared |
