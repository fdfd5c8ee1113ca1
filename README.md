# KRDS focus management, modelled in Dafny

The KRDS Vue component library ships three accessibility composables under
`src/krds/composables/`. Dialog-like components use them together:

- `useFocusTrap(containerRef)` keeps keyboard Tab navigation inside a container while it
  is active. On `activate` it records the element that had focus and moves focus to the
  first focusable descendant. While active, Tab on the last focusable element wraps to
  the first, and Shift+Tab on the first wraps to the last. On `deactivate`, and when the
  owning component unmounts, it stops listening and gives focus back.
- `useEscapeKey(callback, enabled = () => true)` calls `callback` for every Escape keydown
  for which `enabled()` holds at that moment, between mount and unmount.
- `useClickOutside(elementRef, callback)` calls `callback(event)` for every click whose
  target is neither the bound element nor inside it. The listener is registered in the
  capture phase between mount and unmount. A null reference makes the handler do nothing.

The model has four modules, one file each:

- `Dom` (`dom.dfy`) holds the browser pieces the composables read:
  - an optional reference (`Option`);
  - elements with a tag, `href`, `disabled` and `tabindex`;
  - keyboard and click events;
  - the element tree as a parent map over nodes numbered in document order, with
    `Contains(t, a, b)` for `a.contains(b)` (inclusive) and its order properties.
- `FocusTrap` (`focus_trap.dfy`) holds:
  - the selector list `FOCUSABLE_SELECTORS`, as a list of compound CSS selectors;
  - `getFocusableElements`, as a document-order filter over the container's descendants;
  - the trap as a pure state machine (`Activated`, `Deactivated`, `KeyDown`, `Step`,
    `Run` over a `TrapState`);
  - the class `Trap`, whose methods are proved equal to that state machine.
- `EscapeKey` (`escape_key.dfy`) holds the pure state machine (`KeyDownHandled`,
  `Step`, `Run`) and the class `EscapeKeyListener`. The listener keeps:
  - a registration flag;
  - a count of callback invocations;
  - a count of `enabled()` evaluations.
- `ClickOutside` (`click_outside.dfy`) holds the pure state machine (`ClickHandled`,
  `Step`, `Run`) and the class `ClickOutsideListener`. The listener keeps:
  - a registration flag;
  - the bound element;
  - the list of events the callback received.

How the modelling choices map to the source:

- `focus()` becomes an assignment to the document's focused element. This is
  `activeElement` in the class and `focus` in `TrapState`.
- Each composable registers at most one listener, so the listener registry of each
  instance is one boolean. `addEventListener` ignores a second identical registration,
  and `removeEventListener` with the same type, handler and capture flag removes it.
- The caller's callbacks become observable counters or logs.
- A caller's `enabled` predicate becomes the value it returns at each press. This value
  is a parameter of every key event, so a predicate that changes between presses is
  covered.

Consequences of the code that are easy to miss:

- The selector `[tabindex]:not([tabindex="-1"])` admits any `tabindex` value except
  exactly `"-1"`, including `"-2"`.
- The selector clauses are OR'd. So an enabled `<button tabindex="-1">` is still
  focusable, and a disabled button with `tabindex="0"` is focusable too
  (`ClausesAreIndependent`).
- Teardown calls `deactivate`, which does nothing on an inactive trap. By the invariant,
  an inactive trap holds no listener and no restoration target.
- `document.activeElement === firstElement` compares node identity. The model compares
  elements by their `id`, so a focused element whose attributes changed after the
  focusable set was read still counts as the same element.

## Model

| member | source | states |
|---|---|---|
| `Dom.Contains` | src/krds/composables/useClickOutside.ts:11 | `a.contains(b)` holds only when `a` precedes or is `b` in document order |
| `Dom.ContainsTransitive` | src/krds/composables/useClickOutside.ts:11 | a descendant of a descendant is contained |
| `Dom.ContainsAntisymmetric` | src/krds/composables/useClickOutside.ts:11 | two elements that contain each other are the same element |
| `Dom.ContainsOrdered` | src/krds/composables/useClickOutside.ts:11 | two inclusive ancestors of one node are ordered by containment |
| `Dom.ContainsChild` | src/krds/composables/useClickOutside.ts:10-11 | a child of the element, and everything inside that child, is contained in the element |
| `Dom.SiblingNotContained` | src/krds/composables/useClickOutside.ts:10-11 | nothing inside a sibling is contained in the element |
| `FocusTrap.IsFocusable` | src/krds/composables/useFocusTrap.ts:3-10 | an element matches `FOCUSABLE_SELECTORS` iff it is an anchor with `href`, an enabled button, input, select or textarea, or has a `tabindex` other than `"-1"` |
| `FocusTrap.MatchesListAny` | src/krds/composables/useFocusTrap.ts:3-10 | a comma-joined selector list matches an element iff one of its selectors does |
| `FocusTrap.FocusableClauses` | src/krds/composables/useFocusTrap.ts:3-10 | the selector list matches exactly: an anchor with `href`; an enabled button, input, select or textarea; or a `tabindex` present and not `"-1"` |
| `FocusTrap.ClausesAreIndependent` | src/krds/composables/useFocusTrap.ts:3-10 | the clauses are OR'd: a disabled button with tabindex 0 and an enabled button with tabindex -1 are focusable; a disabled button with tabindex -1 and an anchor without `href` are not |
| `FocusTrap.Focusable` | src/krds/composables/useFocusTrap.ts:18 | an element is in the focusable set iff it is a descendant and matches the selector list; the set is no longer than the descendants |
| `FocusTrap.FocusableAppend` | src/krds/composables/useFocusTrap.ts:18 | the set keeps document order: the set of a concatenation is the concatenation of the sets |
| `FocusTrap.FocusableIsSubsequence` | src/krds/composables/useFocusTrap.ts:18 | the set is a subsequence of the descendants: positions that strictly increase pick out its elements |
| `FocusTrap.GetFocusableElements` | src/krds/composables/useFocusTrap.ts:16-19 | a null container gives the empty set; otherwise exactly the focusable descendants |
| `FocusTrap.KeyDown` | src/krds/composables/useFocusTrap.ts:21-41 | a press that does not call `preventDefault` changes nothing; one that does changes only focus, and moves it onto an element of the focusable set |
| `FocusTrap.KeyDownIgnored` | src/krds/composables/useFocusTrap.ts:17-25 | inactive, not Tab, or no focusable element (which includes a null container): no `preventDefault`, state unchanged |
| `FocusTrap.KeyDownInterceptsIff` | src/krds/composables/useFocusTrap.ts:21-41 | `preventDefault` is called iff the trap is active, the key is Tab, the set is non-empty and focus is on the first element (Shift) or on the last (no Shift) |
| `FocusTrap.WrapForward` | src/krds/composables/useFocusTrap.ts:35-39 | Tab on the last element prevents default and focuses the first |
| `FocusTrap.WrapBackward` | src/krds/composables/useFocusTrap.ts:30-34 | Shift+Tab on the first element prevents default and focuses the last |
| `FocusTrap.WrapRoundTrip` | src/krds/composables/useFocusTrap.ts:27-40 | wrapping forward and then back returns to the starting state |
| `FocusTrap.SingleElementHoldsFocus` | src/krds/composables/useFocusTrap.ts:27-40 | with one focusable element, Tab and Shift+Tab both keep focus on it |
| `FocusTrap.ThreeElements` | src/krds/composables/useFocusTrap.ts:27-40 | with A, B, C: Shift+Tab on A goes to C, Tab on C goes to A, Tab on B is not intercepted |
| `FocusTrap.ActivateIdempotent` | src/krds/composables/useFocusTrap.ts:43-44 | activating an active trap changes nothing, so activating twice equals activating once |
| `FocusTrap.ActivateFromInactive` | src/krds/composables/useFocusTrap.ts:46-54 | from inactive: active, listener registered, previous focus recorded, focus on the first focusable element or unchanged when there is none |
| `FocusTrap.DeactivateWhenInactive` | src/krds/composables/useFocusTrap.ts:57-58 | deactivating an inactive trap changes nothing |
| `FocusTrap.ActivateThenDeactivate` | src/krds/composables/useFocusTrap.ts:43-67 | activate then deactivate: inactive, no listener, target cleared, focus back on the prior element if there was one, otherwise left where activation put it |
| `FocusTrap.Activated` | src/krds/composables/useFocusTrap.ts:43-55 | afterwards the trap is active; focus is unchanged or on the first focusable element; the invariant is kept |
| `FocusTrap.Deactivated` | src/krds/composables/useFocusTrap.ts:57-67 | afterwards the trap is inactive; focus is unchanged or on the recorded element; from a state satisfying the invariant, no listener and no restoration target remain |
| `FocusTrap.Step` | src/krds/composables/useFocusTrap.ts:21-71 | every operation keeps "listener registered iff active" and "inactive implies no restoration target" |
| `FocusTrap.Run` | src/krds/composables/useFocusTrap.ts:21-71 | the invariant holds after any sequence of operations |
| `FocusTrap.SessionKeepsTarget` | src/krds/composables/useFocusTrap.ts:21-55 | while active, key presses, focus moves and repeated activation keep the trap active and keep its restoration target |
| `FocusTrap.RestoreAfterSession` | src/krds/composables/useFocusTrap.ts:43-71 | activate, any session, then deactivate or teardown: focus is exactly the element focused before activation, trap off, no listener, target cleared |
| `FocusTrap.TeardownReleases` | src/krds/composables/useFocusTrap.ts:69-71 | after teardown the trap is inactive with no listener, and no later Tab is intercepted |
| `FocusTrap.WritableIsActiveLeaks` | src/krds/composables/useFocusTrap.ts:57-74 | a caller writing `false` into the returned `isActive` ref breaks the invariant, and teardown then leaves the keydown listener registered |
| `FocusTrap.Trap.constructor` | src/krds/composables/useFocusTrap.ts:12-14 | a new trap is inactive, with no restoration target and no listener |
| `FocusTrap.Trap.FocusableElements` | src/krds/composables/useFocusTrap.ts:16-19 | the current focusable set: the focusable descendants of the bound container, none when it is null |
| `FocusTrap.Trap.Activate` | src/krds/composables/useFocusTrap.ts:43-55 | the new state is `Activated` of the old state and the set computed at the call; the invariant is kept |
| `FocusTrap.Trap.Deactivate` | src/krds/composables/useFocusTrap.ts:57-67 | the new state is `Deactivated` of the old state; the invariant is kept |
| `FocusTrap.Trap.HandleKeyDown` | src/krds/composables/useFocusTrap.ts:21-41 | the new state and the `preventDefault` result are those of `KeyDown` on the set recomputed at the press |
| `FocusTrap.Trap.Unmount` | src/krds/composables/useFocusTrap.ts:69-71 | teardown deactivates: afterwards inactive and no listener |
| `EscapeKey.KeyDownHandled` | src/krds/composables/useEscapeKey.ts:3-8 | registration and predicate kind are unchanged; a non-Escape key changes nothing; the count rises by one iff the key is Escape and `enabled()` holds (always, for the default), else stays; never more calls than evaluations |
| `EscapeKey.Step` | src/krds/composables/useEscapeKey.ts:3-16 | a key while unregistered changes nothing; each event adds at most one call, and no more calls than evaluations |
| `EscapeKey.FiresIff` | src/krds/composables/useEscapeKey.ts:4-8 | a keydown fires the callback exactly once iff the listener is registered, the key is `Escape` and `enabled()` holds now; otherwise the count is unchanged |
| `EscapeKey.OtherKeysIgnored` | src/krds/composables/useEscapeKey.ts:5 | a non-Escape key changes nothing: no callback, and `enabled` is not evaluated |
| `EscapeKey.GateReadAfresh` | src/krds/composables/useEscapeKey.ts:4-12 | a refused Escape does not fire; once the predicate answers true, the next Escape fires with no re-registration |
| `EscapeKey.DefaultFiresOnEveryEscape` | src/krds/composables/useEscapeKey.ts:3-7 | with the default predicate, n Escape presses while mounted fire the callback n times |
| `EscapeKey.SilentWhileUnregistered` | src/krds/composables/useEscapeKey.ts:10-16 | before mount and after unmount, no sequence of presses fires the callback |
| `EscapeKey.CallsFollowEvaluations` | src/krds/composables/useEscapeKey.ts:4-8 | over any run, callbacks never outnumber evaluations of `enabled` |
| `EscapeKey.EscapeKeyListener.constructor` | src/krds/composables/useEscapeKey.ts:3 | a new instance is unregistered with no calls and no evaluations |
| `EscapeKey.EscapeKeyListener.Mount` | src/krds/composables/useEscapeKey.ts:10-12 | mounting registers the keydown listener |
| `EscapeKey.EscapeKeyListener.Unmount` | src/krds/composables/useEscapeKey.ts:14-16 | unmounting removes it |
| `EscapeKey.EscapeKeyListener.HandleKeyDown` | src/krds/composables/useEscapeKey.ts:4-8 | the handler updates the counts as `KeyDownHandled` says |
| `EscapeKey.EscapeKeyListener.DispatchKeyDown` | src/krds/composables/useEscapeKey.ts:4-16 | the document delivers a keydown to the handler only while it is registered |
| `ClickOutside.ClickHandled` | src/krds/composables/useClickOutside.ts:7-14 | registration and reference are unchanged; the history either stays or gains exactly that event; a null reference changes nothing |
| `ClickOutside.Step` | src/krds/composables/useClickOutside.ts:7-22 | the history grows only on a click while registered, and then by exactly that event; only mount and unmount change registration, only binding changes the reference |
| `ClickOutside.NullReferenceIgnored` | src/krds/composables/useClickOutside.ts:8 | with a null reference a click changes nothing |
| `ClickOutside.FiresIffOutside` | src/krds/composables/useClickOutside.ts:7-14 | the callback receives the event, exactly once, iff the reference is bound and the target is outside the element; otherwise nothing is recorded |
| `ClickOutside.ChildAndSibling` | src/krds/composables/useClickOutside.ts:10-13 | a click inside a child of the element does not call back; a click inside a sibling does, once, with that event |
| `ClickOutside.SilentWhileUnregistered` | src/krds/composables/useClickOutside.ts:16-22 | before mount and after unmount no click reaches the callback |
| `ClickOutside.FiredAreClicks` | src/krds/composables/useClickOutside.ts:7-22 | over any run the callback's history only grows, by at most one event per operation, and every event it got is a click of the run |
| `ClickOutside.ClickOutsideListener.constructor` | src/krds/composables/useClickOutside.ts:3-6 | a new instance is unregistered and has not called back |
| `ClickOutside.ClickOutsideListener.Mount` | src/krds/composables/useClickOutside.ts:16-18 | mounting registers the capture-phase click listener |
| `ClickOutside.ClickOutsideListener.Unmount` | src/krds/composables/useClickOutside.ts:20-22 | unmounting removes the same registration |
| `ClickOutside.ClickOutsideListener.HandleClick` | src/krds/composables/useClickOutside.ts:7-14 | the handler updates the history as `ClickHandled` says |
| `ClickOutside.ClickOutsideListener.DispatchClick` | src/krds/composables/useClickOutside.ts:7-22 | the document delivers a click to the handler only while it is registered |

## Left out

- Browser focus semantics are not modelled: whether `focus()` succeeds on hidden, inert or
  detached elements, positive-`tabindex` ordering, and native Tab traversal inside the
  container. The trap decides only whether to call `preventDefault` and which element to
  focus. Any other focus change is the `FocusMoved` event.
- `document.activeElement` is `Option<Elem>`. The browser reports `<body>` rather than
  null when nothing is focused; the model treats any such element like any other.
- Vue reactivity and lifecycle (`ref`, `onMounted`, `onBeforeUnmount`) become plain
  fields and explicit `Mount`/`Unmount` methods. The host assigns `containerRef.value` and
  `elementRef.value` by writing the `container` and `element` fields.
- Dispatch order across several listeners is not modelled. This includes nested or
  overlapping traps, and capture versus bubble handlers of other components. A capture
  listener is treated as always reached while registered.
- What the callbacks do, including exceptions they throw, is not modelled. Only the
  number of invocations (escape) or the events passed (click outside) is recorded.
- CSS selector matching is reduced to the three attributes the selector list mentions.
  Tag names are lower-case local names; namespaces and case folding are not modelled.
- The DOM tree is a parent map over nodes numbered in document order. Shadow roots,
  text-node targets and nodes of other documents are not modelled.
- `FocusTrap.Step`, `FocusTrap.Run`, `FocusTrap.TeardownReleases` and the class `Trap`'s
  `Valid` invariant assume callers treat the returned `isActive` ref as read-only. Code
  outside the composable could write it; `WritableIsActiveLeaks` shows that writing
  `false` while active breaks `Inv` and leaves the listener registered after teardown.
- Elements are attribute snapshots identified by `id`. Focus comparisons use the `id`
  only. The restored element is the snapshot taken at activation; later attribute
  changes to it are not tracked.
- `src/krds/types/index.ts` (type declarations only) is not part of this model.
- The component stories and specs, `vite.config.ts`, `.storybook/` and `src/krds/index.ts`
  (markup, rendering and build configuration) are not part of this model.
