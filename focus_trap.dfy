/** `useFocusTrap`: confines Tab navigation to a container while active and gives
    focus back to where it was on deactivation. */
module FocusTrap {
  import opened Dom

  // ---------------------------------------------------------------------------
  // The focusability selectors and the focusable set
  // ---------------------------------------------------------------------------

  /** One attribute condition of a compound CSS selector:
      `[name]`, `:not([name])`, `:not([name="value"])`. */
  datatype AttrTest = Has(name: string) | Lacks(name: string) | NotValue(name: string, value: string)

  /** A compound selector: an optional type selector and attribute conditions. */
  datatype Compound = Compound(tag: Option<string>, tests: seq<AttrTest>)

  /** The selector list the trap hands to `querySelectorAll`, one compound per clause. */
  const FocusableSelectors: seq<Compound> := [
    Compound(Some("a"), [Has("href")]),
    Compound(Some("button"), [Lacks("disabled")]),
    Compound(Some("input"), [Lacks("disabled")]),
    Compound(Some("select"), [Lacks("disabled")]),
    Compound(Some("textarea"), [Lacks("disabled")]),
    Compound(None, [Has("tabindex"), NotValue("tabindex", "-1")])
  ]

  predicate TestHolds(e: Elem, test: AttrTest)
  {
    match test
    case Has(n) => Attribute(e, n).Some?
    case Lacks(n) => Attribute(e, n).None?
    case NotValue(n, v) => Attribute(e, n) != Some(v)
  }

  /** Every attribute condition of a compound holds. */
  predicate AllTestsHold(e: Elem, tests: seq<AttrTest>)
    decreases |tests|
  {
    tests == [] || (TestHolds(e, tests[0]) && AllTestsHold(e, tests[1..]))
  }

  predicate MatchesCompound(e: Elem, c: Compound)
  {
    (c.tag.None? || c.tag.value == e.tag) && AllTestsHold(e, c.tests)
  }

  /** A selector list matches an element when any one of its compounds does. */
  predicate MatchesList(e: Elem, list: seq<Compound>)
    decreases |list|
  {
    list != [] && (MatchesCompound(e, list[0]) || MatchesList(e, list[1..]))
  }

  /** An element matches the selector list exactly when it is an anchor with `href`, an
      enabled form control, or carries a `tabindex` other than "-1". */
  predicate IsFocusable(e: Elem)
    ensures IsFocusable(e) <==>
      (e.tag == "a" && e.href.Some?)
      || (e.tag in ["button", "input", "select", "textarea"] && !e.disabled)
      || (e.tabindex.Some? && e.tabindex.value != "-1")
  {
    FocusableClauses(e);
    MatchesList(e, FocusableSelectors)
  }

  /** A list matches iff one of its compounds does. */
  lemma {:induction false} MatchesListAny(e: Elem, list: seq<Compound>)
    ensures MatchesList(e, list) <==> exists i :: 0 <= i < |list| && MatchesCompound(e, list[i])
    decreases |list|
  {
    if list != [] {
      MatchesListAny(e, list[1..]);
      if MatchesList(e, list[1..]) {
        var i :| 0 <= i < |list[1..]| && MatchesCompound(e, list[1..][i]);
        assert list[i + 1] == list[1..][i];
      }
      if exists i :: 0 <= i < |list| && MatchesCompound(e, list[i]) {
        var i :| 0 <= i < |list| && MatchesCompound(e, list[i]);
        if i > 0 {
          assert list[1..][i - 1] == list[i];
        }
      }
    }
  }

  /** The selector list, clause by clause: an anchor with `href`; an enabled form control;
      any element whose `tabindex` is present and not "-1". */
  lemma FocusableClauses(e: Elem)
    ensures MatchesList(e, FocusableSelectors) <==>
      (e.tag == "a" && e.href.Some?)
      || (e.tag in ["button", "input", "select", "textarea"] && !e.disabled)
      || (e.tabindex.Some? && e.tabindex.value != "-1")
  {
    var s := FocusableSelectors;
    MatchesListAny(e, s);
    assert MatchesCompound(e, s[0]) <==> e.tag == "a" && e.href.Some?;
    assert MatchesCompound(e, s[1]) <==> e.tag == "button" && !e.disabled;
    assert MatchesCompound(e, s[2]) <==> e.tag == "input" && !e.disabled;
    assert MatchesCompound(e, s[3]) <==> e.tag == "select" && !e.disabled;
    assert MatchesCompound(e, s[4]) <==> e.tag == "textarea" && !e.disabled;
    assert s[5].tests[1..] == [NotValue("tabindex", "-1")];
    assert MatchesCompound(e, s[5]) <==> e.tabindex.Some? && e.tabindex.value != "-1";
  }

  /** The clauses are OR'd: a disabled control is still focusable through a usable
      `tabindex`, and `tabindex="-1"` does not take an enabled control out of the set. */
  lemma ClausesAreIndependent(id: nat)
    ensures IsFocusable(Elem(id, "button", None, true, Some("0")))
    ensures IsFocusable(Elem(id, "button", None, false, Some("-1")))
    ensures !IsFocusable(Elem(id, "button", None, true, Some("-1")))
    ensures !IsFocusable(Elem(id, "a", None, false, None))
  {
    FocusableClauses(Elem(id, "button", None, true, Some("0")));
    FocusableClauses(Elem(id, "button", None, false, Some("-1")));
    FocusableClauses(Elem(id, "button", None, true, Some("-1")));
    FocusableClauses(Elem(id, "a", None, false, None));
  }

  /** `querySelectorAll` over the container's descendants, listed in document order:
      the elements matching the selector list, in the order they occur. */
  function Focusable(descendants: seq<Elem>): (r: seq<Elem>)
    ensures |r| <= |descendants|
    ensures forall e :: e in r <==> e in descendants && IsFocusable(e)
  {
    if descendants == [] then []
    else if IsFocusable(descendants[0]) then [descendants[0]] + Focusable(descendants[1..])
    else Focusable(descendants[1..])
  }

  /** Document order is kept: the focusable set of a concatenation is the concatenation
      of the focusable sets. */
  lemma {:induction false} FocusableAppend(a: seq<Elem>, b: seq<Elem>)
    ensures Focusable(a + b) == Focusable(a) + Focusable(b)
  {
    if a != [] {
      assert (a + b)[1..] == a[1..] + b;
      FocusableAppend(a[1..], b);
    } else {
      assert a + b == b;
    }
  }

  /** The focusable set is a subsequence: each of its elements occupies its own position
      among the descendants, and the positions increase. */
  lemma {:induction false} FocusableIsSubsequence(descendants: seq<Elem>)
    ensures exists pos: seq<nat> :: IsEmbedding(pos, Focusable(descendants), descendants)
  {
    if descendants != [] {
      FocusableIsSubsequence(descendants[1..]);
      var pos: seq<nat> :| IsEmbedding(pos, Focusable(descendants[1..]), descendants[1..]);
      if IsFocusable(descendants[0]) {
        EmbedFirst(pos, Focusable(descendants[1..]), descendants);
      } else {
        EmbedSkipFirst(pos, Focusable(descendants[1..]), descendants);
      }
    } else {
      assert IsEmbedding([], Focusable(descendants), descendants);
    }
  }

  /** `pos` lists, in increasing order, the positions in `whole` where the elements of
      `part` come from. */
  ghost predicate IsEmbedding(pos: seq<nat>, part: seq<Elem>, whole: seq<Elem>)
  {
    |pos| == |part|
    && (forall i :: 0 <= i < |pos| ==> pos[i] < |whole| && whole[pos[i]] == part[i])
    && (forall i, j :: 0 <= i < j < |pos| ==> pos[i] < pos[j])
  }

  function Shifted(pos: seq<nat>): seq<nat>
  {
    seq(|pos|, i requires 0 <= i < |pos| => pos[i] + 1)
  }

  /** An embedding into the tail is, one position further on, an embedding into the whole. */
  lemma EmbedSkipFirst(pos: seq<nat>, part: seq<Elem>, whole: seq<Elem>)
    requires whole != [] && IsEmbedding(pos, part, whole[1..])
    ensures IsEmbedding(Shifted(pos), part, whole)
  {
  }

  /** ... and taking the first element as well extends it by position 0. */
  lemma EmbedFirst(pos: seq<nat>, part: seq<Elem>, whole: seq<Elem>)
    requires whole != [] && IsEmbedding(pos, part, whole[1..])
    ensures IsEmbedding([0] + Shifted(pos), [whole[0]] + part, whole)
  {
    EmbedSkipFirst(pos, part, whole);
  }

  /** `getFocusableElements`: nothing when the container reference is null. */
  function GetFocusableElements(container: Option<seq<Elem>>): (r: seq<Elem>)
    ensures forall e :: e in r <==> container.Some? && e in container.value && IsFocusable(e)
  {
    if container.None? then [] else Focusable(container.value)
  }

  // ---------------------------------------------------------------------------
  // The trap as a state machine
  // ---------------------------------------------------------------------------

  /** The state one trap instance and the document share: the `isActive` flag, the
      restoration target, the document's focused element, and whether the trap's keydown
      handler is registered on the document. */
  datatype TrapState = TrapState(isActive: bool, previous: Option<Elem>, focus: Option<Elem>, listening: bool)

  /** The listener is registered exactly while the trap is active, and an inactive trap
      keeps no restoration target. */
  predicate Inv(s: TrapState)
  {
    s.listening == s.isActive && (!s.isActive ==> s.previous == None)
  }

  /** `activate`: a no-op when active; otherwise record the focused element, turn on, move
      focus to the first focusable element if there is one, and register the listener. */
  function Activated(s: TrapState, focusables: seq<Elem>): (r: TrapState)
    ensures r.isActive
    ensures r.focus == s.focus || (focusables != [] && r.focus == Some(focusables[0]))
    ensures Inv(s) ==> Inv(r)
  {
    if s.isActive then s
    else
      var focus := if |focusables| > 0 then Some(focusables[0]) else s.focus;
      TrapState(true, s.focus, focus, true)
  }

  /** `deactivate`: a no-op when inactive; otherwise turn off, remove the listener, and
      when a restoration target is recorded, focus it and forget it. */
  function Deactivated(s: TrapState): (r: TrapState)
    ensures !r.isActive
    ensures r.focus == s.focus || r.focus == s.previous
    ensures Inv(s) ==> Inv(r) && !r.listening && r.previous == None
  {
    if !s.isActive then s
    else
      var off := s.(isActive := false, listening := false);
      if s.previous.Some? then off.(focus := s.previous, previous := None) else off
  }

  /** What one keydown does: the new state and whether `preventDefault` was called. */
  datatype KeyOutcome = KeyOutcome(state: TrapState, prevented: bool)

  /** `document.activeElement === e`: the focused node is `e`, compared by identity. The
      attributes recorded in the two values may differ, since they may have changed since
      focus was taken. */
  predicate IsFocused(focus: Option<Elem>, e: Elem)
  {
    focus.Some? && focus.value.id == e.id
  }

  /** The element a Tab or Shift+Tab wraps to, None when the press passes through. */
  function WrapTarget(focusables: seq<Elem>, focus: Option<Elem>, shift: bool): Option<Elem>
    requires focusables != []
  {
    var first, last := focusables[0], focusables[|focusables| - 1];
    if shift then (if IsFocused(focus, first) then Some(last) else None)
    else (if IsFocused(focus, last) then Some(first) else None)
  }

  /** `handleKeyDown`, given the focusable set recomputed at the time of the press. Only a
      wrapping press changes anything, and it only moves focus, onto a focusable element. */
  function KeyDown(s: TrapState, ev: KeyEvent, focusables: seq<Elem>): (r: KeyOutcome)
    ensures !r.prevented ==> r.state == s
    ensures r.prevented ==> r.state == s.(focus := r.state.focus)
    ensures r.prevented ==> r.state.focus.Some? && r.state.focus.value in focusables
  {
    if !s.isActive || ev.key != "Tab" || focusables == [] then KeyOutcome(s, false)
    else
      match WrapTarget(focusables, s.focus, ev.shiftKey)
      case Some(target) => KeyOutcome(s.(focus := Some(target)), true)
      case None => KeyOutcome(s, false)
  }

  /** Everything that can happen to a trap: the owner activates or deactivates it, a key
      is pressed while the container holds `focusables`, focus moves by other means
      (a click, native Tab traversal), or the owning component is torn down. */
  datatype TrapEvent =
    | Activate(focusables: seq<Elem>)
    | Deactivate
    | Key(ev: KeyEvent, focusables: seq<Elem>)
    | FocusMoved(to: Option<Elem>)
    | Teardown

  /** Every event keeps the invariant. */
  function Step(s: TrapState, e: TrapEvent): (r: TrapState)
    ensures Inv(s) ==> Inv(r)
  {
    match e
    case Activate(fs) => Activated(s, fs)
    case Deactivate => Deactivated(s)
    case Key(ev, fs) => if s.listening then KeyDown(s, ev, fs).state else s
    case FocusMoved(to) => s.(focus := to)
    case Teardown => Deactivated(s)
  }

  /** The invariant holds after any sequence of events. */
  function Run(s: TrapState, events: seq<TrapEvent>): (r: TrapState)
    ensures Inv(s) ==> Inv(r)
    decreases |events|
  {
    if events == [] then s else Run(Step(s, events[0]), events[1..])
  }

  // ---------------------------------------------------------------------------
  // Properties of the state machine
  // ---------------------------------------------------------------------------

  /** Activating an active trap changes nothing; so activating twice is activating once. */
  lemma ActivateIdempotent(s: TrapState, fs: seq<Elem>, fs': seq<Elem>)
    ensures s.isActive ==> Activated(s, fs) == s
    ensures Activated(Activated(s, fs), fs') == Activated(s, fs)
  {
  }

  /** Activating an inactive trap turns it on, records the focus it found, focuses the
      first focusable element (or leaves focus alone when there is none), and registers
      the listener. */
  lemma ActivateFromInactive(s: TrapState, fs: seq<Elem>)
    requires !s.isActive
    ensures Activated(s, fs).isActive && Activated(s, fs).listening
    ensures Activated(s, fs).previous == s.focus
    ensures fs != [] ==> Activated(s, fs).focus == Some(fs[0])
    ensures fs == [] ==> Activated(s, fs).focus == s.focus
  {
  }

  /** Deactivating an inactive trap changes nothing. */
  lemma DeactivateWhenInactive(s: TrapState)
    requires !s.isActive
    ensures Deactivated(s) == s
  {
  }

  /** Activate then deactivate: the trap is off, the listener is gone, the restoration
      target is cleared, and focus is back where it was if anything was focused. */
  lemma ActivateThenDeactivate(s: TrapState, fs: seq<Elem>)
    requires Inv(s) && !s.isActive
    ensures var t := Deactivated(Activated(s, fs));
      !t.isActive && !t.listening && t.previous == None
      && (s.focus.Some? ==> t.focus == s.focus)
      && (s.focus.None? ==> t.focus == Activated(s, fs).focus)
  {
  }

  /** Events that leave an active trap's session alone: anything but deactivation and
      teardown. */
  predicate InSession(events: seq<TrapEvent>)
  {
    forall i :: 0 <= i < |events| ==> !events[i].Deactivate? && !events[i].Teardown?
  }

  /** While a session lasts, the trap stays active and keeps its restoration target,
      whatever keys are pressed and wherever focus goes; a second activation is ignored. */
  lemma {:induction false} SessionKeepsTarget(s: TrapState, events: seq<TrapEvent>)
    requires Inv(s) && s.isActive && InSession(events)
    ensures Run(s, events).isActive && Run(s, events).listening
    ensures Run(s, events).previous == s.previous
    decreases |events|
  {
    if events != [] {
      SessionKeepsTarget(Step(s, events[0]), events[1..]);
    }
  }

  /** Running `events` and then `more` is running their concatenation. */
  lemma {:induction false} RunAppend(s: TrapState, events: seq<TrapEvent>, more: seq<TrapEvent>)
    ensures Run(s, events + more) == Run(Run(s, events), more)
    decreases |events|
  {
    if events != [] {
      assert (events + more)[1..] == events[1..] + more;
      RunAppend(Step(s, events[0]), events[1..], more);
    } else {
      assert events + more == more;
    }
  }

  /** Symmetric teardown: however a session goes, ending it (by deactivation or by
      teardown) gives focus back to exactly the element focused when it began. */
  lemma RestoreAfterSession(s: TrapState, fs: seq<Elem>, events: seq<TrapEvent>, last: TrapEvent, e: Elem)
    requires Inv(s) && !s.isActive && s.focus == Some(e)
    requires InSession(events) && (last.Deactivate? || last.Teardown?)
    ensures var t := Run(s, [Activate(fs)] + events + [last]);
      t.focus == Some(e) && !t.isActive && !t.listening && t.previous == None
  {
    var a := Activated(s, fs);
    SessionKeepsTarget(a, events);
    RunAppend(s, [Activate(fs)] + events, [last]);
    RunAppend(s, [Activate(fs)], events);
  }

  /** Teardown always leaves the trap off with no listener, and a keydown after it is
      never intercepted. */
  lemma TeardownReleases(s: TrapState, ev: KeyEvent, fs: seq<Elem>)
    requires Inv(s)
    ensures !Step(s, Teardown).isActive && !Step(s, Teardown).listening
    ensures Step(Step(s, Teardown), Key(ev, fs)) == Step(s, Teardown)
    ensures KeyDown(Step(s, Teardown), ev, fs) == KeyOutcome(Step(s, Teardown), false)
  {
  }

  /** `useFocusTrap` hands its `isActive` ref to the caller, who can write it directly and
      so bypass `activate` and `deactivate`. */
  function IsActiveWritten(s: TrapState, value: bool): TrapState
  {
    s.(isActive := value)
  }

  /** Such a write breaks the invariant: after `isActive.value = false` on an active trap
      the keydown listener stays registered, and teardown, whose `deactivate` then returns
      early, leaves it registered for good. */
  lemma WritableIsActiveLeaks(e: Elem, fs: seq<Elem>)
    ensures var on := Activated(TrapState(false, None, Some(e), false), fs);
      var written := IsActiveWritten(on, false);
      Inv(on) && !Inv(written) && Step(written, Teardown).listening
  {
  }

  /** The handler does nothing when the trap is off, the key is not Tab, or the container
      has no focusable element (in particular when the container reference is null). */
  lemma KeyDownIgnored(s: TrapState, ev: KeyEvent, container: Option<seq<Elem>>)
    requires !s.isActive || ev.key != "Tab" || GetFocusableElements(container) == []
    ensures KeyDown(s, ev, GetFocusableElements(container)) == KeyOutcome(s, false)
    ensures container.None? ==> GetFocusableElements(container) == []
  {
  }

  /** Tab on the last focusable element wraps forward to the first; the focused node is
      recognised by identity, whatever its attributes were when it took focus. */
  lemma WrapForward(s: TrapState, fs: seq<Elem>)
    requires s.isActive && fs != [] && IsFocused(s.focus, fs[|fs| - 1])
    ensures KeyDown(s, KeyEvent("Tab", false), fs) == KeyOutcome(s.(focus := Some(fs[0])), true)
  {
  }

  /** Shift+Tab on the first focusable element wraps backward to the last. */
  lemma WrapBackward(s: TrapState, fs: seq<Elem>)
    requires s.isActive && fs != [] && IsFocused(s.focus, fs[0])
    ensures KeyDown(s, KeyEvent("Tab", true), fs) == KeyOutcome(s.(focus := Some(fs[|fs| - 1])), true)
  {
  }

  /** Every other Tab or Shift+Tab passes through: no `preventDefault`, focus untouched.
      Together with the two wrap lemmas this is an if-and-only-if for interception. */
  lemma KeyDownInterceptsIff(s: TrapState, ev: KeyEvent, fs: seq<Elem>)
    ensures KeyDown(s, ev, fs).prevented <==>
      s.isActive && ev.key == "Tab" && fs != []
      && (if ev.shiftKey then IsFocused(s.focus, fs[0]) else IsFocused(s.focus, fs[|fs| - 1]))
  {
  }

  /** Wrapping forward and then backward returns focus to where it started. */
  lemma WrapRoundTrip(s: TrapState, fs: seq<Elem>)
    requires s.isActive && fs != [] && s.focus == Some(fs[|fs| - 1])
    ensures KeyDown(KeyDown(s, KeyEvent("Tab", false), fs).state, KeyEvent("Tab", true), fs).state == s
  {
  }

  /** With a single focusable element both Tab and Shift+Tab keep focus on it. */
  lemma SingleElementHoldsFocus(s: TrapState, x: Elem, shift: bool)
    requires s.isActive && s.focus == Some(x)
    ensures KeyDown(s, KeyEvent("Tab", shift), [x]) == KeyOutcome(s, true)
  {
  }

  /** Three focusable elements A, B, C: Shift+Tab on A goes to C, Tab on C goes to A, and
      Tab on B is left to the browser. */
  lemma ThreeElements(s: TrapState, a: Elem, b: Elem, c: Elem)
    requires s.isActive && a.id != b.id && b.id != c.id
    ensures KeyDown(s.(focus := Some(a)), KeyEvent("Tab", true), [a, b, c]).state.focus == Some(c)
    ensures KeyDown(s.(focus := Some(c)), KeyEvent("Tab", false), [a, b, c]).state.focus == Some(a)
    ensures !KeyDown(s.(focus := Some(b)), KeyEvent("Tab", false), [a, b, c]).prevented
  {
  }

  // ---------------------------------------------------------------------------
  // The composable as an object
  // ---------------------------------------------------------------------------

  /** One `useFocusTrap(containerRef)` instance together with the document state it
      touches. `container` is `containerRef.value`: the container's descendants in
      document order, None while the reference is null; the host may reassign it. */
  class Trap {
    var container: Option<seq<Elem>>
    var isActive: bool
    var previousActiveElement: Option<Elem>
    /** `document.activeElement`. */
    var activeElement: Option<Elem>
    /** Whether `handleKeyDown` is registered for `keydown` on the document. */
    var listening: bool

    function State(): TrapState
      reads this
    {
      TrapState(isActive, previousActiveElement, activeElement, listening)
    }

    ghost predicate Valid()
      reads this
    {
      Inv(State())
    }

    constructor (container: Option<seq<Elem>>, focus: Option<Elem>)
      ensures Valid()
      ensures this.container == container && State() == TrapState(false, None, focus, false)
    {
      this.container := container;
      isActive := false;
      previousActiveElement := None;
      activeElement := focus;
      listening := false;
    }

    /** The focusable set as `getFocusableElements` computes it right now. */
    function FocusableElements(): (r: seq<Elem>)
      reads this
      ensures forall e :: e in r <==> container.Some? && e in container.value && IsFocusable(e)
    {
      GetFocusableElements(container)
    }

    method Activate()
      requires Valid()
      modifies this
      ensures Valid() && container == old(container)
      ensures State() == Activated(old(State()), old(FocusableElements()))
    {
      if isActive {
        return;
      }
      previousActiveElement := activeElement;
      isActive := true;
      var focusables := FocusableElements();
      if |focusables| > 0 {
        activeElement := Some(focusables[0]);
      }
      listening := true;
    }

    method Deactivate()
      requires Valid()
      modifies this
      ensures Valid() && container == old(container)
      ensures State() == Deactivated(old(State()))
    {
      if !isActive {
        return;
      }
      isActive := false;
      listening := false;
      if previousActiveElement.Some? {
        activeElement := previousActiveElement;
        previousActiveElement := None;
      }
    }

    /** `handleKeyDown`; returns whether it called `preventDefault`. */
    method HandleKeyDown(ev: KeyEvent) returns (prevented: bool)
      requires Valid()
      modifies this
      ensures Valid() && container == old(container)
      ensures KeyOutcome(State(), prevented) == KeyDown(old(State()), ev, old(FocusableElements()))
    {
      prevented := false;
      if !isActive || ev.key != "Tab" {
        return;
      }
      var focusables := FocusableElements();
      if |focusables| == 0 {
        return;
      }
      var first, last := focusables[0], focusables[|focusables| - 1];
      if ev.shiftKey {
        if IsFocused(activeElement, first) {
          prevented := true;
          activeElement := Some(last);
        }
      } else {
        if IsFocused(activeElement, last) {
          prevented := true;
          activeElement := Some(first);
        }
      }
    }

    /** The owning component's `onBeforeUnmount` hook. */
    method Unmount()
      requires Valid()
      modifies this
      ensures Valid() && container == old(container)
      ensures State() == Deactivated(old(State()))
      ensures !isActive && !listening
    {
      Deactivate();
    }
  }
}
