/** `useEscapeKey(callback, enabled)`: calls `callback` on every Escape keydown for which
    `enabled()` holds at that moment, while the owning component is mounted. */
module EscapeKey {
  import opened Dom

  /** The observable state of one instance. `custom` says whether the caller passed an
      `enabled` predicate (otherwise it is the default `() => true`); `listening` whether
      `handleKeyDown` is registered on the document; `calls` counts callback invocations
      and `evaluations` counts calls of `enabled`. */
  datatype EscState = EscState(custom: bool, listening: bool, calls: nat, evaluations: nat)

  /** What `enabled()` returns when the predicate, asked now, would answer `answer`: the
      answer itself for a caller's predicate, always true for the default. */
  function EnabledNow(custom: bool, answer: bool): bool
  {
    if custom then answer else true
  }

  /** `handleKeyDown`: `enabled()` is evaluated only for Escape (the `&&` short-circuits),
      and the callback runs once when it returns true. */
  function KeyDownHandled(s: EscState, ev: KeyEvent, answer: bool): (r: EscState)
    ensures r.custom == s.custom && r.listening == s.listening
    ensures ev.key != "Escape" ==> r == s
    ensures r.calls == s.calls + 1 <==> ev.key == "Escape" && (answer || !s.custom)
    ensures r.calls != s.calls + 1 ==> r.calls == s.calls
    ensures r.calls - s.calls <= r.evaluations - s.evaluations
  {
    if ev.key == "Escape" then
      var asked := s.(evaluations := s.evaluations + 1);
      if EnabledNow(s.custom, answer) then asked.(calls := s.calls + 1) else asked
    else s
  }

  /** Mounting registers the listener, unmounting removes it, and the document delivers a
      keydown to the handler only while it is registered. `answer` is what a caller's
      predicate would return at the moment of that press. */
  datatype EscEvent = Mount | Unmount | Key(ev: KeyEvent, answer: bool)

  function Step(s: EscState, e: EscEvent): (r: EscState)
    ensures r.custom == s.custom
    ensures e.Key? && !s.listening ==> r == s
    ensures s.calls <= r.calls <= s.calls + 1
    ensures r.calls - s.calls <= r.evaluations - s.evaluations
  {
    match e
    case Mount => s.(listening := true)
    case Unmount => s.(listening := false)
    case Key(ev, answer) => if s.listening then KeyDownHandled(s, ev, answer) else s
  }

  function Run(s: EscState, events: seq<EscEvent>): EscState
    decreases |events|
  {
    if events == [] then s else Run(Step(s, events[0]), events[1..])
  }

  /** One press fires the callback exactly once when the listener is registered, the key
      is Escape and `enabled()` holds; otherwise the callback count is unchanged. */
  lemma FiresIff(s: EscState, ev: KeyEvent, answer: bool)
    ensures Step(s, Key(ev, answer)).calls ==
      if s.listening && ev.key == "Escape" && EnabledNow(s.custom, answer) then s.calls + 1 else s.calls
  {
  }

  /** A key other than Escape changes nothing at all: the callback does not run and
      `enabled` is not even evaluated. */
  lemma OtherKeysIgnored(s: EscState, ev: KeyEvent, answer: bool)
    requires ev.key != "Escape"
    ensures Step(s, Key(ev, answer)) == s
  {
  }

  /** `enabled` is read afresh on every press: after a press it refused, flipping it to
      true makes the very next Escape fire, with no re-registration in between. */
  lemma GateReadAfresh(s: EscState)
    requires s.listening && s.custom
    ensures Run(s, [Key(KeyEvent("Escape", false), false)]).calls == s.calls
    ensures Run(s, [Key(KeyEvent("Escape", false), false), Key(KeyEvent("Escape", false), true)]).calls == s.calls + 1
  {
  }

  predicate NoMount(events: seq<EscEvent>)
  {
    forall i :: 0 <= i < |events| ==> !events[i].Mount?
  }

  /** Before mount and after unmount no press reaches the callback, however many keys are
      pressed. */
  lemma {:induction false} SilentWhileUnregistered(s: EscState, events: seq<EscEvent>)
    requires !s.listening && NoMount(events)
    ensures Run(s, events).calls == s.calls && !Run(s, events).listening
    decreases |events|
  {
    if events != [] {
      SilentWhileUnregistered(Step(s, events[0]), events[1..]);
    }
  }

  predicate AllEscape(events: seq<EscEvent>)
  {
    forall i :: 0 <= i < |events| ==> events[i].Key? && events[i].ev.key == "Escape"
  }

  /** With the default predicate every Escape press while mounted fires the callback, so
      `n` presses fire it `n` times, whatever anyone's predicate would answer. */
  lemma {:induction false} DefaultFiresOnEveryEscape(s: EscState, events: seq<EscEvent>)
    requires s.listening && !s.custom && AllEscape(events)
    ensures Run(s, events).calls == s.calls + |events|
    decreases |events|
  {
    if events != [] {
      DefaultFiresOnEveryEscape(Step(s, events[0]), events[1..]);
    }
  }

  /** Over any run the callback never fires more often than `enabled` was asked: every
      invocation follows an evaluation that returned true. */
  lemma {:induction false} CallsFollowEvaluations(s: EscState, events: seq<EscEvent>)
    ensures s.calls <= Run(s, events).calls && s.evaluations <= Run(s, events).evaluations
    ensures Run(s, events).calls - s.calls <= Run(s, events).evaluations - s.evaluations
    ensures Run(s, events).custom == s.custom
    decreases |events|
  {
    if events != [] {
      CallsFollowEvaluations(Step(s, events[0]), events[1..]);
    }
  }

  /** One `useEscapeKey` instance. `custom` records whether an `enabled` predicate was
      passed; the predicate's answer is supplied with each press. */
  class EscapeKeyListener {
    const custom: bool
    var listening: bool
    var calls: nat
    var evaluations: nat

    function State(): EscState
      reads this
    {
      EscState(custom, listening, calls, evaluations)
    }

    constructor (custom: bool)
      ensures State() == EscState(custom, false, 0, 0)
    {
      this.custom := custom;
      listening := false;
      calls := 0;
      evaluations := 0;
    }

    /** The `onMounted` hook: `document.addEventListener('keydown', handleKeyDown)`. */
    method Mount()
      modifies this
      ensures State() == Step(old(State()), EscEvent.Mount)
    {
      listening := true;
    }

    /** The `onBeforeUnmount` hook: `document.removeEventListener('keydown', handleKeyDown)`. */
    method Unmount()
      modifies this
      ensures State() == Step(old(State()), EscEvent.Unmount)
      ensures !listening
    {
      listening := false;
    }

    /** `handleKeyDown` itself; `answer` is what a caller's predicate returns now. */
    method HandleKeyDown(ev: KeyEvent, answer: bool)
      modifies this
      ensures State() == KeyDownHandled(old(State()), ev, answer)
    {
      if ev.key == "Escape" {
        evaluations := evaluations + 1;
        var enabled := if custom then answer else true;
        if enabled {
          calls := calls + 1;
        }
      }
    }

    /** The document dispatching a keydown: it reaches the handler only if registered. */
    method DispatchKeyDown(ev: KeyEvent, answer: bool)
      modifies this
      ensures State() == Step(old(State()), Key(ev, answer))
    {
      if listening {
        HandleKeyDown(ev, answer);
      }
    }
  }
}
