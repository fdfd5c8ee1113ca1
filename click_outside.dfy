/** `useClickOutside(elementRef, callback)`: calls `callback(event)` for every click whose
    target lies outside the bound element, while the owning component is mounted. */
module ClickOutside {
  import opened Dom

  /** The observable state of one instance: whether `handleClick` is registered on the
      document (in the capture phase), the element the reference currently holds, and the
      events the callback has been given, in order. */
  datatype ClickState = ClickState(listening: bool, element: Option<Node>, fired: seq<ClickEvent>)

  /** `handleClick`: nothing while the reference is null; otherwise the callback receives
      the event unless the target is the element itself or one of its descendants. */
  function ClickHandled(s: ClickState, t: Tree, ev: ClickEvent): (r: ClickState)
    ensures r.listening == s.listening && r.element == s.element
    ensures r.fired == s.fired || r.fired == s.fired + [ev]
    ensures s.element.None? ==> r == s
  {
    if s.element.None? then s
    else if !Contains(t, s.element.value, ev.target) then s.(fired := s.fired + [ev])
    else s
  }

  /** Mounting registers the capture-phase listener and unmounting removes the same
      registration; the host binds or clears the reference; a click arrives at the
      document while the tree is `t`. A capture-phase listener on the document runs
      before any handler inside the page, so no inner `stopPropagation` can hide a click
      from it; a click therefore reaches the handler exactly when it is registered. */
  datatype ClickOp = Mount | Unmount | Bind(element: Option<Node>) | Click(ev: ClickEvent, t: Tree)

  function Step(s: ClickState, op: ClickOp): (r: ClickState)
    ensures r.fired == s.fired || (op.Click? && s.listening && r.fired == s.fired + [op.ev])
    ensures !op.Mount? && !op.Unmount? ==> r.listening == s.listening
    ensures !op.Bind? ==> r.element == s.element
  {
    match op
    case Mount => s.(listening := true)
    case Unmount => s.(listening := false)
    case Bind(e) => s.(element := e)
    case Click(ev, t) => if s.listening then ClickHandled(s, t, ev) else s
  }

  function Run(s: ClickState, ops: seq<ClickOp>): ClickState
    decreases |ops|
  {
    if ops == [] then s else Run(Step(s, ops[0]), ops[1..])
  }

  /** With a null reference a click does nothing: no callback, no failure. */
  lemma NullReferenceIgnored(s: ClickState, t: Tree, ev: ClickEvent)
    requires s.element.None?
    ensures ClickHandled(s, t, ev) == s
  {
  }

  /** The callback runs exactly when the reference is bound and the target is outside the
      element, and it then receives that very event, once. */
  lemma FiresIffOutside(s: ClickState, t: Tree, ev: ClickEvent)
    ensures ClickHandled(s, t, ev).fired == s.fired + [ev] <==>
      s.element.Some? && !Contains(t, s.element.value, ev.target)
    ensures ClickHandled(s, t, ev).fired == s.fired || ClickHandled(s, t, ev).fired == s.fired + [ev]
    ensures ClickHandled(s, t, ev).listening == s.listening && ClickHandled(s, t, ev).element == s.element
  {
    assert |s.fired + [ev]| != |s.fired|;
  }

  /** A bound element E with a child C and a sibling S (another child of E's parent): a
      click on C or anywhere inside it does not call back, a click on S or anywhere
      inside it does, exactly once and with that event. */
  lemma ChildAndSibling(s: ClickState, t: Tree, e: Node, c: Node, sib: Node, inC: ClickEvent, inS: ClickEvent)
    requires ValidTree(t) && s.element == Some(e)
    requires c in t && t[c] == e
    requires e in t && sib in t && t[sib] == t[e] && sib != e
    requires Contains(t, c, inC.target) && Contains(t, sib, inS.target)
    ensures ClickHandled(s, t, inC) == s
    ensures ClickHandled(s, t, inS) == s.(fired := s.fired + [inS])
  {
    ContainsChild(t, e, c, inC.target);
    SiblingNotContained(t, e, sib, inS.target);
  }

  predicate NoMount(ops: seq<ClickOp>)
  {
    forall i :: 0 <= i < |ops| ==> !ops[i].Mount?
  }

  /** Before mount and after unmount no click reaches the callback. */
  lemma {:induction false} SilentWhileUnregistered(s: ClickState, ops: seq<ClickOp>)
    requires !s.listening && NoMount(ops)
    ensures Run(s, ops).fired == s.fired && !Run(s, ops).listening
    decreases |ops|
  {
    if ops != [] {
      SilentWhileUnregistered(Step(s, ops[0]), ops[1..]);
    }
  }

  /** The click events of a run, in order. */
  function Clicks(ops: seq<ClickOp>): seq<ClickEvent>
    decreases |ops|
  {
    if ops == [] then []
    else (if ops[0].Click? then [ops[0].ev] else []) + Clicks(ops[1..])
  }

  /** Over any run the callback's history only grows, by at most one event per operation,
      and every event it received is one of the clicks of the run. */
  lemma {:induction false} FiredAreClicks(s: ClickState, ops: seq<ClickOp>)
    ensures |s.fired| <= |Run(s, ops).fired| <= |s.fired| + |ops|
    ensures Run(s, ops).fired[..|s.fired|] == s.fired
    ensures forall k :: |s.fired| <= k < |Run(s, ops).fired| ==> Run(s, ops).fired[k] in Clicks(ops)
    decreases |ops|
  {
    if ops != [] {
      var s1 := Step(s, ops[0]);
      var r := Run(s1, ops[1..]);
      assert Run(s, ops) == r;
      FiredAreClicks(s1, ops[1..]);
      assert s1.fired == s.fired || (ops[0].Click? && s1.fired == s.fired + [ops[0].ev]);
      assert r.fired[..|s1.fired|] == s1.fired;
      forall k | |s.fired| <= k < |r.fired|
        ensures r.fired[k] in Clicks(ops)
      {
        if k < |s1.fired| {
          assert r.fired[k] == s1.fired[k] == ops[0].ev;
        }
      }
    }
  }

  /** One `useClickOutside` instance. `element` is `elementRef.value`, which the host
      binds after mount and clears after unmount. */
  class ClickOutsideListener {
    var listening: bool
    var element: Option<Node>
    /** The events passed to the callback so far. */
    var fired: seq<ClickEvent>

    function State(): ClickState
      reads this
    {
      ClickState(listening, element, fired)
    }

    constructor (element: Option<Node>)
      ensures State() == ClickState(false, element, [])
    {
      listening := false;
      this.element := element;
      fired := [];
    }

    /** The `onMounted` hook: `document.addEventListener('click', handleClick, true)`. */
    method Mount()
      modifies this
      ensures State() == Step(old(State()), ClickOp.Mount)
    {
      listening := true;
    }

    /** The `onBeforeUnmount` hook: `document.removeEventListener('click', handleClick, true)`,
        which names the same capture flag and so removes the registration. */
    method Unmount()
      modifies this
      ensures State() == Step(old(State()), ClickOp.Unmount)
      ensures !listening
    {
      listening := false;
    }

    /** `handleClick` itself, on a click while the document tree is `t`. */
    method HandleClick(ev: ClickEvent, t: Tree)
      modifies this
      ensures State() == ClickHandled(old(State()), t, ev)
    {
      if element.None? {
        return;
      }
      if !Contains(t, element.value, ev.target) {
        fired := fired + [ev];
      }
    }

    /** The document dispatching a click: it reaches the handler only if registered. */
    method DispatchClick(ev: ClickEvent, t: Tree)
      modifies this
      ensures State() == Step(old(State()), Click(ev, t))
    {
      if listening {
        HandleClick(ev, t);
      }
    }
  }
}
