/** The `useClickAway` composable: when a window exists it registers one
    "pointerdown" listener on it (and where `window` is not declared at all,
    its guard throws). For each event the listener reads the
    target ref afresh; if the ref is empty, or the event's target is the
    element or has it on its composed path, nothing happens; otherwise the
    handler is called once with the event. */
module UseClickAway {
  import opened Wrappers
  import opened Dom
  import ClickDirective

  /** Identifies a ref the caller passes as `target`. */
  type RefId = nat

  /** Identifies the function the caller passes as `handler`. */
  type HandlerId = nat

  datatype PointerEvent = PointerEvent(kind: string, target: Node)

  /** A call of the caller's handler with the event it received. */
  datatype Call = Call(handler: HandlerId, event: PointerEvent)

  /** The listener closure: the ref it reads and the handler it calls. */
  datatype ClickAwayListener = ClickAwayListener(target: RefId, handler: HandlerId)

  /** What `useEventListener(window, event, listener)` is asked to register. */
  datatype Registration = Registration(kind: string, listener: ClickAwayListener)

  /** The only event type the composable listens for. */
  const PointerDown := "pointerdown"

  /** How the global `window` binding looks where the composable runs: not
      declared at all (server-side rendering under Node, a web worker),
      declared but falsy, or a real window. */
  datatype Global = Undeclared | Falsy | Present

  /** What a call of the composable does: it returns (the registration, or
      `undefined`), or it throws. */
  datatype Outcome = Returned(registration: Option<Registration>) | Threw(error: string)

  const ReferenceError := "ReferenceError"

  /** `useClickAway(target, handler)` as written. The guard `!window` reads
      the global binding, so where `window` is not declared at all it throws
      a `ReferenceError` instead of returning; a declared but falsy `window`
      returns `undefined` and registers nothing; a real window gets one
      "pointerdown" listener for this ref and handler. */
  function UseClickAway(window: Global, target: RefId, handler: HandlerId): (r: Outcome)
    ensures r.Threw? <==> window.Undeclared?
    ensures r.Threw? ==> r.error == ReferenceError
    ensures r == Returned(None) <==> window.Falsy?
    ensures window.Present? ==> r == Returned(Some(Registration(PointerDown, ClickAwayListener(target, handler))))
  {
    match window
    case Undeclared => Threw(ReferenceError)
    case Falsy => Returned(None)
    case Present => Returned(Some(Registration(PointerDown, ClickAwayListener(target, handler))))
  }

  /** The composable with the guard it evidently means,
      `typeof window === "undefined" || !window`: wherever there is no real
      window it returns without registering anything. */
  function UseClickAwayGuarded(window: Global, target: RefId, handler: HandlerId): (r: Option<Registration>)
    ensures r.None? <==> !window.Present?
    ensures r.Some? ==> r.value == Registration(PointerDown, ClickAwayListener(target, handler))
  {
    if window.Present? then Some(Registration(PointerDown, ClickAwayListener(target, handler))) else None
  }

  /** Where `window` is not declared the composable as written throws,
      while the guarded one returns without registering. */
  lemma UndeclaredWindowThrows(target: RefId, handler: HandlerId)
    ensures UseClickAway(Undeclared, target, handler) == Threw(ReferenceError)
    ensures UseClickAwayGuarded(Undeclared, target, handler) == None
  {
  }

  /** Wherever `window` is declared, the guarded composable does exactly
      what the code as written does. */
  lemma GuardedAgreesWhereDeclared(window: Global, target: RefId, handler: HandlerId)
    requires !window.Undeclared?
    ensures UseClickAway(window, target, handler) == Returned(UseClickAwayGuarded(window, target, handler))
  {
  }

  /** The listener body. `refs` holds the element each ref points to when the
      event arrives; a ref missing from it is empty (`null`). */
  function Listen(d: Document, refs: map<RefId, Node>, l: ClickAwayListener, ev: PointerEvent): (calls: seq<Call>)
    ensures l.target !in refs ==> calls == []
    ensures l.target in refs ==> (calls == [] <==> IsInclusiveAncestor(d, refs[l.target], ev.target))
    ensures |calls| <= 1 && (calls != [] ==> calls == [Call(l.handler, ev)])
  {
    if l.target !in refs then []
    else
      var el := refs[l.target];
      ComposedPathIsContainers(d, el, ev.target);
      ContainsIsInclusiveAncestor(d, el, ev.target);
      if el == ev.target || el in ComposedPath(d, ev.target) then []
      else [Call(l.handler, ev)]
  }

  /** An event reaching the window: the registered listener runs only for
      events of the type it was registered for. */
  function Deliver(d: Document, refs: map<RefId, Node>, reg: Option<Registration>, ev: PointerEvent): (calls: seq<Call>)
    ensures reg.None? ==> calls == []
    ensures reg.Some? && reg.value.kind != ev.kind ==> calls == []
    ensures reg.Some? && reg.value.kind == ev.kind ==> calls == Listen(d, refs, reg.value.listener, ev)
  {
    if reg.Some? && reg.value.kind == ev.kind then Listen(d, refs, reg.value.listener, ev) else []
  }

  /** Only pointer-down events reach the handler, and without a real window
      no event does. */
  lemma OnlyPointerDownObserved(d: Document, refs: map<RefId, Node>, window: Global, target: RefId, handler: HandlerId, ev: PointerEvent)
    requires ev.kind != PointerDown || !window.Present?
    ensures Deliver(d, refs, UseClickAwayGuarded(window, target, handler), ev) == []
  {
  }

  /** A pointer-down anywhere outside the element the ref holds calls the
      handler exactly once, with that event; one on the element or inside it
      calls nothing. */
  lemma PointerDownDecision(d: Document, refs: map<RefId, Node>, target: RefId, handler: HandlerId, ev: PointerEvent)
    requires ev.kind == PointerDown && target in refs
    ensures var calls := Deliver(d, refs, UseClickAwayGuarded(Present, target, handler), ev);
      && (ev.target == refs[target] ==> calls == [])
      && (Contains(d, refs[target], ev.target) ==> calls == [])
      && (!Contains(d, refs[target], ev.target) ==> calls == [Call(handler, ev)])
  {
    ContainsIsInclusiveAncestor(d, refs[target], ev.target);
  }

  /** The composable and the two directives decide alike: for a non-empty
      ref, the handler runs exactly when the directive handler on the same
      element would call its function. */
  lemma SameDecisionAsDirectives(d: Document, refs: map<RefId, Node>, l: ClickAwayListener, ev: PointerEvent, id: nat, cb: ClickDirective.CallbackId)
    requires l.target in refs
    ensures (Listen(d, refs, l, ev) == []) == (ClickDirective.Handle(d, ClickDirective.Handler(id, refs[l.target], cb), ev.target) == [])
  {
  }

  /** The decision reads the ref when the event arrives: the same event is
      ignored while the ref holds an ancestor of its target and handled once
      the ref holds an element elsewhere in the tree. */
  lemma DecisionFollowsCurrentRef(d: Document, l: ClickAwayListener, ev: PointerEvent, inside: Node, outside: Node)
    requires Contains(d, inside, ev.target) && !Contains(d, outside, ev.target)
    ensures Listen(d, map[l.target := inside], l, ev) == []
    ensures Listen(d, map[l.target := outside], l, ev) == [Call(l.handler, ev)]
  {
    ContainsIsInclusiveAncestor(d, inside, ev.target);
    ContainsIsInclusiveAncestor(d, outside, ev.target);
  }
}
