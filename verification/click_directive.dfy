/** What the `clickOutside` and `clickAway` directives share. On
    `beforeMount` each stores a fresh handler on the element (under its own
    property name) and registers it for "click" on the document; on
    `unmounted` it removes the handler stored on the element. The handler
    calls the bound function only for clicks whose target is neither the
    element nor inside it. */
module ClickDirective {
  import opened Dom
  import opened EventTarget

  /** Identifies the function bound as the directive's value. */
  type CallbackId = nat

  /** The element property a directive keeps its handler in. */
  datatype Slot = ClickOutsideEvent | ClickAwayEvent

  /** A handler made by `beforeMount`: a new function object (`id`) that
      closes over the element and the bound function. */
  datatype Handler = Handler(id: nat, el: Node, callback: CallbackId)

  /** The document's listeners, the handler stored on each element under
      each property name, and how many handlers were made so far. */
  datatype Registry = Registry(
    listeners: seq<Listener<Handler>>,
    slots: map<(Slot, Node), Handler>,
    nextId: nat)

  /** The only event type the directives register for. */
  const ClickEvent := "click"

  /** Every handler in the registry was made before the next one will be. */
  predicate Fresh(r: Registry) {
    && (forall l :: l in r.listeners ==> l.callback.id < r.nextId)
    && (forall k :: k in r.slots ==> r.slots[k].id < r.nextId)
  }

  /** `beforeMount`: a new handler is stored on the element and added to the
      document's "click" listeners. */
  function BeforeMount(r: Registry, slot: Slot, el: Node, cb: CallbackId): (r': Registry)
    ensures (slot, el) in r'.slots && r'.slots[(slot, el)] == Handler(r.nextId, el, cb)
    ensures Fresh(r) ==> r'.listeners == r.listeners + [Listener(ClickEvent, Handler(r.nextId, el, cb))]
    ensures Fresh(r) ==> Fresh(r')
    ensures r'.nextId == r.nextId + 1
    ensures forall k :: k in r'.slots ==> k == (slot, el) || k in r.slots
    ensures forall k :: k in r.slots && k != (slot, el) ==> k in r'.slots && r'.slots[k] == r.slots[k]
  {
    var h := Handler(r.nextId, el, cb);
    assert Fresh(r) ==> Listener(ClickEvent, h) !in r.listeners;
    Registry(AddEventListener(r.listeners, ClickEvent, h), r.slots[(slot, el) := h], r.nextId + 1)
  }

  /** `unmounted`: the handler stored on the element is removed from the
      document's "click" listeners; with no stored handler nothing changes. */
  function Unmounted(r: Registry, slot: Slot, el: Node): (r': Registry)
    ensures (slot, el) in r.slots ==>
      forall l :: l in r'.listeners <==> l in r.listeners && l != Listener(ClickEvent, r.slots[(slot, el)])
    ensures (slot, el) !in r.slots ==> r' == r
    ensures Fresh(r) ==> Fresh(r')
    ensures r'.slots == r.slots && r'.nextId == r.nextId
  {
    if (slot, el) in r.slots then
      r.(listeners := RemoveEventListener(r.listeners, ClickEvent, r.slots[(slot, el)]))
    else
      r
  }

  /** The handler body: the bound function is called once when the target is
      outside the element and its descendants, and not at all otherwise. */
  function Handle(d: Document, h: Handler, target: Node): (calls: seq<CallbackId>)
    ensures |calls| <= 1
    ensures calls == [] <==> IsInclusiveAncestor(d, h.el, target)
    ensures calls != [] ==> calls == [h.callback]
  {
    ContainsIsInclusiveAncestor(d, h.el, target);
    if !(h.el == target || Contains(d, h.el, target)) then [h.callback] else []
  }

  /** The bound functions called when the given handlers run, in order. */
  function HandleAll(d: Document, hs: seq<Handler>, target: Node): (calls: seq<CallbackId>)
    ensures |calls| <= |hs|
    ensures calls == [] <==> forall i :: 0 <= i < |hs| ==> IsInclusiveAncestor(d, hs[i].el, target)
    ensures forall c :: c in calls <==>
      exists i :: 0 <= i < |hs| && hs[i].callback == c && !IsInclusiveAncestor(d, hs[i].el, target)
  {
    if hs == [] then []
    else
      var rest := HandleAll(d, hs[1..], target);
      assert forall i :: 1 <= i < |hs| ==> hs[i] == hs[1..][i - 1];
      Handle(d, hs[0], target) + rest
  }

  lemma {:induction false} HandleAllAppend(d: Document, hs: seq<Handler>, more: seq<Handler>, target: Node)
    ensures HandleAll(d, hs + more, target) == HandleAll(d, hs, target) + HandleAll(d, more, target)
    decreases |hs|
  {
    if hs == [] {
      assert hs + more == more;
    } else {
      assert (hs + more)[0] == hs[0];
      assert (hs + more)[1..] == hs[1..] + more;
      HandleAllAppend(d, hs[1..], more, target);
    }
  }

  /** Around any one handler, the calls are those of the handlers before it,
      then that handler's own decision (at most one call, of its own
      function), then those of the handlers after it. */
  lemma HandleAllAtHandler(d: Document, hs: seq<Handler>, i: nat, target: Node)
    requires i < |hs|
    ensures HandleAll(d, hs, target)
         == HandleAll(d, hs[..i], target) + Handle(d, hs[i], target) + HandleAll(d, hs[i + 1..], target)
  {
    assert hs == hs[..i] + ([hs[i]] + hs[i + 1..]);
    HandleAllAppend(d, hs[..i], [hs[i]] + hs[i + 1..], target);
    HandleAllAppend(d, [hs[i]], hs[i + 1..], target);
    assert HandleAll(d, [hs[i]], target) == Handle(d, hs[i], target) by {
      assert [hs[i]][1..] == [];
    }
  }

  /** The bound functions called when an event of type `kind` reaches the
      document. */
  function OnEvent(d: Document, r: Registry, kind: string, target: Node): (calls: seq<CallbackId>)
    ensures calls == [] <==> forall h :: Listener(kind, h) in r.listeners ==> IsInclusiveAncestor(d, h.el, target)
  {
    var hs := Dispatch(r.listeners, kind);
    assert forall h :: h in hs <==> Listener(kind, h) in r.listeners;
    HandleAll(d, hs, target)
  }

  /** After `beforeMount`, a click runs the handlers that were there before
      and then the new one, which calls its function exactly once when the
      target is outside the element and never when it is the element or a
      descendant. */
  lemma ClickAfterMount(d: Document, r: Registry, slot: Slot, el: Node, cb: CallbackId, target: Node)
    requires Fresh(r)
    ensures OnEvent(d, BeforeMount(r, slot, el, cb), ClickEvent, target)
         == OnEvent(d, r, ClickEvent, target) + (if IsInclusiveAncestor(d, el, target) then [] else [cb])
  {
    var h := Handler(r.nextId, el, cb);
    DispatchAppend(r.listeners, [Listener(ClickEvent, h)], ClickEvent);
    assert Dispatch([Listener(ClickEvent, h)], ClickEvent) == [h];
    HandleAllAppend(d, Dispatch(r.listeners, ClickEvent), [h], target);
    assert HandleAll(d, [h], target) == Handle(d, h, target) by {
      assert [h][1..] == [];
    }
  }

  /** The directive only listens for "click": events of any other type reach
      exactly the handlers they reached before `beforeMount`. */
  lemma OnlyClicksObserved(d: Document, r: Registry, slot: Slot, el: Node, cb: CallbackId, kind: string, target: Node)
    requires Fresh(r) && kind != ClickEvent
    ensures OnEvent(d, BeforeMount(r, slot, el, cb), kind, target) == OnEvent(d, r, kind, target)
  {
    var h := Handler(r.nextId, el, cb);
    DispatchAppend(r.listeners, [Listener(ClickEvent, h)], kind);
    assert Dispatch([Listener(ClickEvent, h)], kind) == [];
    assert Dispatch(r.listeners, kind) + [] == Dispatch(r.listeners, kind);
  }

  /** `unmounted` removes exactly the listener `beforeMount` added, so the
      document's listeners are as they were before the directive mounted. */
  lemma MountUnmountBalanced(r: Registry, slot: Slot, el: Node, cb: CallbackId)
    requires Fresh(r)
    ensures Unmounted(BeforeMount(r, slot, el, cb), slot, el).listeners == r.listeners
  {
    var h := Handler(r.nextId, el, cb);
    assert Listener(ClickEvent, h) !in r.listeners;
    AddThenRemove(r.listeners, ClickEvent, h);
  }

  /** A lifecycle hook of one directive on one element: `beforeMount` with
      the bound function, or `unmounted`. */
  datatype Hook = Mount(slot: Slot, el: Node, cb: CallbackId) | Unmount(slot: Slot, el: Node)

  function Apply(r: Registry, hook: Hook): Registry {
    match hook
    case Mount(slot, el, cb) => BeforeMount(r, slot, el, cb)
    case Unmount(slot, el) => Unmounted(r, slot, el)
  }

  /** The hooks run one after another, in order. */
  function Run(r: Registry, hooks: seq<Hook>): Registry
    decreases |hooks|
  {
    if hooks == [] then r else Run(Apply(r, hooks[0]), hooks[1..])
  }

  /** `r` is `without` with the handler `h` stored under `key` on top: every
      other element keeps the same handlers, and the document's listeners
      are the same once `h`'s listener is taken out. */
  ghost predicate MountedOver(r: Registry, without: Registry, key: (Slot, Node), h: Handler) {
    && Fresh(r) && Fresh(without)
    && r.nextId == without.nextId
    && key in r.slots && r.slots[key] == h
    && (forall k :: k != key ==> (k in r.slots <==> k in without.slots))
    && (forall k :: k != key && k in r.slots && k in without.slots ==> r.slots[k] == without.slots[k])
    && RemoveEventListener(r.listeners, ClickEvent, h) == without.listeners
  }

  /** A hook on any other element, or of the other directive, keeps a
      mounted handler on top of the same registry without it. */
  lemma ApplyKeepsMountedOver(r: Registry, without: Registry, key: (Slot, Node), h: Handler, hook: Hook)
    requires MountedOver(r, without, key, h) && (hook.slot, hook.el) != key
    ensures MountedOver(Apply(r, hook), Apply(without, hook), key, h)
  {
    match hook
    case Mount(slot, el, cb) =>
      var added := Listener(ClickEvent, Handler(r.nextId, el, cb));
      assert added != Listener(ClickEvent, h);
      RemoveFromAppend(r.listeners, [added], ClickEvent, h);
    case Unmount(slot, el) =>
      if (slot, el) in r.slots {
        RemoveCommutes(r.listeners, ClickEvent, h, r.slots[(slot, el)]);
      }
  }

  lemma {:induction false} RunKeepsMountedOver(r: Registry, without: Registry, key: (Slot, Node), h: Handler, hooks: seq<Hook>)
    requires MountedOver(r, without, key, h)
    requires forall i :: 0 <= i < |hooks| ==> (hooks[i].slot, hooks[i].el) != key
    ensures MountedOver(Run(r, hooks), Run(without, hooks), key, h)
    decreases |hooks|
  {
    if hooks != [] {
      ApplyKeepsMountedOver(r, without, key, h, hooks[0]);
      RunKeepsMountedOver(Apply(r, hooks[0]), Apply(without, hooks[0]), key, h, hooks[1..]);
    }
  }

  /** Mount on `el`, run any hooks of other elements or of the other
      directive, then unmount `el`: the document's listeners are those the
      same hooks leave on a page where `el` never mounted (apart from the
      identity its handler used up). */
  lemma {:induction false} BalancedAcrossOtherHooks(r: Registry, slot: Slot, el: Node, cb: CallbackId, hooks: seq<Hook>)
    requires Fresh(r)
    requires forall i :: 0 <= i < |hooks| ==> (hooks[i].slot, hooks[i].el) != (slot, el)
    ensures Unmounted(Run(BeforeMount(r, slot, el, cb), hooks), slot, el).listeners
         == Run(r.(nextId := r.nextId + 1), hooks).listeners
  {
    var h := Handler(r.nextId, el, cb);
    MountUnmountBalanced(r, slot, el, cb);
    assert MountedOver(BeforeMount(r, slot, el, cb), r.(nextId := r.nextId + 1), (slot, el), h);
    RunKeepsMountedOver(BeforeMount(r, slot, el, cb), r.(nextId := r.nextId + 1), (slot, el), h, hooks);
  }
}
