/** The `clickAway` directive (src/directives/click-away.js).
    It keeps its handler in the element's `clickAwayEvent` property; the
    rest is the shared shape of `ClickDirective`. */
module ClickAway {
  import opened Dom
  import D = ClickDirective

  /** A click on the element itself, or on anything inside it, calls nothing
      new; a click anywhere else calls the bound function exactly once, after
      the handlers registered earlier. */
  lemma ClickDecision(d: Document, r: D.Registry, el: Node, cb: D.CallbackId, target: Node)
    requires D.Fresh(r)
    ensures var before := D.OnEvent(d, r, D.ClickEvent, target);
      var after := D.OnEvent(d, D.BeforeMount(r, D.ClickAwayEvent, el, cb), D.ClickEvent, target);
      && (target == el ==> after == before)
      && (Contains(d, el, target) ==> after == before)
      && (!Contains(d, el, target) ==> after == before + [cb])
  {
    D.ClickAfterMount(d, r, D.ClickAwayEvent, el, cb, target);
    ContainsIsInclusiveAncestor(d, el, target);
    assert D.OnEvent(d, r, D.ClickEvent, target) + [] == D.OnEvent(d, r, D.ClickEvent, target);
  }

  /** Only "click" events reach the handler. */
  lemma OnlyClicksObserved(d: Document, r: D.Registry, el: Node, cb: D.CallbackId, kind: string, target: Node)
    requires D.Fresh(r) && kind != D.ClickEvent
    ensures D.OnEvent(d, D.BeforeMount(r, D.ClickAwayEvent, el, cb), kind, target) == D.OnEvent(d, r, kind, target)
  {
    D.OnlyClicksObserved(d, r, D.ClickAwayEvent, el, cb, kind, target);
  }

  /** The listener `unmounted` removes is the one `beforeMount` added, even
      when other elements, or the other directive, mount and unmount in
      between: the document ends with the listeners those other hooks leave
      on their own, and directly after the mount with the listeners it had
      before. */
  lemma {:induction false} MountUnmountBalanced(r: D.Registry, el: Node, cb: D.CallbackId, hooks: seq<D.Hook>)
    requires D.Fresh(r)
    requires forall i :: 0 <= i < |hooks| ==> (hooks[i].slot, hooks[i].el) != (D.ClickAwayEvent, el)
    ensures D.Unmounted(D.Run(D.BeforeMount(r, D.ClickAwayEvent, el, cb), hooks), D.ClickAwayEvent, el).listeners
         == D.Run(r.(nextId := r.nextId + 1), hooks).listeners
    ensures hooks == [] ==> D.Unmounted(D.BeforeMount(r, D.ClickAwayEvent, el, cb), D.ClickAwayEvent, el).listeners == r.listeners
  {
    D.BalancedAcrossOtherHooks(r, D.ClickAwayEvent, el, cb, hooks);
    D.MountUnmountBalanced(r, D.ClickAwayEvent, el, cb);
  }
}
