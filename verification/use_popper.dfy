/** The `usePopper` composable: the open/closed flag, the lifecycle events it
    emits, and the engine instance its watcher (re)creates.

    Vue's `watch` on `[isOpen, placement]` followed by `await nextTick()` is
    the explicit `Settle` step: it compares the watched values with those it
    saw last, and only when one of them changed does the callback run. */
module UsePopper {
  import opened Wrappers
  import opened Popper

  /** The lifecycle events passed to `emit`: `OpenPopper` stands for
      `emit("open:popper")` and `ClosePopper` for `emit("close:popper")`. */
  datatype Event = OpenPopper | ClosePopper

  /** The values of `[isOpen, placement]` the watcher saw when it last ran. */
  datatype Watched = Watched(isOpen: bool, placement: Placement)

  /** `instance` is the options of the engine instance `popperInstance`
      refers to; `engine` is every call made on the engine so far. */
  datatype State = State(
    isOpen: bool,
    instance: Option<Options>,
    events: seq<Event>,
    engine: seq<EngineCall>,
    watched: Watched)

  /** The k-th event of any run: opens at even positions, closes at odd ones. */
  function NthEvent(k: nat): Event {
    if k % 2 == 0 then OpenPopper else ClosePopper
  }

  /** What holds of every state reachable from the initial one. */
  ghost predicate Valid(s: State) {
    && (forall i :: 0 <= i < |s.events| ==> s.events[i] == NthEvent(i))
    && (s.isOpen <==> |s.events| % 2 == 1)
    && CreateThenUpdate(s.engine)
    && (s.instance.None? <==> s.engine == [])
    && (s.instance.Some? ==> s.engine[|s.engine| - 2] == Create(s.instance.value))
  }

  /** The state right after setup, with the placement prop's initial value. */
  function Init(placement: Placement): (s: State)
    ensures !s.isOpen && s.instance == None
    ensures s.events == [] && s.engine == []
    ensures Valid(s)
  {
    State(false, None, [], [], Watched(false, placement))
  }

  /** `close`: from open, clears the flag and emits one "close:popper";
      from closed, does nothing at all. */
  function Close(s: State): (r: State)
    ensures !r.isOpen
    ensures s.isOpen ==> r.events == s.events + [ClosePopper]
    ensures !s.isOpen ==> r == s
    ensures r.instance == s.instance && r.engine == s.engine && r.watched == s.watched
  {
    if !s.isOpen then s
    else s.(isOpen := false, events := s.events + [ClosePopper])
  }

  /** `open`: from closed, sets the flag and emits one "open:popper";
      from open, does nothing at all. */
  function Open(s: State): (r: State)
    ensures r.isOpen
    ensures !s.isOpen ==> r.events == s.events + [OpenPopper]
    ensures s.isOpen ==> r == s
    ensures r.instance == s.instance && r.engine == s.engine && r.watched == s.watched
  {
    if s.isOpen then s
    else s.(isOpen := true, events := s.events + [OpenPopper])
  }

  /** `toggle`: always flips the flag and emits exactly one event, the one
      that names the new state. */
  function Toggle(s: State): (r: State)
    ensures r.isOpen == !s.isOpen
    ensures r.events == s.events + [if r.isOpen then OpenPopper else ClosePopper]
    ensures r.instance == s.instance && r.engine == s.engine && r.watched == s.watched
  {
    if s.isOpen then Close(s) else Open(s)
  }

  /** Whether the watcher sees a new value of `isOpen` or of `placement`. */
  predicate WatchedChanged(s: State, props: Props) {
    s.watched != Watched(s.isOpen, props.placement)
  }

  /** The watcher and `initializePopper`, once the host has settled: when a
      watched value changed and the overlay is open, a new instance is
      created with the current props and updated once. The previous
      instance is not destroyed. */
  function Settle(s: State, props: Props): (r: State)
    ensures r.isOpen == s.isOpen && r.events == s.events
    ensures r.watched == Watched(s.isOpen, props.placement)
    ensures !WatchedChanged(s, props) ==> r == s
    ensures |r.engine| > |s.engine| <==> WatchedChanged(s, props) && s.isOpen
    ensures WatchedChanged(s, props) && s.isOpen ==>
      && r.instance == Some(InitialOptions(props))
      && r.instance.value.placement == props.placement
      && r.engine == Initialize(s.engine, InitialOptions(props))
    ensures !(WatchedChanged(s, props) && s.isOpen) ==> r.instance == s.instance && r.engine == s.engine
  {
    if !WatchedChanged(s, props) then s
    else if s.isOpen then
      var o := InitialOptions(props);
      s.(instance := Some(o), engine := Initialize(s.engine, o), watched := Watched(true, props.placement))
    else
      s.(watched := Watched(false, props.placement))
  }

  /** `onBeforeUnmount`: the engine log once the component is gone. The
      instance is destroyed when there is one, and `destroy` is never called
      on a missing instance. */
  function Unmount(s: State): (log: seq<EngineCall>)
    ensures s.instance.Some? ==> log == s.engine + [Destroy]
    ensures s.instance.None? ==> log == s.engine
  {
    if s.instance.Some? then s.engine + [Destroy] else s.engine
  }

  /** The calls the component can receive between mount and unmount. */
  datatype Step = OpenStep | CloseStep | ToggleStep | SettleStep(props: Props)

  function Apply(s: State, step: Step): State {
    match step
    case OpenStep => Open(s)
    case CloseStep => Close(s)
    case ToggleStep => Toggle(s)
    case SettleStep(props) => Settle(s, props)
  }

  function Run(s: State, steps: seq<Step>): State
    decreases |steps|
  {
    if steps == [] then s else Run(Apply(s, steps[0]), steps[1..])
  }

  lemma ApplyKeepsValid(s: State, step: Step)
    requires Valid(s)
    ensures Valid(Apply(s, step))
  {
    match step
    case SettleStep(props) =>
      if WatchedChanged(s, props) && s.isOpen {
        InitializeCounts(s.engine, InitialOptions(props));
      }
    case _ =>
  }

  lemma {:induction false} RunKeepsValid(s: State, steps: seq<Step>)
    requires Valid(s)
    ensures Valid(Run(s, steps))
    decreases |steps|
  {
    if steps != [] {
      ApplyKeepsValid(s, steps[0]);
      RunKeepsValid(Apply(s, steps[0]), steps[1..]);
    }
  }

  /** Whatever the calls, the emitted events start with "open:popper",
      strictly alternate, and the last one agrees with `isOpen`. */
  lemma EventsAlternate(placement: Placement, steps: seq<Step>)
    ensures var r := Run(Init(placement), steps);
      && (|r.events| > 0 ==> r.events[0] == OpenPopper)
      && (forall i :: 0 <= i < |r.events| - 1 ==> r.events[i] != r.events[i + 1])
      && (r.isOpen <==> |r.events| > 0 && r.events[|r.events| - 1] == OpenPopper)
  {
    RunKeepsValid(Init(placement), steps);
    var r := Run(Init(placement), steps);
    forall i | 0 <= i < |r.events| - 1
      ensures r.events[i] != r.events[i + 1]
    {
      assert r.events[i] == NthEvent(i) && r.events[i + 1] == NthEvent(i + 1);
    }
    if |r.events| > 0 {
      assert r.events[|r.events| - 1] == NthEvent(|r.events| - 1);
    }
  }

  /** Every engine instance is created with the props current at its
      creation, and `update` runs once right after each creation. */
  lemma EngineCallsPaired(placement: Placement, steps: seq<Step>)
    ensures var r := Run(Init(placement), steps);
      && |r.engine| % 2 == 0
      && (forall i :: 0 <= i < |r.engine| ==> (r.engine[i].Create? <==> i % 2 == 0))
      && (forall i :: 0 <= i < |r.engine| ==> (r.engine[i] == Update <==> i % 2 == 1))
      && (r.instance.Some? ==> |r.engine| >= 2 && r.engine[|r.engine| - 2] == Create(r.instance.value))
  {
    RunKeepsValid(Init(placement), steps);
  }

  /** Unmount destroys at most once, and exactly once when an instance was
      ever created. */
  lemma UnmountDestroysAtMostOnce(placement: Placement, steps: seq<Step>)
    ensures var r := Run(Init(placement), steps);
      && CountDestroys(Unmount(r)) == (if CountCreates(r.engine) > 0 then 1 else 0)
  {
    var r := Run(Init(placement), steps);
    RunKeepsValid(Init(placement), steps);
    NoDestroyBeforeUnmount(r.engine);
    if r.instance.Some? {
      CountsOfAppend(r.engine, [Destroy]);
      assert r.engine[|r.engine| - 2].Create?;
      CreateCounted(r.engine, |r.engine| - 2);
    } else {
      assert CountCreates(r.engine) == 0;
    }
  }

  lemma {:induction false} NoDestroyBeforeUnmount(log: seq<EngineCall>)
    requires forall i :: 0 <= i < |log| ==> !log[i].Destroy?
    ensures CountDestroys(log) == 0
    decreases |log|
  {
    if log != [] {
      NoDestroyBeforeUnmount(log[1..]);
    }
  }

  lemma {:induction false} CreateCounted(log: seq<EngineCall>, k: nat)
    requires k < |log| && log[k].Create?
    ensures CountCreates(log) > 0
    decreases k
  {
    if k > 0 {
      CreateCounted(log[1..], k - 1);
    }
  }

  /** Open, settle, then move the placement while open: two instances are
      created and unmount destroys only the last one. Re-initialization
      replaces `popperInstance` without destroying the previous instance. */
  lemma ReinitializationKeepsPreviousInstance(placement: Placement, first: Props, second: Props)
    requires first.placement == placement && second.placement != placement
    ensures var r := Settle(Settle(Open(Init(placement)), first), second);
      && CountCreates(r.engine) == 2
      && CountDestroys(Unmount(r)) == 1
  {
    var s2 := Settle(Open(Init(placement)), first);
    var s3 := Settle(s2, second);
    InitializeCounts([], InitialOptions(first));
    InitializeCounts(s2.engine, InitialOptions(second));
    assert CountCreates([]) == 0 && CountDestroys([]) == 0;
    CountsOfAppend(s3.engine, [Destroy]);
  }

  /** Calling `open` again once the overlay is open and positioned emits
      nothing and triggers no new initialization. */
  lemma OpenWhenOpenDoesNotReinitialize(s: State, props: Props)
    requires s.isOpen && !WatchedChanged(s, props)
    ensures Settle(Open(s), props) == s
  {
  }

  /** Open, settle, close, settle: one event of each kind, one instance
      created (with the current props) and updated, nothing created by the
      close. */
  lemma OpenThenCloseCycle(placement: Placement, props: Props)
    requires props.placement == placement
    ensures var r := Settle(Close(Settle(Open(Init(placement)), props)), props);
      && !r.isOpen
      && r.events == [OpenPopper, ClosePopper]
      && r.engine == [Create(InitialOptions(props)), Update]
      && r.instance == Some(InitialOptions(props))
  {
  }

  /** Closing an open overlay and letting the watcher run emits one
      "close:popper" and makes no engine call. */
  lemma ClosedThenSettled(s: State, props: Props)
    requires s.isOpen
    ensures var r := Settle(Close(s), props);
      && !r.isOpen && r.events == s.events + [ClosePopper] && r.engine == s.engine
  {
  }
}
