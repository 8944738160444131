/** The older variant of the composable (`userPopper.js`): `show`, `hide`
    and `toggle` only move the flag and emit nothing, there is no unmount
    hook, and the watcher looks at `isOpen` alone, so a placement change
    never re-creates the engine instance. */
module UserPopper {
  import opened Wrappers
  import opened Popper
  import UsePopper

  /** `watchedOpen` is the value of `isOpen` the watcher saw last. */
  datatype State = State(
    isOpen: bool,
    instance: Option<Options>,
    engine: seq<EngineCall>,
    watchedOpen: bool)

  function Init(): (s: State)
    ensures !s.isOpen && s.instance == None && s.engine == []
  {
    State(false, None, [], false)
  }

  /** `hide`: clears the flag whatever it was. */
  function Hide(s: State): (r: State)
    ensures !r.isOpen
    ensures !s.isOpen ==> r == s
    ensures r.instance == s.instance && r.engine == s.engine && r.watchedOpen == s.watchedOpen
  {
    s.(isOpen := false)
  }

  /** `show`: sets the flag when it is clear, and does nothing otherwise. */
  function Show(s: State): (r: State)
    ensures r.isOpen
    ensures s.isOpen ==> r == s
    ensures r.instance == s.instance && r.engine == s.engine && r.watchedOpen == s.watchedOpen
  {
    if s.isOpen then s else s.(isOpen := true)
  }

  /** `toggle`: hides when open and shows when closed. */
  function Toggle(s: State): (r: State)
    ensures r.isOpen == !s.isOpen
    ensures r.instance == s.instance && r.engine == s.engine && r.watchedOpen == s.watchedOpen
  {
    if s.isOpen then Hide(s) else Show(s)
  }

  /** Hiding twice is hiding once. */
  lemma HideIdempotent(s: State)
    ensures Hide(Hide(s)) == Hide(s)
  {
  }

  /** The watcher on `isOpen` and `initializePopper`, once the host has
      settled: only a change of `isOpen` that lands on true creates an
      instance; placement and the other props never trigger anything. */
  function Settle(s: State, props: Props): (r: State)
    ensures r.isOpen == s.isOpen && r.watchedOpen == s.isOpen
    ensures s.isOpen == s.watchedOpen ==> r == s
    ensures |r.engine| > |s.engine| <==> s.isOpen && !s.watchedOpen
    ensures s.isOpen && !s.watchedOpen ==>
      && r.instance == Some(InitialOptions(props))
      && r.instance.value.placement == props.placement
      && r.engine == Initialize(s.engine, InitialOptions(props))
    ensures !(s.isOpen && !s.watchedOpen) ==> r.instance == s.instance && r.engine == s.engine
  {
    if s.isOpen == s.watchedOpen then s
    else if s.isOpen then
      var o := InitialOptions(props);
      s.(instance := Some(o), engine := Initialize(s.engine, o), watchedOpen := true)
    else
      s.(watchedOpen := false)
  }

  /** The calls the older composable can receive. */
  datatype Step = ShowStep | HideStep | ToggleStep | SettleStep(props: Props)

  function Apply(s: State, step: Step): State {
    match step
    case ShowStep => Show(s)
    case HideStep => Hide(s)
    case ToggleStep => Toggle(s)
    case SettleStep(props) => Settle(s, props)
  }

  function Run(s: State, steps: seq<Step>): State
    decreases |steps|
  {
    if steps == [] then s else Run(Apply(s, steps[0]), steps[1..])
  }

  /** The older call that corresponds to a call on the newer composable. */
  function Counterpart(step: UsePopper.Step): Step {
    match step
    case OpenStep => ShowStep
    case CloseStep => HideStep
    case ToggleStep => ToggleStep
    case SettleStep(props) => SettleStep(props)
  }

  function Counterparts(steps: seq<UsePopper.Step>): (r: seq<Step>)
    ensures |r| == |steps|
    ensures forall i :: 0 <= i < |steps| ==> r[i] == Counterpart(steps[i])
  {
    seq(|steps|, i requires 0 <= i < |steps| => Counterpart(steps[i]))
  }

  /** The two variants agree on visibility: `show`/`hide`/`toggle` move the
      flag exactly as `open`/`close`/`toggle` do. */
  lemma {:induction false} SameVisibility(s: UsePopper.State, t: State, steps: seq<UsePopper.Step>)
    requires s.isOpen == t.isOpen
    ensures UsePopper.Run(s, steps).isOpen == Run(t, Counterparts(steps)).isOpen
    decreases |steps|
  {
    if steps != [] {
      var cs := Counterparts(steps);
      assert cs[0] == Counterpart(steps[0]);
      assert cs[1..] == Counterparts(steps[1..]);
      SameVisibility(UsePopper.Apply(s, steps[0]), Apply(t, cs[0]), steps[1..]);
    }
  }

  /** How a newer-variant state and an older-variant state correspond while
      the placement stays fixed. */
  ghost predicate Corresponds(s: UsePopper.State, t: State, placement: Placement) {
    && s.isOpen == t.isOpen
    && s.instance == t.instance
    && s.engine == t.engine
    && s.watched == UsePopper.Watched(t.watchedOpen, placement)
  }

  /** While the placement never changes, both variants make exactly the same
      engine calls: the newer variant's extra trigger is the placement. */
  lemma {:induction false} SameEngineCallsForFixedPlacement(
    s: UsePopper.State, t: State, placement: Placement, steps: seq<UsePopper.Step>)
    requires Corresponds(s, t, placement)
    requires forall i :: 0 <= i < |steps| && steps[i].SettleStep? ==> steps[i].props.placement == placement
    ensures UsePopper.Run(s, steps).engine == Run(t, Counterparts(steps)).engine
    ensures UsePopper.Run(s, steps).instance == Run(t, Counterparts(steps)).instance
    decreases |steps|
  {
    if steps != [] {
      var cs := Counterparts(steps);
      assert cs[0] == Counterpart(steps[0]);
      assert cs[1..] == Counterparts(steps[1..]);
      SameEngineCallsForFixedPlacement(UsePopper.Apply(s, steps[0]), Apply(t, cs[0]), placement, steps[1..]);
    }
  }

  /** The initial states of the two variants correspond. */
  lemma InitialStatesCorrespond(placement: Placement)
    ensures Corresponds(UsePopper.Init(placement), Init(), placement)
  {
  }

  /** Moving the placement while open re-creates the instance in the newer
      variant and changes nothing in the older one, once both have settled
      on the open state. */
  lemma PlacementChangeOnlyReinitializesNewer(s: UsePopper.State, t: State, placement: Placement, props: Props)
    requires Corresponds(s, t, placement) && s.isOpen && t.watchedOpen && props.placement != placement
    ensures UsePopper.Settle(s, props).engine == Initialize(s.engine, InitialOptions(props))
    ensures Settle(t, props) == t
  {
  }
}
