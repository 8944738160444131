/** What the composables hand to the positioning engine (Popper.js): the
    placement, the modifier list, and the calls made on the engine. The
    engine's geometry is not modelled; an instance is the options it was
    created with. */
module Popper {
  import opened JsNumber

  /** The side of the reference element a placement names (`auto` lets the
      engine choose it). */
  datatype Side = Auto | Top | Bottom | Right | Left

  /** The optional `-start` / `-end` variation of a placement. */
  datatype Alignment = Centered | Start | End

  /** One of the fifteen placement values the component's type declarations
      allow: every side with every alignment. */
  datatype Placement = Placement(side: Side, alignment: Alignment)

  /** The reactive inputs the composables read when they build the options. */
  datatype Props = Props(placement: Placement, arrowPadding: string, offsetX: string, offsetY: string)

  /** The modifiers the composables import from the engine. */
  datatype ModifierName = PreventOverflow | Flip | Arrow | Offset

  /** An entry of the `modifiers` array: an imported modifier object, or a
      `{ name, options }` record that configures the modifier of that name. */
  datatype Modifier =
    | Builtin(name: ModifierName)
    | ArrowOptions(padding: Number)
    | OffsetOptions(skid: Number, distance: Number)
  {
    function Name(): ModifierName {
      match this
      case Builtin(n) => n
      case ArrowOptions(_) => Arrow
      case OffsetOptions(_, _) => Offset
    }
  }

  /** The options object passed to `createPopper`. */
  datatype Options = Options(placement: Placement, modifiers: seq<Modifier>)

  function Names(ms: seq<Modifier>): (ns: seq<ModifierName>)
    ensures |ns| == |ms|
    ensures forall i :: 0 <= i < |ms| ==> ns[i] == ms[i].Name()
  {
    seq(|ms|, i requires 0 <= i < |ms| => ms[i].Name())
  }

  /** Every options record comes after the imported modifier it configures. */
  predicate OptionsFollowTheirModifier(ms: seq<Modifier>) {
    forall i :: 0 <= i < |ms| && !ms[i].Builtin? ==> Builtin(ms[i].Name()) in ms[..i]
  }

  /** The modifier list of `initializePopper`, given the parsed arrow
      padding and the parsed skid and distance of the offset. */
  function Modifiers(padding: Number, skid: Number, distance: Number): (ms: seq<Modifier>)
    ensures Names(ms) == [PreventOverflow, Flip, Arrow, Arrow, Offset, Offset]
    ensures ms[3] == ArrowOptions(padding)
    ensures ms[5] == OffsetOptions(skid, distance)
    ensures OptionsFollowTheirModifier(ms)
  {
    var ms := [
      Builtin(PreventOverflow),
      Builtin(Flip),
      Builtin(Arrow),
      ArrowOptions(padding),
      Builtin(Offset),
      OffsetOptions(skid, distance)
    ];
    assert ms[..3][2] == Builtin(ms[3].Name());
    assert ms[..5][4] == Builtin(ms[5].Name());
    ms
  }

  /** The options `initializePopper` builds from the current props: every
      numeric prop goes through `toInt`. */
  function InitialOptions(props: Props): (o: Options)
    ensures o.placement == props.placement
    ensures o.modifiers == Modifiers(ToInt(props.arrowPadding), ToInt(props.offsetX), ToInt(props.offsetY))
  {
    Options(props.placement, Modifiers(ToInt(props.arrowPadding), ToInt(props.offsetX), ToInt(props.offsetY)))
  }

  /** A padding prop holding a decimal integer, possibly followed by a unit
      such as "px", reaches the engine's arrow options as that number. */
  lemma InitialOptionsReadPadding(props: Props, p: int, unit: string)
    requires props.arrowPadding == FormatInt(p) + unit
    requires unit == [] || !IsDigit(unit[0])
    ensures InitialOptions(props).modifiers[3] == ArrowOptions(Int(p))
  {
    ToIntWithUnit(p, unit);
  }

  /** Likewise the horizontal offset prop becomes the offset's skid, whatever
      the other props hold. */
  lemma InitialOptionsReadSkid(props: Props, x: int, unit: string)
    requires props.offsetX == FormatInt(x) + unit
    requires unit == [] || !IsDigit(unit[0])
    ensures InitialOptions(props).modifiers[5].skid == Int(x)
  {
    ToIntWithUnit(x, unit);
  }

  /** Likewise the vertical offset prop becomes the offset's distance. */
  lemma InitialOptionsReadDistance(props: Props, y: int, unit: string)
    requires props.offsetY == FormatInt(y) + unit
    requires unit == [] || !IsDigit(unit[0])
    ensures InitialOptions(props).modifiers[5].distance == Int(y)
  {
    ToIntWithUnit(y, unit);
  }

  /** A call the composables make on the engine. */
  datatype EngineCall = Create(options: Options) | Update | Destroy

  /** The engine log after `initializePopper`: `createPopper` with the
      options, then one `update()` on the new instance. */
  function Initialize(log: seq<EngineCall>, o: Options): (r: seq<EngineCall>)
    ensures |r| == |log| + 2 && r[..|log|] == log
    ensures r[|log|] == Create(o) && r[|log| + 1] == Update
  {
    log + [Create(o), Update]
  }

  /** The log is a run of creations, each followed at once by one update. */
  ghost predicate CreateThenUpdate(log: seq<EngineCall>) {
    && |log| % 2 == 0
    && forall i :: 0 <= i < |log| ==> (log[i].Create? <==> i % 2 == 0) && (log[i].Update? <==> i % 2 == 1)
  }

  function CountCreates(log: seq<EngineCall>): (n: nat)
    ensures n <= |log|
  {
    if log == [] then 0 else (if log[0].Create? then 1 else 0) + CountCreates(log[1..])
  }

  function CountDestroys(log: seq<EngineCall>): (n: nat)
    ensures n <= |log|
  {
    if log == [] then 0 else (if log[0].Destroy? then 1 else 0) + CountDestroys(log[1..])
  }

  lemma {:induction false} CountsOfAppend(a: seq<EngineCall>, b: seq<EngineCall>)
    ensures CountCreates(a + b) == CountCreates(a) + CountCreates(b)
    ensures CountDestroys(a + b) == CountDestroys(a) + CountDestroys(b)
    decreases |a|
  {
    if a != [] {
      assert (a + b)[1..] == a[1..] + b;
      CountsOfAppend(a[1..], b);
    } else {
      assert a + b == b;
    }
  }

  /** Each initialization adds exactly one creation and no destruction. */
  lemma InitializeCounts(log: seq<EngineCall>, o: Options)
    ensures CountCreates(Initialize(log, o)) == CountCreates(log) + 1
    ensures CountDestroys(Initialize(log, o)) == CountDestroys(log)
    ensures CreateThenUpdate(log) ==> CreateThenUpdate(Initialize(log, o))
  {
    var tail := [Create(o), Update];
    CountsOfAppend(log, tail);
    assert tail[1..] == [Update];
    assert tail[1..][1..] == [];
  }
}
