/** The listener list of an event target, as `addEventListener` and
    `removeEventListener` keep it: a listener is an event type with a
    callback, registering one that is already there changes nothing, and
    removing one takes it out wherever it is. */
module EventTarget {

  datatype Listener<Callback> = Listener(kind: string, callback: Callback)

  function AddEventListener<Callback(==,!new)>(ls: seq<Listener<Callback>>, kind: string, cb: Callback)
    : (r: seq<Listener<Callback>>)
    ensures Listener(kind, cb) in r
    ensures Listener(kind, cb) in ls ==> r == ls
    ensures Listener(kind, cb) !in ls ==> r == ls + [Listener(kind, cb)]
  {
    if Listener(kind, cb) in ls then ls else ls + [Listener(kind, cb)]
  }

  function RemoveEventListener<Callback(==,!new)>(ls: seq<Listener<Callback>>, kind: string, cb: Callback)
    : (r: seq<Listener<Callback>>)
    ensures forall l :: l in r <==> l in ls && l != Listener(kind, cb)
    ensures Listener(kind, cb) !in ls ==> r == ls
  {
    if ls == [] then []
    else
      var rest := RemoveEventListener(ls[1..], kind, cb);
      if ls[0] == Listener(kind, cb) then rest
      else
        assert Listener(kind, cb) !in ls ==> ls == [ls[0]] + ls[1..];
        [ls[0]] + rest
  }

  lemma {:induction false} RemoveFromAppend<Callback(!new)>(
    ls: seq<Listener<Callback>>, more: seq<Listener<Callback>>, kind: string, cb: Callback)
    ensures RemoveEventListener(ls + more, kind, cb)
         == RemoveEventListener(ls, kind, cb) + RemoveEventListener(more, kind, cb)
    decreases |ls|
  {
    if ls == [] {
      assert ls + more == more;
    } else {
      assert (ls + more)[0] == ls[0];
      assert (ls + more)[1..] == ls[1..] + more;
      RemoveFromAppend(ls[1..], more, kind, cb);
    }
  }

  /** Removing two listeners gives the same list in either order. */
  lemma {:induction false} RemoveCommutes<Callback(!new)>(
    ls: seq<Listener<Callback>>, kind: string, a: Callback, b: Callback)
    ensures RemoveEventListener(RemoveEventListener(ls, kind, a), kind, b)
         == RemoveEventListener(RemoveEventListener(ls, kind, b), kind, a)
    decreases |ls|
  {
    if ls != [] {
      var x := ls[0];
      var ra := RemoveEventListener(ls[1..], kind, a);
      var rb := RemoveEventListener(ls[1..], kind, b);
      RemoveCommutes(ls[1..], kind, a, b);
      if x != Listener(kind, a) {
        assert ([x] + ra)[0] == x && ([x] + ra)[1..] == ra;
      }
      if x != Listener(kind, b) {
        assert ([x] + rb)[0] == x && ([x] + rb)[1..] == rb;
      }
    }
  }

  /** Adding a listener that was not registered and then removing it leaves
      the list as it was. */
  lemma AddThenRemove<Callback(!new)>(ls: seq<Listener<Callback>>, kind: string, cb: Callback)
    requires Listener(kind, cb) !in ls
    ensures RemoveEventListener(AddEventListener(ls, kind, cb), kind, cb) == ls
  {
    RemoveFromAppend(ls, [Listener(kind, cb)], kind, cb);
    assert [Listener(kind, cb)][1..] == [];
  }

  /** The callbacks an event of type `kind` reaches, in registration order. */
  function Dispatch<Callback(==,!new)>(ls: seq<Listener<Callback>>, kind: string): (r: seq<Callback>)
    ensures forall cb :: cb in r <==> Listener(kind, cb) in ls
    ensures |r| <= |ls|
  {
    if ls == [] then []
    else
      var rest := Dispatch(ls[1..], kind);
      assert forall l :: l in ls <==> l == ls[0] || l in ls[1..];
      if ls[0].kind == kind then [ls[0].callback] + rest else rest
  }

  lemma {:induction false} DispatchAppend<Callback(!new)>(ls: seq<Listener<Callback>>, more: seq<Listener<Callback>>, kind: string)
    ensures Dispatch(ls + more, kind) == Dispatch(ls, kind) + Dispatch(more, kind)
    decreases |ls|
  {
    if ls == [] {
      assert ls + more == more;
    } else {
      assert (ls + more)[0] == ls[0];
      assert (ls + more)[1..] == ls[1..] + more;
      DispatchAppend(ls[1..], more, kind);
    }
  }
}
