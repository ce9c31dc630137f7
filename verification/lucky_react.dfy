/**
 The `LuckyReact` object's process-wide state: the component registry and the
 document's listener registrations, with the public entry points `register`,
 `start` and `teardown` as pure state transitions.
 */
module LuckyReact {
  import opened Js
  import opened Registry
  import opened Binding

  datatype State = State(components: Components, listeners: Listeners)

  /** At load: no name is registered and no listener is installed. */
  function Initial(): (st: State)
    ensures forall k :: Get(st.components, k) == Undefined
    ensures forall l :: st.listeners[l] == 0
  {
    State(map[], multiset{})
  }

  /** `start()`: rebind the two Turbolinks handlers; the registry is untouched. */
  function Start(st: State): (r: State)
    ensures r.components == st.components
    ensures SingleBinding(st.listeners) ==> Bound(r.listeners)
    ensures forall l :: !Owned(l) ==> r.listeners[l] == st.listeners[l]
  {
    st.(listeners := Binding.Start(st.listeners))
  }

  /** `teardown()`: unbind the two Turbolinks handlers; the registry is untouched. */
  function Teardown(st: State): (r: State)
    ensures r.components == st.components
    ensures SingleBinding(st.listeners) ==>
              r.listeners[MountOnLoad] == 0 && r.listeners[UnmountBeforeRender] == 0
    ensures forall l :: !Owned(l) ==> r.listeners[l] == st.listeners[l]
  {
    st.(listeners := Binding.Teardown(st.listeners))
  }

  /** `register(componentHash)`: every key of the hash now maps to the hash's
      value, every other registry entry is unchanged, and the handlers are
      rebound, so that from a state with at most one registration per handler
      exactly one is left. */
  function Register(st: State, hash: map<string, Value>): (r: State)
    ensures forall k :: k in hash ==> k in r.components && r.components[k] == hash[k]
    ensures forall k :: k !in hash ==> Get(r.components, k) == Get(st.components, k)
    ensures SingleBinding(st.listeners) ==> Bound(r.listeners)
    ensures forall l :: !Owned(l) ==> r.listeners[l] == st.listeners[l]
  {
    Start(st.(components := Merge(st.components, hash)))
  }

  /** A call of one of the public entry points that change the state. */
  datatype Call = RegisterCall(hash: map<string, Value>) | StartCall | TeardownCall

  function Step(st: State, call: Call): State {
    match call
    case RegisterCall(hash) => Register(st, hash)
    case StartCall => Start(st)
    case TeardownCall => Teardown(st)
  }

  /** The state after the calls, made in order. Registry entries are never
      removed. */
  function Run(st: State, calls: seq<Call>): (r: State)
    ensures st.components.Keys <= r.components.Keys
    decreases |calls|
  {
    if |calls| == 0 then st else Run(Step(st, calls[0]), calls[1..])
  }

  lemma {:induction false} RunSnoc(st: State, calls: seq<Call>, call: Call)
    ensures Run(st, calls + [call]) == Step(Run(st, calls), call)
    decreases |calls|
  {
    if |calls| == 0 {
      assert calls + [call] == [call];
    } else {
      assert (calls + [call])[1..] == calls[1..] + [call];
      RunSnoc(Step(st, calls[0]), calls[1..], call);
    }
  }

  /** However many times `register`, `start` or `teardown` is called, there is
      never more than one registration per handler; and after a `register` or
      `start` call, exactly one for `turbolinks:load` (mounting) and one for
      `turbolinks:before-render` (unmounting). */
  lemma {:induction false} BindingStaysSingle(st: State, calls: seq<Call>)
    requires SingleBinding(st.listeners)
    ensures SingleBinding(Run(st, calls).listeners)
    ensures |calls| > 0 && !calls[|calls| - 1].TeardownCall? ==> Bound(Run(st, calls).listeners)
    decreases |calls|
  {
    if |calls| > 0 {
      var init := calls[..|calls| - 1];
      var last := calls[|calls| - 1];
      assert calls == init + [last];
      BindingStaysSingle(st, init);
      RunSnoc(st, init, last);
    }
  }

  /** From process start, any sequence of calls ending with `register` leaves
      exactly one registration per handler. */
  lemma RegisteredOnceFromStart(calls: seq<Call>, hash: map<string, Value>)
    ensures Bound(Run(Initial(), calls + [RegisterCall(hash)]).listeners)
  {
    BindingStaysSingle(Initial(), calls + [RegisterCall(hash)]);
  }

  /** The value the registry holds for `k` after the calls: the one from the
      last `register` call whose hash has `k`, or the original entry if none
      has. */
  function LastRegistered(components: Components, calls: seq<Call>, k: string): Value
    decreases |calls|
  {
    if |calls| == 0 then Get(components, k)
    else
      var last := calls[|calls| - 1];
      if last.RegisterCall? && k in last.hash then last.hash[k]
      else LastRegistered(components, calls[..|calls| - 1], k)
  }

  /** Later registrations overwrite earlier ones, and a name no call
      registered keeps its original entry. */
  lemma {:induction false} RegistryAfterCalls(st: State, calls: seq<Call>, k: string)
    ensures Get(Run(st, calls).components, k) == LastRegistered(st.components, calls, k)
    decreases |calls|
  {
    if |calls| > 0 {
      var init := calls[..|calls| - 1];
      var last := calls[|calls| - 1];
      assert calls == init + [last];
      RegistryAfterCalls(st, init, k);
      RunSnoc(st, init, last);
    }
  }

  /** Registering the same hash twice is the same as registering it once:
      neither the registry nor the listeners change the second time. */
  lemma RegisterIdempotent(st: State, hash: map<string, Value>)
    ensures Register(Register(st, hash), hash) == Register(st, hash)
  {
    StartIdempotent(st.listeners);
    assert Merge(Merge(st.components, hash), hash) == Merge(st.components, hash);
  }
}
