/**
 The Turbolinks listener bindings. The document's listener list is a multiset
 of (event, handler) registrations: `addEventListener` adds one registration and
 `removeEventListener` removes one, if there is one. Handlers other than the
 bridge's two stand for listeners installed by other code.
 */
module Binding {

  const LOAD_EVENT: string := "turbolinks:load"
  const BEFORE_RENDER_EVENT: string := "turbolinks:before-render"

  datatype Handler = MountComponents | UnmountComponents | Other(id: nat)

  datatype Listener = Listener(event: string, handler: Handler)

  type Listeners = multiset<Listener>

  /** The two registrations the bridge owns. */
  const MountOnLoad: Listener := Listener(LOAD_EVENT, MountComponents)
  const UnmountBeforeRender: Listener := Listener(BEFORE_RENDER_EVENT, UnmountComponents)

  predicate Owned(l: Listener) {
    l == MountOnLoad || l == UnmountBeforeRender
  }

  /** `setup()`: one more registration of each of the bridge's two handlers;
      every other registration is kept. */
  function Setup(ls: Listeners): (r: Listeners)
    ensures r[MountOnLoad] == ls[MountOnLoad] + 1
    ensures r[UnmountBeforeRender] == ls[UnmountBeforeRender] + 1
    ensures forall l :: !Owned(l) ==> r[l] == ls[l]
  {
    ls + multiset{MountOnLoad, UnmountBeforeRender}
  }

  /** `teardown()`: one registration fewer of each of the bridge's two
      handlers (none if there was none); every other registration is kept. */
  function Teardown(ls: Listeners): (r: Listeners)
    ensures r[MountOnLoad] == if ls[MountOnLoad] == 0 then 0 else ls[MountOnLoad] - 1
    ensures r[UnmountBeforeRender] == if ls[UnmountBeforeRender] == 0 then 0 else ls[UnmountBeforeRender] - 1
    ensures forall l :: !Owned(l) ==> r[l] == ls[l]
  {
    ls - multiset{MountOnLoad, UnmountBeforeRender}
  }

  /** `start()`: teardown then setup. Each of the bridge's handlers ends up
      registered at least once, and never more often than before unless it was
      not registered at all. */
  function Start(ls: Listeners): (r: Listeners)
    ensures r[MountOnLoad] == if ls[MountOnLoad] == 0 then 1 else ls[MountOnLoad]
    ensures r[UnmountBeforeRender] == if ls[UnmountBeforeRender] == 0 then 1 else ls[UnmountBeforeRender]
    ensures forall l :: !Owned(l) ==> r[l] == ls[l]
  {
    Setup(Teardown(ls))
  }

  /** At most one registration per bridge handler. */
  predicate SingleBinding(ls: Listeners) {
    ls[MountOnLoad] <= 1 && ls[UnmountBeforeRender] <= 1
  }

  /** Exactly one registration per bridge handler. */
  predicate Bound(ls: Listeners) {
    ls[MountOnLoad] == 1 && ls[UnmountBeforeRender] == 1
  }

  /** From any state with at most one registration per handler, `start()`
      leaves exactly one. */
  lemma StartBinds(ls: Listeners)
    requires SingleBinding(ls)
    ensures Bound(Start(ls))
  {
  }

  /** `start()` is idempotent: calling it again changes nothing. */
  lemma StartIdempotent(ls: Listeners)
    ensures Start(Start(ls)) == Start(ls)
  {
  }

  /** Without the preceding teardown, listeners pile up: `setup()` twice
      leaves two registrations where there were none. */
  lemma SetupAloneAccumulates(ls: Listeners)
    requires ls[MountOnLoad] == 0
    ensures Setup(Setup(ls))[MountOnLoad] == 2
    ensures !SingleBinding(Setup(Setup(ls)))
  {
  }

  /** `teardown()` keeps at most one registration per handler. */
  lemma TeardownKeepsSingle(ls: Listeners)
    requires SingleBinding(ls)
    ensures Teardown(ls)[MountOnLoad] == 0 && Teardown(ls)[UnmountBeforeRender] == 0
  {
  }
}
