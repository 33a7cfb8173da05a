/**
  The auto-reload behaviour mixed into `tf-tensorboard`: an enabled flag
  persisted in local storage, a timer that periodically asks the host to
  reload, a flag remembering a reload skipped while the document was hidden,
  and the visibility listener that catches up on it. The timer is abstracted
  to whether it is armed, document visibility and the `_DisableAutoReload`
  query parameter are inputs, and the host's reload is counted.
 */
module AutoReload {
  import opened Base

  /** `AUTORELOAD_LOCALSTORAGE_KEY`. */
  const StorageKey: string := "TF.TensorBoard.autoReloadEnabled"

  /** The message `_doReload` throws when the host has no `reload`. */
  const MissingReloadError: string := "AutoReloadBehavior requires a reload method"

  /** Local storage: string keys to string values. */
  type Storage = map<string, string>

  /** `getAutoReloadFromLocalStorage`: the stored string `"true"` or no stored
      value means enabled; any other string means disabled. */
  predicate ReadAutoReload(storage: Storage) {
    StorageKey !in storage || storage[StorageKey] == "true"
  }

  /** `String(b)`, the conversion `setItem` applies to a boolean. */
  function BoolString(b: bool): string {
    if b then "true" else "false"
  }

  /** `localStorage.setItem(AUTORELOAD_LOCALSTORAGE_KEY, b)`. */
  function WriteAutoReload(storage: Storage, b: bool): (s: Storage)
    ensures StorageKey in s && s[StorageKey] in {"true", "false"}
    ensures forall k :: k in storage && k != StorageKey ==> k in s && s[k] == storage[k]
    ensures s.Keys == storage.Keys + {StorageKey}
  {
    storage[StorageKey := BoolString(b)]
  }

  /** Writing a flag and reading it back gives the flag. */
  lemma ReadWriteRoundTrip(storage: Storage, b: bool)
    ensures ReadAutoReload(WriteAutoReload(storage, b)) == b
  {
  }

  /** A stored `"true"` and a missing value read as enabled; every other
      stored string reads as disabled. */
  lemma ReadAutoReloadValues(storage: Storage, stored: string)
    ensures ReadAutoReload(storage[StorageKey := stored]) <==> stored == "true"
    ensures ReadAutoReload(storage - {StorageKey})
  {
  }

  /** The behaviour's state together with the part of the host it touches. */
  datatype ReloadState = ReloadState(
    storage: Storage,
    enabled: bool,
    armed: bool,
    missed: bool,
    listening: bool,
    hasReload: bool,
    reloadDisabled: bool,
    reloads: nat)

  /** `_autoReloadObserver(flag)`: persist the flag, then arm the timer when
      the flag is set and not forced off, and clear it otherwise. */
  function AutoReloadObserver(st: ReloadState, flag: bool, forceDisabled: bool): (st': ReloadState)
    ensures ReadAutoReload(st'.storage) == flag
    ensures st'.storage == WriteAutoReload(st.storage, flag)
    ensures st'.armed <==> flag && !forceDisabled
    ensures st' == st.(storage := st'.storage, armed := st'.armed)
  {
    st.(storage := WriteAutoReload(st.storage, flag), armed := flag && !forceDisabled)
  }

  /** The host's `reload`: nothing while reloading is disabled, otherwise one
      more data reload. */
  function HostReload(st: ReloadState): (st': ReloadState)
    ensures st'.reloads == if st.reloadDisabled then st.reloads else st.reloads + 1
    ensures st' == st.(reloads := st'.reloads)
  {
    if st.reloadDisabled then st else st.(reloads := st.reloads + 1)
  }

  /** `_doReload`: throws when the host has no `reload`, else calls it. */
  function DoReload(st: ReloadState): (r: Outcome<ReloadState>)
    ensures r.Threw? <==> !st.hasReload
    ensures r.Threw? ==> r.state == st && r.message == MissingReloadError
    ensures r.Returned? ==> r.state == HostReload(st)
  {
    if !st.hasReload then Threw(st, MissingReloadError) else Returned(HostReload(st))
  }

  /** `_doAutoReload`, run when the armed timer fires: reload if the
      document is visible, otherwise remember the missed reload; then arm
      the timer again. A throwing reload leaves the timer unarmed, since
      the re-arming statement is never reached. */
  function DoAutoReload(st: ReloadState, visible: bool): (r: Outcome<ReloadState>)
    ensures visible ==> r.state.missed == st.missed
    ensures !visible ==> r == Returned(st.(missed := true, armed := true))
    ensures r.Returned? <==> !visible || st.hasReload
    ensures r.state.armed <==> r.Returned?
    ensures r.state.reloads == if visible && st.hasReload && !st.reloadDisabled then st.reloads + 1 else st.reloads
    ensures r.state == st.(missed := r.state.missed, armed := r.state.armed, reloads := r.state.reloads)
  {
    var fired := st.(armed := false);
    if visible then
      match DoReload(fired)
      case Threw(s, msg) => Threw(s, msg)
      case Returned(s) => Returned(s.(armed := true))
    else
      Returned(fired.(missed := true, armed := true))
  }

  /** `_handleVisibilityChange`: when the document has become visible and a
      reload was missed, clear the flag and reload; otherwise do nothing. */
  function HandleVisibilityChange(st: ReloadState, visible: bool): (r: Outcome<ReloadState>)
    ensures !(visible && st.missed) ==> r == Returned(st)
    ensures visible && st.missed ==> !r.state.missed && (r.Threw? <==> !st.hasReload)
    ensures r.state.reloads ==
      if visible && st.missed && st.hasReload && !st.reloadDisabled then st.reloads + 1 else st.reloads
    ensures r.state.armed == st.armed
    ensures r.state == st.(missed := r.state.missed, reloads := r.state.reloads)
  {
    if visible && st.missed then DoReload(st.(missed := false)) else Returned(st)
  }

  /** `attached`: start listening for visibility changes. */
  function Attached(st: ReloadState): (st': ReloadState)
    ensures st'.listening
    ensures st' == st.(listening := true)
  {
    st.(listening := true)
  }

  /** `detached`: clear the timer and stop listening. */
  function Detached(st: ReloadState): (st': ReloadState)
    ensures !st'.armed && !st'.listening
    ensures st' == st.(armed := false, listening := false)
  {
    st.(armed := false, listening := false)
  }

  /** The element as created: the flag read from storage, nothing missed,
      not yet attached; the observer then runs once for the initial flag. */
  function Initial(storage: Storage, hasReload: bool, forceDisabled: bool): (st: ReloadState)
    ensures st.enabled == ReadAutoReload(storage) && ReadAutoReload(st.storage) == st.enabled
    ensures st.armed <==> st.enabled && !forceDisabled
    ensures st.storage == WriteAutoReload(storage, st.enabled)
    ensures st.hasReload == hasReload && !st.reloadDisabled
    ensures !st.missed && !st.listening && st.reloads == 0
  {
    var enabled := ReadAutoReload(storage);
    AutoReloadObserver(ReloadState(storage, enabled, false, false, false, hasReload, false, 0), enabled, forceDisabled)
  }

  /** What can happen to the element: the user toggles the flag (the
      observer runs only when the value changes), the timer fires, the
      document's visibility changes, the element is attached or detached, or
      the host toggles its reload-disabled flag. */
  datatype Event =
    | SetEnabled(flag: bool)
    | TimerFired(visible: bool)
    | VisibilityChanged(visible: bool)
    | Attach
    | Detach
    | SetReloadDisabled(disabled: bool)

  /** One event. A timer fires only while armed and a visibility change
      reaches the handler only while listening; a handler that throws leaves
      the state it had reached. */
  function Step(st: ReloadState, e: Event, forceDisabled: bool): (st': ReloadState)
    ensures st'.hasReload == st.hasReload
    ensures st.reloads <= st'.reloads <= st.reloads + 1
    ensures st'.reloads == st.reloads + 1 ==>
      st.hasReload && !st.reloadDisabled && (e.TimerFired? || e.VisibilityChanged?)
    ensures st'.enabled != st.enabled ==> e == SetEnabled(st'.enabled)
  {
    match e
    case SetEnabled(flag) =>
      if flag == st.enabled then st else AutoReloadObserver(st.(enabled := flag), flag, forceDisabled)
    case TimerFired(visible) =>
      if st.armed then DoAutoReload(st, visible).state else st
    case VisibilityChanged(visible) =>
      if st.listening then HandleVisibilityChange(st, visible).state else st
    case Attach => Attached(st)
    case Detach => Detached(st)
    case SetReloadDisabled(d) => st.(reloadDisabled := d)
  }

  /** The state after a sequence of events. */
  function Run(st: ReloadState, es: seq<Event>, forceDisabled: bool): (st': ReloadState)
    ensures st'.hasReload == st.hasReload
    ensures st.reloads <= st'.reloads <= st.reloads + |es|
    ensures !st.hasReload ==> st'.reloads == st.reloads
    decreases |es|
  {
    if |es| == 0 then st else Run(Step(st, es[0], forceDisabled), es[1..], forceDisabled)
  }

  /** The stored flag reads as the current flag, and the timer is armed only
      while auto-reload is enabled and not forced off. */
  predicate Consistent(st: ReloadState, forceDisabled: bool) {
    && ReadAutoReload(st.storage) == st.enabled
    && (st.armed ==> st.enabled && !forceDisabled)
  }

  /** Every event keeps the state consistent. */
  lemma StepConsistent(st: ReloadState, e: Event, forceDisabled: bool)
    requires Consistent(st, forceDisabled)
    ensures Consistent(Step(st, e, forceDisabled), forceDisabled)
  {
  }

  /** Every run from the initial state stays consistent; in particular the
      timer never fires while auto-reload is off or forced off. */
  lemma {:induction false} RunConsistent(st: ReloadState, es: seq<Event>, forceDisabled: bool)
    requires Consistent(st, forceDisabled)
    ensures Consistent(Run(st, es, forceDisabled), forceDisabled)
    decreases |es|
  {
    if |es| > 0 {
      StepConsistent(st, es[0], forceDisabled);
      RunConsistent(Step(st, es[0], forceDisabled), es[1..], forceDisabled);
    }
  }

  /** The initial state is consistent. */
  lemma InitialConsistent(storage: Storage, hasReload: bool, forceDisabled: bool)
    ensures Consistent(Initial(storage, hasReload, forceDisabled), forceDisabled)
  {
  }

  /** After detaching, and until the flag is switched on again, no event
      reloads: the timer is never re-armed and no visibility change is heard. */
  lemma {:induction false} DetachedIsQuiet(st: ReloadState, es: seq<Event>, forceDisabled: bool)
    requires !st.armed && !st.listening
    requires forall i :: 0 <= i < |es| ==> !(es[i].SetEnabled? && es[i].flag) && !es[i].Attach?
    ensures Run(st, es, forceDisabled).reloads == st.reloads
    ensures !Run(st, es, forceDisabled).armed
    decreases |es|
  {
    if |es| > 0 {
      var st1 := Step(st, es[0], forceDisabled);
      assert st1.reloads == st.reloads && !st1.armed && !st1.listening;
      assert forall i :: 0 <= i < |es[1..]| ==> es[1..][i] == es[i + 1];
      DetachedIsQuiet(st1, es[1..], forceDisabled);
    }
  }

  /** With the flag forced off by the query parameter and no reload missed
      yet, no event ever makes the behaviour reload. */
  lemma {:induction false} ForcedOffNeverReloads(st: ReloadState, es: seq<Event>)
    requires Consistent(st, true) && !st.missed
    ensures Run(st, es, true).reloads == st.reloads
    decreases |es|
  {
    if |es| > 0 {
      StepConsistent(st, es[0], true);
      var st1 := Step(st, es[0], true);
      assert st1.reloads == st.reloads && !st1.missed;
      ForcedOffNeverReloads(st1, es[1..]);
    }
  }
}
