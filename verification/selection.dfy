/**
  The selected dashboard of `tf-tensorboard`: defaulting it to the first
  active dashboard, the page path recorded when it changes, and mounting
  its view into its container ("stamping"). The DOM is abstracted to a map
  from each dashboard container that exists to its child nodes.
 */
module Selection {
  import opened Base
  import opened Text
  import opened OrderedMap
  import opened Registry
  import opened LoadStates

  /** `_updateSelectedDashboardFromActive`: once the active list is known and
      nothing is selected, select `activeDashboards[0] || null`. */
  function DefaultSelection(selected: Option<string>, active: Option<seq<string>>): (r: Option<string>)
    ensures active.None? || selected.Some? ==> r == selected
    ensures r != selected ==> active.Some? && selected.None? && |active.value| > 0 && r == Some(active.value[0])
    ensures active.Some? && selected.None? ==>
      (r.Some? <==> |active.value| > 0 && active.value[0] != "")
  {
    match active
    case None => selected
    case Some(names) =>
      if selected.None? then
        if |names| > 0 && names[0] != "" then Some(names[0]) else None
      else selected
  }

  /** The handler re-triggers itself when it selects; that second run changes nothing. */
  lemma DefaultSelectionIdempotent(selected: Option<string>, active: Option<seq<string>>)
    ensures DefaultSelection(DefaultSelection(selected, active), active) == DefaultSelection(selected, active)
  {
  }

  /** Once the active set is loaded and the default applied, the "no
      dashboards" warning shows exactly when the active list is empty and
      nothing was selected. */
  lemma NoDashboardsAfterDefault(active: seq<string>, selected: Option<string>)
    ensures ShowNoDashboardsMessage(Loaded, active, DefaultSelection(selected, Some(active)))
      <==> |active| == 0 && selected.None?
  {
  }

  /** The page path recorded in `_selectedDashboardChanged`: the plugin name
      (empty when nothing is selected) appended to the current pathname, with
      a `/` in between unless the pathname already ends with one. */
  function PagePath(pathname: string, selected: Option<string>): (r: string)
    ensures var plugin := selected.GetOr("");
      && |r| == |pathname| + |plugin| + (if EndsWith(pathname, "/") then 0 else 1)
      && r[..|pathname|] == pathname
      && EndsWith(r, plugin)
      && |r| > |plugin|
      && r[|r| - |plugin| - 1] == '/'
  {
    var plugin := selected.GetOr("");
    if EndsWith(pathname, "/") then pathname + plugin else pathname + "/" + plugin
  }

  /** Recording a page path under a pathname that lacks the trailing slash is
      recording it under the pathname with the slash added. */
  lemma PagePathSlash(pathname: string, selected: Option<string>)
    ensures PagePath(pathname, selected) == PagePath(if EndsWith(pathname, "/") then pathname else pathname + "/", selected)
  {
  }

  /** A mounted dashboard view: a custom element of the given tag, or an
      embedded frame showing the given plugin. */
  datatype View = ElementView(tagName: string) | FrameView(plugin: string)

  /** A child node of a dashboard container: the whitespace and the comment
      the template stamps into every container, or an element holding a
      dashboard view. */
  datatype Node = Whitespace | Comment | Element(view: View)

  /** What the template stamps into each container: whitespace, the
      placeholder comment, whitespace. */
  const StampedContent: seq<Node> := [Whitespace, Comment, Whitespace]

  /** `container.children`: the views among the child nodes, in order. */
  function ElementChildren(nodes: seq<Node>): (vs: seq<View>)
    ensures |vs| <= |nodes|
    ensures forall v :: v in vs <==> Element(v) in nodes
  {
    if |nodes| == 0 then []
    else
      var rest := ElementChildren(nodes[1..]);
      assert forall n :: n in nodes <==> n == nodes[0] || n in nodes[1..];
      if nodes[0].Element? then [nodes[0].view] + rest else rest
  }

  /** The children of two runs of nodes are the children of each, in order. */
  lemma {:induction false} ElementChildrenConcat(a: seq<Node>, b: seq<Node>)
    ensures ElementChildren(a + b) == ElementChildren(a) + ElementChildren(b)
    decreases |a|
  {
    if |a| == 0 {
      assert a + b == b;
    } else {
      assert (a + b)[0] == a[0] && (a + b)[1..] == a[1..] + b;
      ElementChildrenConcat(a[1..], b);
    }
  }

  /** `div.firstChild.remove()` as the source writes it: the first child node
      goes, whether or not it is the view. */
  function RemoveFirstChild(nodes: seq<Node>): (r: seq<Node>)
    ensures |nodes| > 0 ==> |r| == |nodes| - 1
    ensures |nodes| > 0 && nodes[0].Element? ==> ElementChildren(r) == ElementChildren(nodes)[1..]
    ensures |nodes| > 0 && !nodes[0].Element? ==> ElementChildren(r) == ElementChildren(nodes)
    ensures |nodes| == 0 ==> r == nodes
  {
    if |nodes| == 0 then nodes else nodes[1..]
  }

  /** The removal the source evidently intends (`firstElementChild`): the
      first view goes, and the whitespace and comment stay. */
  function RemoveFirstElementChild(nodes: seq<Node>): (r: seq<Node>)
    ensures ElementChildren(r) ==
      if |ElementChildren(nodes)| == 0 then [] else ElementChildren(nodes)[1..]
    ensures |r| == if |ElementChildren(nodes)| == 0 then |nodes| else |nodes| - 1
    ensures |ElementChildren(nodes)| == 0 ==> r == nodes
    ensures forall n: Node :: !n.Element? ==> (n in r <==> n in nodes)
  {
    if |nodes| == 0 then nodes
    else
      assert forall n :: n in nodes <==> n == nodes[0] || n in nodes[1..];
      if nodes[0].Element? then nodes[1..]
      else [nodes[0]] + RemoveFirstElementChild(nodes[1..])
  }

  /** As written, removing the previous dashboard from a freshly stamped
      container that holds its view removes whitespace instead, and the view
      survives three such removals; the intended removal takes the view at
      once. */
  lemma FirstChildKeepsView(v: View)
    ensures var c := StampedContent + [Element(v)];
      && ElementChildren(c) == [v]
      && ElementChildren(RemoveFirstChild(c)) == [v]
      && ElementChildren(RemoveFirstChild(RemoveFirstChild(RemoveFirstChild(c)))) == [v]
      && ElementChildren(RemoveFirstElementChild(c)) == []
  {
    var c := StampedContent + [Element(v)];
    ElementChildrenConcat(StampedContent, [Element(v)]);
    assert ElementChildren(StampedContent) == [];
    assert ElementChildren([Element(v)]) == [v];
  }

  /** What stamping reads and writes besides its inputs: the dashboard
      stamped last (`_dashboardToMaybeRemove`), the dashboard containers
      present in the page with their child nodes, and `_isReloadDisabled`. */
  datatype StampState = StampState(
    toMaybeRemove: Option<string>,
    containers: map<string, seq<Node>>,
    reloadDisabled: bool)

  /** The view the selected dashboard's loading mechanism creates. */
  function ViewFor(name: string, mech: LoadingMechanism): View {
    match mech
    case CustomElement(tag) => ElementView(tag)
    case Iframe(_) => FrameView(name)
  }

  /** No container holds more than one view. */
  predicate AtMostOneView(containers: map<string, seq<Node>>) {
    forall k :: k in containers ==> |ElementChildren(containers[k])| <= 1
  }

  /** Stamping proceeds only with a known active list, a non-empty selection
      and a stamped container for it. */
  predicate StampGuard(stamped: map<string, bool>, active: Option<seq<string>>, selected: Option<string>) {
    active.Some? && Truthy(selected) && selected.value in stamped && stamped[selected.value]
  }

  /** How stamping removes the view of a previous `removeDom` dashboard: as
      the source writes it (`RemoveFirstChild`), or as it evidently intends
      (`RemoveFirstElementChild`). */
  datatype Removal = AsWritten | Intended

  function Remove(how: Removal, nodes: seq<Node>): seq<Node> {
    match how
    case AsWritten => RemoveFirstChild(nodes)
    case Intended => RemoveFirstElementChild(nodes)
  }

  /** The first part of stamping: when switching away from a previous
      dashboard whose entry asks for `removeDom`, remove a child from its
      container. Reading the entry of a previous dashboard the registry
      lacks, or the container of one the page lacks, throws. */
  function RemovePrevious(how: Removal, registry: OMap<DashboardDatum>, previous: Option<string>, current: string, st: StampState)
    : (r: Outcome<StampState>)
    ensures r.state.toMaybeRemove == st.toMaybeRemove && r.state.reloadDisabled == st.reloadDisabled
    ensures r.state.containers.Keys == st.containers.Keys
    ensures forall k :: k in st.containers && Some(k) != previous ==> r.state.containers[k] == st.containers[k]
    ensures r.Threw? <==>
      && Truthy(previous) && previous.value != current
      && (previous.value !in Keys(registry) || (Get(registry, previous.value).value.removeDom && previous.value !in st.containers))
    ensures r.Threw? ==> r.state == st && r.message == UndefinedPropertyError
    ensures
      (&& r.Returned? && Truthy(previous) && previous.value != current
       && Get(registry, previous.value).value.removeDom)
      ==> var before := st.containers[previous.value];
          var after := r.state.containers[previous.value];
          && (how == Intended && |ElementChildren(before)| <= 1 ==> ElementChildren(after) == [])
          && (how == AsWritten && |before| > 0 ==> |after| == |before| - 1)
          && (how == AsWritten && |before| > 0 && !before[0].Element? ==> ElementChildren(after) == ElementChildren(before))
          && |ElementChildren(after)| <= |ElementChildren(before)|
  {
    if !Truthy(previous) || previous.value == current then Returned(st)
    else
      var p := previous.value;
      var entry: Option<DashboardDatum> := Get(registry, p);
      if entry.None? then Threw(st, UndefinedPropertyError)
      else if !entry.value.removeDom then Returned(st)
      else if p !in st.containers then Threw(st, UndefinedPropertyError)
      else Returned(st.(containers := st.containers[p := Remove(how, st.containers[p])]))
  }

  /** The second part of stamping: when the selected dashboard's container
      exists and has no element child, append its view, then copy its
      `disableReload` flag. A container without a registry entry throws. */
  function MountSelected(registry: OMap<DashboardDatum>, sel: string, st: StampState): (r: Outcome<StampState>)
    ensures r.state.toMaybeRemove == st.toMaybeRemove
    ensures r.state.containers.Keys == st.containers.Keys
    ensures forall k :: k in st.containers && k != sel ==> r.state.containers[k] == st.containers[k]
    ensures r.Threw? <==> sel in st.containers && sel !in Keys(registry)
    ensures r.Threw? ==> r.state == st && r.message == UndefinedPropertyError
    ensures sel !in st.containers ==> r == Returned(st)
    ensures r.Returned? && sel in st.containers ==>
      var d := Get(registry, sel).value;
      var before := st.containers[sel];
      && r.state.reloadDisabled == d.disableReload
      && (|ElementChildren(before)| == 0 ==>
            && r.state.containers[sel] == before + [Element(ViewFor(sel, d.loadingMechanism))]
            && ElementChildren(r.state.containers[sel]) == [ViewFor(sel, d.loadingMechanism)])
      && (|ElementChildren(before)| > 0 ==> r.state.containers[sel] == before)
  {
    if sel !in st.containers then Returned(st)
    else
      var entry: Option<DashboardDatum> := Get(registry, sel);
      if entry.None? then Threw(st, UndefinedPropertyError)
      else
        var d := entry.value;
        var before := st.containers[sel];
        var view := ViewFor(sel, d.loadingMechanism);
        ElementChildrenConcat(before, [Element(view)]);
        assert ElementChildren([Element(view)]) == [view];
        var mounted :=
          if |ElementChildren(before)| == 0 then st.containers[sel := before + [Element(view)]]
          else st.containers;
        Returned(st.(containers := mounted, reloadDisabled := d.disableReload))
  }

  /** `_ensureSelectedDashboardStamped`, with the given removal of the
      previous view: `AsWritten` is the source's function. */
  function EnsureSelectedDashboardStamped(
    how: Removal,
    registry: OMap<DashboardDatum>,
    stamped: map<string, bool>,
    active: Option<seq<string>>,
    selected: Option<string>,
    st: StampState): (r: Outcome<StampState>)
    ensures !StampGuard(stamped, active, selected) ==> r == Returned(st)
    ensures StampGuard(stamped, active, selected) ==> r.state.toMaybeRemove == selected
    ensures r.state.containers.Keys == st.containers.Keys
    ensures forall k :: k in st.containers && Some(k) != selected && Some(k) != st.toMaybeRemove ==>
      r.state.containers[k] == st.containers[k]
    ensures AtMostOneView(st.containers) ==> AtMostOneView(r.state.containers)
  {
    if !StampGuard(stamped, active, selected) then Returned(st)
    else
      var sel := selected.value;
      var previous := st.toMaybeRemove;
      var st1 := st.(toMaybeRemove := selected);
      match RemovePrevious(how, registry, previous, sel, st1)
      case Threw(st2, msg) => Threw(st2, msg)
      case Returned(st2) => MountSelected(registry, sel, st2)
  }

  /** Stamping again after a stamping that returned changes nothing, with
      either removal. */
  lemma StampIdempotent(
    how: Removal,
    registry: OMap<DashboardDatum>,
    stamped: map<string, bool>,
    active: Option<seq<string>>,
    selected: Option<string>,
    st: StampState)
    requires EnsureSelectedDashboardStamped(how, registry, stamped, active, selected, st).Returned?
    ensures var st' := EnsureSelectedDashboardStamped(how, registry, stamped, active, selected, st).state;
      EnsureSelectedDashboardStamped(how, registry, stamped, active, selected, st') == Returned(st')
  {
  }

  /** As written, switching away from a `removeDom` dashboard whose freshly
      stamped container holds its view removes the leading whitespace: the
      container keeps the view. */
  lemma StampKeepsPreviousView(
    registry: OMap<DashboardDatum>,
    stamped: map<string, bool>,
    active: Option<seq<string>>,
    selected: Option<string>,
    st: StampState,
    p: string,
    v: View)
    requires StampGuard(stamped, active, selected)
    requires st.toMaybeRemove == Some(p) && p != "" && p != selected.value
    requires p in Keys(registry) && Get(registry, p).value.removeDom
    requires p in st.containers && st.containers[p] == StampedContent + [Element(v)]
    ensures var r := EnsureSelectedDashboardStamped(AsWritten, registry, stamped, active, selected, st);
      && ElementChildren(r.state.containers[p]) == [v]
      && r.state.containers[p] == [Comment, Whitespace, Element(v)]
  {
    ElementChildrenConcat(StampedContent, [Element(v)]);
    assert ElementChildren(StampedContent) == [];
    assert ElementChildren([Element(v)]) == [v];
  }

  /** With the intended removal, switching away from a previous dashboard
      leaves its container with no view if its entry has `removeDom`, and
      keeps the container as it was otherwise. */
  lemma StampRemovesPrevious(
    registry: OMap<DashboardDatum>,
    stamped: map<string, bool>,
    active: Option<seq<string>>,
    selected: Option<string>,
    st: StampState,
    p: string)
    requires StampGuard(stamped, active, selected)
    requires AtMostOneView(st.containers)
    requires st.toMaybeRemove == Some(p) && p != "" && p != selected.value
    requires p in Keys(registry) && p in st.containers
    ensures var r := EnsureSelectedDashboardStamped(Intended, registry, stamped, active, selected, st);
      if Get(registry, p).value.removeDom then ElementChildren(r.state.containers[p]) == []
      else r.state.containers[p] == st.containers[p]
  {
  }

  /** The two removals give the same outcome kind, the same remembered
      dashboard, the same reload flag and the same containers, except for
      the previous dashboard's container. */
  lemma StampRemovalsAgree(
    registry: OMap<DashboardDatum>,
    stamped: map<string, bool>,
    active: Option<seq<string>>,
    selected: Option<string>,
    st: StampState)
    ensures var a := EnsureSelectedDashboardStamped(AsWritten, registry, stamped, active, selected, st);
      var b := EnsureSelectedDashboardStamped(Intended, registry, stamped, active, selected, st);
      && (a.Threw? <==> b.Threw?)
      && a.state.toMaybeRemove == b.state.toMaybeRemove
      && a.state.reloadDisabled == b.state.reloadDisabled
      && forall k :: k in st.containers && Some(k) != st.toMaybeRemove ==>
           a.state.containers[k] == b.state.containers[k]
  {
  }

  /** Once the previous dashboard is dealt with, stamping mounts the selected
      dashboard's view into its container if that container has no view,
      keeps an existing view otherwise, and copies the entry's `disableReload`. */
  lemma StampMountsSelected(
    how: Removal,
    registry: OMap<DashboardDatum>,
    stamped: map<string, bool>,
    active: Option<seq<string>>,
    selected: Option<string>,
    st: StampState)
    requires StampGuard(stamped, active, selected)
    requires RemovePrevious(how, registry, st.toMaybeRemove, selected.value, st.(toMaybeRemove := selected)).Returned?
    requires selected.value in st.containers && selected.value in Keys(registry)
    ensures var sel := selected.value;
      var d := Get(registry, sel).value;
      var r := EnsureSelectedDashboardStamped(how, registry, stamped, active, selected, st);
      && r.Returned?
      && r.state.reloadDisabled == d.disableReload
      && ElementChildren(r.state.containers[sel]) ==
           if |ElementChildren(st.containers[sel])| == 0 then [ViewFor(sel, d.loadingMechanism)]
           else ElementChildren(st.containers[sel])
  {
  }

  /** Stamping throws exactly when it passes its guard and then reads an
      entry the registry lacks (for the previous dashboard it must check, or
      for a selected dashboard whose container exists), or looks for the
      container of a previous `removeDom` dashboard that the page lacks. */
  lemma StampThrows(
    how: Removal,
    registry: OMap<DashboardDatum>,
    stamped: map<string, bool>,
    active: Option<seq<string>>,
    selected: Option<string>,
    st: StampState)
    ensures EnsureSelectedDashboardStamped(how, registry, stamped, active, selected, st).Threw? <==>
      && StampGuard(stamped, active, selected)
      && var sel := selected.value;
         var prev := st.toMaybeRemove;
         var checksPrev := Truthy(prev) && prev.value != sel;
         var previousThrows := checksPrev &&
           (prev.value !in Keys(registry)
            || (Get(registry, prev.value).value.removeDom && prev.value !in st.containers));
         previousThrows || (sel in st.containers && sel !in Keys(registry))
  {
  }
}
