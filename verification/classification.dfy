/**
  Which dashboards `tf-tensorboard` shows as tabs, which it lists in the
  INACTIVE menu, and which it hides. A dashboard named in the comma-separated
  `disabledDashboards` string is hidden; any other dashboard is active when
  the active list names it and inactive otherwise.
 */
module Classification {
  import opened Base
  import opened Seqs
  import opened Text
  import opened OrderedMap
  import opened Registry

  /** `(disabledDashboards || '').split(',')`. */
  function DisabledNames(disabled: Option<string>): seq<string> {
    Split(disabled.GetOr(""), ',')
  }

  /** `DisabledNames(disabled).indexOf(name) >= 0`. */
  predicate IsDisabled(disabled: Option<string>, name: string) {
    name in DisabledNames(disabled)
  }

  /** `activeDashboards || []`: a null active list counts as empty. */
  function ActiveOrEmpty(active: Option<seq<string>>): seq<string> {
    active.GetOr([])
  }

  /** `_isDashboardActive`. */
  predicate IsDashboardActive(disabled: Option<string>, active: Option<seq<string>>, d: DashboardDatum) {
    if IsDisabled(disabled, d.plugin) then false
    else if d.plugin !in ActiveOrEmpty(active) then false
    else true
  }

  /** `_isDashboardInactive`. */
  predicate IsDashboardInactive(disabled: Option<string>, active: Option<seq<string>>, d: DashboardDatum) {
    if IsDisabled(disabled, d.plugin) then false
    else if d.plugin !in ActiveOrEmpty(active) then true
    else false
  }

  /** A dashboard named in the disabled list is neither active nor inactive;
      any other dashboard is exactly one of the two; and while the active
      list is null every dashboard that is not disabled is inactive. */
  lemma Classify(disabled: Option<string>, active: Option<seq<string>>, d: DashboardDatum)
    ensures IsDisabled(disabled, d.plugin) ==>
      !IsDashboardActive(disabled, active, d) && !IsDashboardInactive(disabled, active, d)
    ensures !IsDisabled(disabled, d.plugin) ==>
      (IsDashboardActive(disabled, active, d) <==> !IsDashboardInactive(disabled, active, d))
    ensures active.None? ==>
      (IsDashboardInactive(disabled, active, d) <==> !IsDisabled(disabled, d.plugin))
  {
  }

  /** Writing comma-free names joined by commas as the disabled string
      disables exactly those names. */
  lemma DisabledListRoundTrip(names: seq<string>, name: string)
    requires |names| >= 1
    requires forall i :: 0 <= i < |names| ==> ',' !in names[i]
    ensures IsDisabled(Some(Join(names, ',')), name) <==> name in names
  {
    SplitJoin(names, ',');
  }

  /** The tabs row: the dashboards for which `_isDashboardActive` holds, in data order. */
  function Tabs(disabled: Option<string>, active: Option<seq<string>>, data: seq<DashboardDatum>)
    : (r: seq<DashboardDatum>)
    ensures IsSubsequence(r, data)
    ensures forall d :: d in r <==> d in data && IsDashboardActive(disabled, active, d)
  {
    if |data| == 0 then []
    else
      var rest := Tabs(disabled, active, data[1..]);
      assert forall d :: d in data <==> d == data[0] || d in data[1..];
      if IsDashboardActive(disabled, active, data[0]) then [data[0]] + rest else rest
  }

  /** The INACTIVE menu: the dashboards for which `_isDashboardInactive` holds, in data order. */
  function InactiveMenu(disabled: Option<string>, active: Option<seq<string>>, data: seq<DashboardDatum>)
    : (r: seq<DashboardDatum>)
    ensures IsSubsequence(r, data)
    ensures forall d :: d in r <==> d in data && IsDashboardInactive(disabled, active, d)
  {
    if |data| == 0 then []
    else
      var rest := InactiveMenu(disabled, active, data[1..]);
      assert forall d :: d in data <==> d == data[0] || d in data[1..];
      if IsDashboardInactive(disabled, active, data[0]) then [data[0]] + rest else rest
  }

  /** The tabs and the INACTIVE menu split the dashboards that are not
      disabled between them, and never show a disabled one. */
  lemma TabsAndMenuPartition(disabled: Option<string>, active: Option<seq<string>>, data: seq<DashboardDatum>, d: DashboardDatum)
    requires d in data
    ensures d in Tabs(disabled, active, data) ==> d !in InactiveMenu(disabled, active, data)
    ensures d in Tabs(disabled, active, data) || d in InactiveMenu(disabled, active, data)
      <==> !IsDisabled(disabled, d.plugin)
  {
  }

  /** Whether the plugins listing enables a plugin: a bare flag is used as
      is, metadata through its `enabled` field, and a missing name is not
      enabled. */
  predicate ListingEnables(listing: Listing, name: string) {
    var v: Option<ListingValue> := Get(listing, name);
    match v
    case None => false
    case Some(LegacyFlag(b)) => b
    case Some(Metadata(md)) => md.enabled
  }

  /** The plugin names of a list of dashboards. */
  function Plugins(data: seq<DashboardDatum>): (r: seq<string>)
    ensures |r| == |data|
    ensures forall i :: 0 <= i < |data| ==> r[i] == data[i].plugin
  {
    if |data| == 0 then [] else [data[0].plugin] + Plugins(data[1..])
  }

  /** `_activeDashboards`: the plugin names of the dashboard data that the
      listing enables, in data order; no data gives the empty list. */
  function ActiveDashboards(data: Option<seq<DashboardDatum>>, listing: Listing): (r: seq<string>)
    ensures data.None? ==> r == []
    ensures data.Some? ==> IsSubsequence(r, Plugins(data.value))
    ensures data.Some? ==> forall name :: name in r <==>
      name in Plugins(data.value) && ListingEnables(listing, name)
    decreases if data.Some? then |data.value| else 0
  {
    match data
    case None => []
    case Some(ds) =>
      if |ds| == 0 then []
      else
        var rest := ActiveDashboards(Some(ds[1..]), listing);
        assert Plugins(ds) == [ds[0].plugin] + Plugins(ds[1..]);
        if ListingEnables(listing, ds[0].plugin) then [ds[0].plugin] + rest else rest
  }

  /** A tab is shown for a registered dashboard exactly when it is not
      disabled and the listing enables its plugin. */
  lemma ShownTabs(legacy: OMap<LegacyEntry>, listing: Listing, disabled: Option<string>, d: DashboardDatum)
    requires d in DashboardData(legacy, listing)
    ensures var data := DashboardData(legacy, listing);
      d in Tabs(disabled, Some(ActiveDashboards(Some(data), listing)), data)
      <==> !IsDisabled(disabled, d.plugin) && ListingEnables(listing, d.plugin)
  {
  }

  /** A value `_inactiveDashboardsExist` puts in its working set: a plugin
      name, or `undefined`. */
  datatype SetEntry = Name(name: string) | Undefined

  /** `d.plugin` for a string `d`: strings have no `plugin` property. */
  function PluginPropertyOfString(s: string): SetEntry {
    Undefined
  }

  /** `_inactiveDashboardsExist` as written: the working set starts with the
      dashboards' plugin names, has `d.plugin` removed for every piece `d` of
      the disabled string (which removes `undefined`, not the piece), and has
      the active names removed. */
  function InactiveDashboardsExist(dashboards: seq<DashboardDatum>, disabled: Option<string>, active: Option<seq<string>>): bool {
    match active
    case None => false
    case Some(names) =>
      var working := set d | d in dashboards :: Name(d.plugin);
      var afterDisabled := working - set p | p in DisabledNames(disabled) :: PluginPropertyOfString(p);
      var afterActive := afterDisabled - set a | a in names :: Name(a);
      |afterActive| > 0
  }

  /** `_inactiveDashboardsExist` is false while the active list is null and
      otherwise holds exactly when some dashboard's plugin is not active;
      the disabled list plays no part. */
  lemma InactiveDashboardsExistMeaning(dashboards: seq<DashboardDatum>, disabled: Option<string>, active: Option<seq<string>>)
    ensures InactiveDashboardsExist(dashboards, disabled, active) <==>
      active.Some? && exists d :: d in dashboards && d.plugin !in active.value
  {
    if active.Some? {
      var working := set d | d in dashboards :: Name(d.plugin);
      var afterDisabled := working - set p | p in DisabledNames(disabled) :: PluginPropertyOfString(p);
      var afterActive := afterDisabled - set a | a in active.value :: Name(a);
      if exists d :: d in dashboards && d.plugin !in active.value {
        var d :| d in dashboards && d.plugin !in active.value;
        assert Name(d.plugin) in afterActive;
      }
    }
  }

  /** The check the INACTIVE menu evidently wants: the working set also loses
      the disabled names themselves. */
  function InactiveDashboardsExistIntended(dashboards: seq<DashboardDatum>, disabled: Option<string>, active: Option<seq<string>>): bool {
    match active
    case None => false
    case Some(names) => |IntendedRemaining(dashboards, disabled, names)| > 0
  }

  /** The intended working set, once the disabled and the active names are removed. */
  function IntendedRemaining(dashboards: seq<DashboardDatum>, disabled: Option<string>, names: seq<string>): set<SetEntry> {
    var working := set d | d in dashboards :: Name(d.plugin);
    var afterDisabled := working - set p | p in DisabledNames(disabled) :: Name(p);
    afterDisabled - set a | a in names :: Name(a)
  }

  /** What is left in the intended working set is exactly the plugin names of
      the dashboards the INACTIVE menu lists. */
  lemma IntendedRemainingIsMenu(dashboards: seq<DashboardDatum>, disabled: Option<string>, names: seq<string>, e: SetEntry)
    ensures e in IntendedRemaining(dashboards, disabled, names) <==>
      exists d :: d in dashboards && IsDashboardInactive(disabled, Some(names), d) && e == Name(d.plugin)
  {
  }

  /** With the disabled names removed, the menu is shown exactly when it
      would list at least one dashboard. */
  lemma InactiveDashboardsExistIntendedMeaning(dashboards: seq<DashboardDatum>, disabled: Option<string>, active: Option<seq<string>>)
    ensures InactiveDashboardsExistIntended(dashboards, disabled, active) <==>
      active.Some? && |InactiveMenu(disabled, active, dashboards)| > 0
  {
    if active.Some? {
      var remaining := IntendedRemaining(dashboards, disabled, active.value);
      assert InactiveDashboardsExistIntended(dashboards, disabled, active) <==> |remaining| > 0;
      var menu := InactiveMenu(disabled, active, dashboards);
      if |menu| > 0 {
        assert menu[0] in menu;
        IntendedRemainingIsMenu(dashboards, disabled, active.value, Name(menu[0].plugin));
      }
      if |remaining| > 0 {
        var e :| e in remaining;
        IntendedRemainingIsMenu(dashboards, disabled, active.value, e);
        var d :| d in dashboards && IsDashboardInactive(disabled, active, d) && e == Name(d.plugin);
        assert d in menu;
      }
    }
  }

  /** A dashboard used by the counterexample below. */
  const TextDashboard := DashboardDatum("text", CustomElement("tf-text-dashboard"), "TEXT", false, false)

  /** As written, a dashboard that is both disabled and not active makes the
      INACTIVE menu appear although the menu lists nothing. */
  lemma InactiveDashboardsExistShowsEmptyMenu()
    ensures InactiveDashboardsExist([TextDashboard], Some("text"), Some([]))
    ensures InactiveMenu(Some("text"), Some([]), [TextDashboard]) == []
    ensures !InactiveDashboardsExistIntended([TextDashboard], Some("text"), Some([]))
  {
    SplitNoSep("text", ',');
    assert IsDisabled(Some("text"), TextDashboard.plugin);
    assert InactiveMenu(Some("text"), Some([]), [TextDashboard]) == [];
    InactiveDashboardsExistMeaning([TextDashboard], Some("text"), Some([]));
    assert TextDashboard in [TextDashboard];
    InactiveDashboardsExistIntendedMeaning([TextDashboard], Some("text"), Some([]));
  }
}
