# TensorBoard dashboard shell, modelled in Dafny

This project models the logic inside `tf-tensorboard`, the Polymer element that hosts
TensorBoard's plugin dashboards, and inside its `AutoReloadBehavior` mixin. The model
covers five parts:

- **Dashboard classification.** It decides which dashboards appear as tabs, which
  appear in the INACTIVE menu and which are hidden. The inputs are the comma-separated
  `disabledDashboards` string, the active list and the plugins listing.
- **The dashboard registry.** Built-in (legacy) entries are overlaid with the backend's
  plugin metadata. The result is then reordered so that listed plugins come first, in
  listing order.
- **The load state.** This is the state of the active-dashboards set (NOT_LOADED,
  LOADED, FAILED), together with the flags and warning messages derived from it.
- **The selected dashboard.** This covers defaulting the selection, the page path
  recorded when the selection changes, and mounting the selected view ("stamping").
- **Auto-reload.** This covers the enabled flag persisted in local storage, the
  periodic timer, the reload missed while the page was hidden, and the visibility
  listener.

Everything is written as pure functions over immutable data:

- A JavaScript object used as a dictionary is a list of (key, value) pairs, kept in
  insertion order (module `OrderedMap`).
- `null`/`undefined` is `Option.None`.
- A handler that may throw returns an `Outcome`. Both of its cases carry the state the
  handler had reached, because assignments made before a throw persist.
- The DOM is a map from each dashboard container present in the page to its child
  nodes. A child node is whitespace, a comment or an element holding a view. The
  template stamps whitespace, a comment and whitespace into every container.
- The timer is a boolean that says whether it is armed.
- The document's visibility and the `_DisableAutoReload` query parameter are inputs.
- The host's data reloads are counted.

The built-in registry, which comes from `registry.ts`, is a parameter. `registry.ts` is
not part of this model.

Modules:

- `Base`: `Option`, `Outcome`, string truthiness.
- `Seqs`: order-preserving filters and subsequences.
- `Text`: JavaScript's `split`/`join`, ASCII `toUpperCase` and `endsWith`.
- `OrderedMap`: insertion-ordered objects.
- `Registry`: `_dashboardRegistry` and `_dashboardData`.
- `Classification`: `_isDashboardActive`, `_isDashboardInactive`,
  `_inactiveDashboardsExist` and `_activeDashboards`.
- `LoadStates`: `_fetchPluginsListing` results, the load-state flags and `_show*Message`.
- `Selection`: `_updateSelectedDashboardFromActive`, the page path in
  `_selectedDashboardChanged`, and `_ensureSelectedDashboardStamped`.
- `AutoReload`: `autoReloadBehavior.ts` and the host's `reload` guard.

## Model

| member | source | states |
|---|---|---|
| Text.Split | tensorboard/components_polymer3/tf_tensorboard/tf-tensorboard.ts:619 | `split(',')` always yields at least one piece, and no piece contains a comma |
| Text.SplitJoin | tensorboard/components_polymer3/tf_tensorboard/tf-tensorboard.ts:619 | splitting a comma-join of comma-free names gives back exactly those names |
| Text.JoinSplit | tensorboard/components_polymer3/tf_tensorboard/tf-tensorboard.ts:619 | joining the pieces of a split restores the original string |
| Text.ToUpper | tensorboard/components_polymer3/tf_tensorboard/tf-tensorboard.ts:880 | each character becomes its own capital (`a`–`z` to `A`–`Z`, everything else unchanged), so the tab name keeps its length and has no lower-case letter left |
| Classification.Classify | tensorboard/components_polymer3/tf_tensorboard/tf-tensorboard.ts:617-651 | a dashboard named in the disabled list is neither active nor inactive; any other dashboard is exactly one of the two; with a null active list every dashboard that is not disabled is inactive |
| Classification.DisabledListRoundTrip | tensorboard/components_polymer3/tf_tensorboard/tf-tensorboard.ts:612-619 | a disabled string written as comma-free names joined by commas disables exactly those names |
| Classification.IsDashboardActive | tensorboard/components_polymer3/tf_tensorboard/tf-tensorboard.ts:617-637 | `_isDashboardActive`; characterized by `Classify` |
| Classification.IsDashboardInactive | tensorboard/components_polymer3/tf_tensorboard/tf-tensorboard.ts:638-651 | `_isDashboardInactive`; characterized by `Classify` |
| Classification.Tabs | tensorboard/components_polymer3/tf_tensorboard/tf-tensorboard.ts:150-166 | the tabs are a subsequence of the dashboard data, holding exactly the dashboards that are active |
| Classification.InactiveMenu | tensorboard/components_polymer3/tf_tensorboard/tf-tensorboard.ts:184-198 | the INACTIVE menu is a subsequence of the dashboard data, holding exactly the dashboards that are inactive |
| Classification.TabsAndMenuPartition | tensorboard/components_polymer3/tf_tensorboard/tf-tensorboard.ts:150-198 | no dashboard is both a tab and in the menu; a dashboard is in one of them exactly when it is not disabled |
| Classification.ActiveDashboards | tensorboard/components_polymer3/tf_tensorboard/tf-tensorboard.ts:841-857 | missing data gives `[]`; otherwise the result is a subsequence of the data's plugin names and holds a name exactly when the listing enables it (a bare boolean as is, metadata by `enabled`, a missing name not at all) |
| Classification.ShownTabs | tensorboard/components_polymer3/tf_tensorboard/tf-tensorboard.ts:155-158 | a registered dashboard gets a tab exactly when it is not disabled and the listing enables its plugin |
| Classification.InactiveDashboardsExistMeaning | tensorboard/components_polymer3/tf_tensorboard/tf-tensorboard.ts:652-668 | false while the active list is null; otherwise true exactly when some dashboard's plugin is not in the active list; the disabled list has no effect |
| Classification.InactiveDashboardsExist | tensorboard/components_polymer3/tf_tensorboard/tf-tensorboard.ts:652-668 | `_inactiveDashboardsExist` as written; characterized by `InactiveDashboardsExistMeaning` |
| Classification.InactiveDashboardsExistShowsEmptyMenu | tensorboard/components_polymer3/tf_tensorboard/tf-tensorboard.ts:661-663 | a disabled, inactive dashboard makes the menu appear although the menu lists nothing, where the corrected check says no |
| Classification.InactiveDashboardsExistIntendedMeaning | tensorboard/components_polymer3/tf_tensorboard/tf-tensorboard.ts:652-668 | with disabled names removed, the menu appears exactly when the active list is known and the menu would list at least one dashboard |
| Classification.InactiveDashboardsExistIntended | tensorboard/components_polymer3/tf_tensorboard/tf-tensorboard.ts:652-668 | the corrected `_inactiveDashboardsExist`; characterized by `InactiveDashboardsExistIntendedMeaning` |
| Registry.FromLegacy | tensorboard/components_polymer3/tf_tensorboard/tf-tensorboard.ts:873-884 | a built-in entry becomes a custom-element entry with an upper-cased tab name; `disableReload` and `removeDom` are true only when explicitly set |
| Registry.FromBackend | tensorboard/components_polymer3/tf_tensorboard/tf-tensorboard.ts:929-935 | a backend entry is named by its listing key, keeps its mechanism and flags, and has an upper-cased tab name |
| Registry.BackendData | tensorboard/components_polymer3/tf_tensorboard/tf-tensorboard.ts:885-937 | the backend entries assigned, in listing order (their keys are a subsequence of the listing's), without repeats, each name reading exactly what the backend says about it: an entry for metadata with a `CUSTOM_ELEMENT` or `IFRAME` mechanism, nothing otherwise |
| Registry.Pick | tensorboard/components_polymer3/tf_tensorboard/tf-tensorboard.ts:940-945 | the first reordering loop keeps, in listing order, the listed names the registry has, with the registry's values |
| Registry.MergedGet | tensorboard/components_polymer3/tf_tensorboard/tf-tensorboard.ts:869-937 | before reordering, each name reads the backend entry when its mechanism is `CUSTOM_ELEMENT` or `IFRAME`, and otherwise the converted built-in entry or nothing |
| Registry.MergedKeys | tensorboard/components_polymer3/tf_tensorboard/tf-tensorboard.ts:873-937 | before reordering, the built-in keys keep their order and the new backend keys follow in listing order |
| Registry.Merged | tensorboard/components_polymer3/tf_tensorboard/tf-tensorboard.ts:869-937 | the registry before reordering; its lookups and key order are stated by `MergedGet` and `MergedKeys` |
| Registry.Ordered | tensorboard/components_polymer3/tf_tensorboard/tf-tensorboard.ts:938-947 | the reordering; stated by `OrderedGet` and `OrderedKeys` |
| Registry.OrderedGet | tensorboard/components_polymer3/tf_tensorboard/tf-tensorboard.ts:938-947 | reordering keeps every lookup |
| Registry.OrderedKeys | tensorboard/components_polymer3/tf_tensorboard/tf-tensorboard.ts:938-947 | after reordering, the listed names the registry has come first in listing order, then the remaining keys in their earlier order, with no repeats |
| Registry.RegistryGet | tensorboard/components_polymer3/tf_tensorboard/tf-tensorboard.ts:869-947 | `_dashboardRegistry`, name by name: a backend `CUSTOM_ELEMENT`/`IFRAME` entry replaces a built-in one; a boolean, `NONE` or unknown-mechanism entry leaves the built-in entry, or its absence, unchanged; a name is a key exactly when it has an entry |
| Registry.RegistryKeys | tensorboard/components_polymer3/tf_tensorboard/tf-tensorboard.ts:938-947 | `_dashboardRegistry`'s key order: listed plugins first in listing order, then the rest in merged order; the key set equals the merged registry's |
| Registry.DashboardRegistry | tensorboard/components_polymer3/tf_tensorboard/tf-tensorboard.ts:869-947 | `_dashboardRegistry`; stated by `RegistryGet` and `RegistryKeys` |
| Registry.DashboardData | tensorboard/components_polymer3/tf_tensorboard/tf-tensorboard.ts:950-954 | `_dashboardData`, the registry's values in key order; stated by `DashboardDataTabNames` and `Classification.ShownTabs` |
| Registry.DashboardDataTabNames | tensorboard/components_polymer3/tf_tensorboard/tf-tensorboard.ts:950-954 | every tab name in `_dashboardData` is upper-cased |
| LoadStates.OnListingResult | tensorboard/components_polymer3/tf_tensorboard/tf-tensorboard.ts:956-975 | an uncancelled delivery installs its value and sets LOADED; a cancelled one changes nothing; a failure keeps the listing and moves only NOT_LOADED to FAILED; LOADED is never left and NOT_LOADED never re-entered |
| LoadStates.RunListingState | tensorboard/components_polymer3/tf_tensorboard/tf-tensorboard.ts:956-975 | after any sequence of results: LOADED exactly when it was LOADED before or some result was delivered uncancelled; still NOT_LOADED exactly when every result was cancelled; the listing changes only through an uncancelled delivery |
| LoadStates.RunListingLastDelivered | tensorboard/components_polymer3/tf_tensorboard/tf-tensorboard.ts:956-975 | when some result was delivered uncancelled, the final listing is the value of the last such result |
| LoadStates.RunListing | tensorboard/components_polymer3/tf_tensorboard/tf-tensorboard.ts:956-975 | results applied in order never leave LOADED and never return to NOT_LOADED |
| LoadStates.NotLoadedFlag | tensorboard/components_polymer3/tf_tensorboard/tf-tensorboard.ts:981-986 | `_activeDashboardsNotLoaded`; with the other two flags, characterized by `ExactlyOneFlag` |
| LoadStates.LoadedFlag | tensorboard/components_polymer3/tf_tensorboard/tf-tensorboard.ts:987-992 | `_activeDashboardsLoaded`; characterized by `ExactlyOneFlag` |
| LoadStates.FailedFlag | tensorboard/components_polymer3/tf_tensorboard/tf-tensorboard.ts:993-998 | `_activeDashboardsFailedToLoad`; characterized by `ExactlyOneFlag` |
| LoadStates.ShowNoDashboardsMessage | tensorboard/components_polymer3/tf_tensorboard/tf-tensorboard.ts:999-1010 | `_showNoDashboardsMessage`; its meaning is stated by `MessagesExclusive` and `Selection.NoDashboardsAfterDefault` |
| LoadStates.ShowNoSuchDashboardMessage | tensorboard/components_polymer3/tf_tensorboard/tf-tensorboard.ts:1011-1022 | `_showNoSuchDashboardMessage`; its meaning is stated by `MessagesExclusive` |
| LoadStates.ExactlyOneFlag | tensorboard/components_polymer3/tf_tensorboard/tf-tensorboard.ts:981-997 | exactly one of the not-loaded, loaded and failed flags is true |
| LoadStates.MessagesExclusive | tensorboard/components_polymer3/tf_tensorboard/tf-tensorboard.ts:999-1021 | both warnings need LOADED; "no such dashboard" needs a non-empty selection absent from the registry; the two never show together |
| Selection.DefaultSelection | tensorboard/components_polymer3/tf_tensorboard/tf-tensorboard.ts:693-708 | the selection changes only when the active list is known and nothing is selected; it then becomes the first active name, and stays null when that name is missing or empty |
| Selection.DefaultSelectionIdempotent | tensorboard/components_polymer3/tf_tensorboard/tf-tensorboard.ts:703-705 | the handler's re-triggered second run changes nothing |
| Selection.NoDashboardsAfterDefault | tensorboard/components_polymer3/tf_tensorboard/tf-tensorboard.ts:1004-1009 | once loaded and defaulted, "no dashboards" shows exactly when the active list is empty and nothing was selected |
| Selection.PagePath | tensorboard/components_polymer3/tf_tensorboard/tf-tensorboard.ts:679-684 | the path starts with the pathname, ends with the plugin name (empty for no selection), has exactly one `/` added when the pathname lacks a trailing one, and has a `/` right before the plugin name |
| Selection.PagePathSlash | tensorboard/components_polymer3/tf_tensorboard/tf-tensorboard.ts:683-684 | joining under a pathname without a trailing slash equals joining under the pathname with the slash added |
| Selection.ElementChildren | tensorboard/components_polymer3/tf_tensorboard/tf-tensorboard.ts:764-765 | `container.children`: exactly the views among the child nodes, never more of them than nodes |
| Selection.RemoveFirstChild | tensorboard/components_polymer3/tf_tensorboard/tf-tensorboard.ts:751-753 | the source's `firstChild.remove()`: one node fewer; when the first node is whitespace or a comment, every view stays |
| Selection.RemoveFirstElementChild | tensorboard/components_polymer3/tf_tensorboard/tf-tensorboard.ts:751-753 | the corrected removal: the first view goes and nothing else; whitespace and comments stay; a container without a view is unchanged |
| Selection.FirstChildKeepsView | tensorboard/components_polymer3/tf_tensorboard/tf-tensorboard.ts:751-753 | a freshly stamped container holding a view keeps it after one, and after three, removals as written; the corrected removal leaves no view |
| Selection.EnsureSelectedDashboardStamped | tensorboard/components_polymer3/tf_tensorboard/tf-tensorboard.ts:733-791 | with the `AsWritten` removal, the source's function: nothing changes unless the active list is known, the selection is non-empty and its container is stamped; once past the guard the selection is remembered as the dashboard to maybe remove; only the selected and previous containers change; no container ever gets a second view (with either removal) |
| Selection.RemovePrevious | tensorboard/components_polymer3/tf_tensorboard/tf-tensorboard.ts:746-755 | only the previous dashboard's container can change; with `removeDom` and the `AsWritten` removal (`firstChild.remove()`) a non-empty container loses one node and keeps its views when that node is whitespace or a comment; with the `Intended` removal a container with at most one view is left with none; either way no view is added; throws, changing nothing, exactly when the previous entry is missing or a `removeDom` previous dashboard has no container |
| Selection.MountSelected | tensorboard/components_polymer3/tf_tensorboard/tf-tensorboard.ts:756-790 | nothing happens without a container; a container without an entry throws; otherwise a container with no element child gets the mechanism's view appended after its whitespace and comment, one with a view is kept, reload-disabled is copied, and no other container changes |
| Selection.StampIdempotent | tensorboard/components_polymer3/tf_tensorboard/tf-tensorboard.ts:746-791 | with either removal, stamping again after a stamping that returned normally changes nothing |
| Selection.StampKeepsPreviousView | tensorboard/components_polymer3/tf_tensorboard/tf-tensorboard.ts:746-755 | as written: switching away from a `removeDom` dashboard whose freshly stamped container holds its view removes the leading whitespace, and the container keeps the view (see Findings) |
| Selection.StampRemovesPrevious | tensorboard/components_polymer3/tf_tensorboard/tf-tensorboard.ts:746-755 | with the `Intended` removal (see Findings): when switching away from a previous dashboard, its container is left with no view if its entry has `removeDom`, and is otherwise kept |
| Selection.StampRemovalsAgree | tensorboard/components_polymer3/tf_tensorboard/tf-tensorboard.ts:746-790 | the source's removal and the intended one throw on the same inputs and give the same remembered dashboard, reload flag and containers, except for the previous dashboard's container |
| Selection.StampMountsSelected | tensorboard/components_polymer3/tf_tensorboard/tf-tensorboard.ts:756-790 | with either removal, a container with no view gets the view of the entry's mechanism, one with a view keeps it, and reload-disabled is copied from the entry |
| Selection.StampThrows | tensorboard/components_polymer3/tf_tensorboard/tf-tensorboard.ts:746-790 | with either removal, stamping throws exactly when, past the guard, it reads an entry the registry lacks, or looks for a missing container of a previous `removeDom` dashboard |
| AutoReload.WriteAutoReload | tensorboard/components_polymer3/tf_tensorboard/autoReloadBehavior.ts:97 | persisting stores `"true"` or `"false"` under the auto-reload key and keeps every other key |
| AutoReload.ReadWriteRoundTrip | tensorboard/components_polymer3/tf_tensorboard/autoReloadBehavior.ts:49-52 | a persisted flag reads back as itself |
| AutoReload.ReadAutoReloadValues | tensorboard/components_polymer3/tf_tensorboard/autoReloadBehavior.ts:49-52 | a stored `"true"` or a missing value reads as enabled; every other stored string reads as disabled |
| AutoReload.ReadAutoReload | tensorboard/components_polymer3/tf_tensorboard/autoReloadBehavior.ts:49-52 | `getAutoReloadFromLocalStorage`; characterized by `ReadAutoReloadValues` and `ReadWriteRoundTrip` |
| AutoReload.AutoReloadObserver | tensorboard/components_polymer3/tf_tensorboard/autoReloadBehavior.ts:96-106 | the observer always persists the flag; it arms the timer exactly when the flag is set and auto-reload is not forced off, and clears it otherwise; nothing else changes |
| AutoReload.HostReload | tensorboard/components_polymer3/tf_tensorboard/tf-tensorboard.ts:1033-1040 | the host's reload does nothing while reload is disabled, and otherwise reloads data once |
| AutoReload.DoReload | tensorboard/components_polymer3/tf_tensorboard/autoReloadBehavior.ts:118-123 | throws the "requires a reload method" error, with nothing changed, exactly when the host has no `reload`; otherwise it runs the host's reload |
| AutoReload.DoAutoReload | tensorboard/components_polymer3/tf_tensorboard/autoReloadBehavior.ts:107-117 | a visible tick reloads and leaves the missed flag alone; a hidden tick sets the missed flag and does not reload; the timer is armed again unless the reload threw |
| AutoReload.HandleVisibilityChange | tensorboard/components_polymer3/tf_tensorboard/autoReloadBehavior.ts:124-129 | reloads exactly when the document is visible and a reload was missed, and then clears the missed flag; otherwise nothing changes; the timer is untouched |
| AutoReload.Attached | tensorboard/components_polymer3/tf_tensorboard/autoReloadBehavior.ts:82-88 | attaching starts listening for visibility changes and changes nothing else |
| AutoReload.Detached | tensorboard/components_polymer3/tf_tensorboard/autoReloadBehavior.ts:89-95 | detaching disarms the timer, stops listening, and changes nothing else |
| AutoReload.Initial | tensorboard/components_polymer3/tf_tensorboard/autoReloadBehavior.ts:60-73 | the flag starts as read from storage and the observer writes it back; the timer is armed exactly when that flag is set and not forced off; the host's `reload` is as given, reloading is not disabled, nothing is missed and nothing is listening yet |
| AutoReload.Step | tensorboard/components_polymer3/tf_tensorboard/autoReloadBehavior.ts:82-129 | one event never changes whether the host has `reload`, reloads at most once, reloads only on a timer or visibility event of a host with an enabled `reload`, and changes the flag only when it is the flag being set |
| AutoReload.Run | tensorboard/components_polymer3/tf_tensorboard/autoReloadBehavior.ts:82-129 | a run of events reloads at most once per event, and never without a host `reload` |
| AutoReload.RunConsistent | tensorboard/components_polymer3/tf_tensorboard/autoReloadBehavior.ts:96-117 | across any sequence of events from a consistent state (the initial state is one, by `InitialConsistent`), the stored value reads as the current flag, and the timer is armed only while auto-reload is on and not forced off |
| AutoReload.InitialConsistent | tensorboard/components_polymer3/tf_tensorboard/autoReloadBehavior.ts:60-73 | the element as created is consistent: the stored value reads as the flag, and the timer is armed only when the flag is set and not forced off |
| AutoReload.DetachedIsQuiet | tensorboard/components_polymer3/tf_tensorboard/autoReloadBehavior.ts:89-117 | after detaching, and until the flag is switched on or the element re-attached, no event reloads and the timer stays disarmed; switching the flag off is allowed |
| AutoReload.ForcedOffNeverReloads | tensorboard/components_polymer3/tf_tensorboard/autoReloadBehavior.ts:53-55 | with `_DisableAutoReload` present and no reload missed, no event makes the behaviour reload |

## Findings

| source | as written | input that shows it | evidently intended | confidence | as-written member | corrected member |
|---|---|---|---|---|---|---|
| tensorboard/components_polymer3/tf_tensorboard/tf-tensorboard.ts:661-663 | each piece `d` of the disabled string is a string, so `workingSet.delete(d.plugin)` deletes `undefined` and no disabled name leaves the working set | dashboards `[text]`, `disabledDashboards = "text"`, active list `[]`: the INACTIVE menu is shown but lists nothing | delete the disabled name itself (`workingSet.delete(d)`), so the menu is shown exactly when it lists a dashboard | high; not executed | Classification.InactiveDashboardsExistShowsEmptyMenu | Classification.InactiveDashboardsExistIntendedMeaning |
| tensorboard/components_polymer3/tf_tensorboard/tf-tensorboard.ts:751-753 | `div.firstChild.remove()` removes the container's first child node, which in a stamped container is the template's whitespace, not the dashboard view appended after it (lines 773 and 799) | a `removeDom` dashboard shown in a freshly stamped container, then switching to another dashboard: its container holds whitespace, comment, whitespace, view, and keeps the view; the view survives three switches away | remove the view (`firstElementChild`), as the comment at line 764 shows the authors know about comment nodes | medium, because it depends on the template's whitespace and comment surviving stamping; not executed | Selection.StampKeepsPreviousView | Selection.StampRemovesPrevious |

`Classification.InactiveDashboardsExist` models the code as written. `Classification.InactiveDashboardsExistIntended` is the corrected check.

Stamping (`Selection.RemovePrevious`, `Selection.EnsureSelectedDashboardStamped`) takes the removal as a parameter. `AsWritten` is the source's `firstChild` removal (`Selection.RemoveFirstChild`). `Intended` is the corrected `Selection.RemoveFirstElementChild`. `Selection.FirstChildKeepsView` compares the two removals on one container, and `Selection.StampRemovalsAgree` shows that they differ only in the previous dashboard's container.

## Left out

- Text.ToUpper: upper-cases only the ASCII letters `a`–`z`, because full Unicode case
  mapping is a library the model cannot see. Tab names outside ASCII are therefore
  modelled unchanged.
- Polymer templates, CSS and data binding are framework rendering. The tab row, the
  INACTIVE menu and the containers are kept only as the filters and maps they compute.
- `_onTemplateChanged` is left out. It builds `containersStamped` from a DOM query,
  which the model takes as an input.
- `_selectedDashboardComponent`, `_getDashboardFromIndex`, `_selectedStatus`,
  `_updateRouter`, `_updateTitle`, `openSettings`, `_getDataRefreshingClass` and
  `_activeDashboardsUpdated` are left out. None of them holds state that the model
  keeps:
  - `_getDashboardFromIndex`, `_selectedStatus` and `_getDataRefreshingClass` are
    template helpers. They are an array index, an equality test and a CSS class name.
  - `_selectedDashboardComponent` is a DOM query.
  - `_updateRouter` sets the router module, and `_updateTitle` sets the element's own
    `brand`.
  - `openSettings` opens the settings dialog.
  - `_activeDashboardsUpdated` is empty.
- `_homePath` is left out because it depends on WHATWG URL parsing and origin checks.
  The iframe `src` built in `_renderPluginIframe` is left out for the same reason. An
  iframe view is modelled only by the plugin it shows.
- Analytics calls, `window.location`, the hashchange listener,
  `_updateSelectedDashboardFromHash`, `ready` and the `tf_storage` reads and writes are
  browser I/O. Only the pathname join of `_selectedDashboardChanged` is kept.
- `RequestManager`, `Canceller` and the promises of `_reloadData` are left out. So are
  the environment, runs and experiments stores, the `_refreshing` flag, and the reload
  forwarded to the selected dashboard. The model keeps only the state a listing result
  sets, and counts each data reload.
- Dates, locale formatting and real `setTimeout` timing are not modelled. The timer is
  an armed flag, and the 30-second default of `autoReloadIntervalSecs` is not modelled.
- The source never clears a second timer: it leaves an old timer running if the
  observer arms again while armed. The armed flag cannot represent two timers. Polymer
  runs observers only on a change of value, and `SetEnabled` models that, so the
  situation does not arise in the model.
- `console.warn` and `console.error` logging is left out.
- `_paginationLimitValidate` and `_paginationLimitChanged` are left out. They are
  settings-dialog UI handlers: the first validates the input field, and the second's
  `setLimit` call is commented out.
- The contents of the built-in registry (`registry.ts`) are left out. The model takes
  the registry as a parameter.
- Plugin names that look like array indices are assumed not to occur. JavaScript
  enumerates such keys first. Names that are `Object.prototype` properties are also
  assumed not to occur (`constructor`, `toString`). So are names that break the
  unquoted CSS selector of the container lookup.
- A null plugins listing is not modelled. The merge guards against null, but the
  reordering's `Object.keys` and `_activeDashboards` would throw on it. The listing
  only ever holds `{}` or a response object.
- A container's child nodes are limited to the template's whitespace and comment plus
  the views the element appends.
- The element's `_isReloadDisabled` appears twice: `Selection` writes it and
  `AutoReload` reads it. Each module holds its own copy. In `AutoReload`, the
  `SetReloadDisabled` event stands for stamping's update.
- Attaching and detaching are assumed to alternate, as the element lifecycle
  guarantees. In the source, a second `attached()` without a `detached()` in between
  would register a second visibility listener, and `detached()` would remove only the
  last one. The model's `listening` flag cannot represent two listeners.
