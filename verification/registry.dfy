/**
  The dashboard registry of `tf-tensorboard`: the built-in (legacy) entries
  overlaid with the entries the backend's plugins listing describes, then
  reordered so that the plugins the listing names come first, in listing
  order. The built-in registry is a parameter.
 */
module Registry {
  import opened Base
  import opened Seqs
  import opened Text
  import opened OrderedMap

  /** How a dashboard's view is created: a custom element or an embedded frame. */
  datatype LoadingMechanism =
    | CustomElement(elementName: string)
    | Iframe(modulePath: string)

  /** One entry of the merged registry. */
  datatype DashboardDatum = DashboardDatum(
    plugin: string,
    loadingMechanism: LoadingMechanism,
    tabName: string,
    disableReload: bool,
    removeDom: bool)

  /** A built-in registry entry; the two optional flags may be left undefined. */
  datatype LegacyEntry = LegacyEntry(
    plugin: string,
    elementName: string,
    tabName: string,
    isReloadDisabled: Option<bool>,
    shouldRemoveDom: Option<bool>)

  /** The `loading_mechanism.type` a backend reports, with its payload. */
  datatype BackendMechanism =
    | NoMechanism
    | CustomElementMechanism(elementName: string)
    | IframeMechanism(modulePath: string)
    | UnknownMechanism(kind: string)

  /** A backend plugin description. */
  datatype PluginMetadata = PluginMetadata(
    enabled: bool,
    loadingMechanism: BackendMechanism,
    tabName: string,
    disableReload: bool,
    removeDom: bool)

  /** A value of the plugins listing: a bare flag from older backends, or metadata. */
  datatype ListingValue =
    | LegacyFlag(flag: bool)
    | Metadata(metadata: PluginMetadata)

  type Listing = OMap<ListingValue>

  /** A built-in entry as a registry entry: a custom element, the tab name
      upper-cased, and both flags false unless set. */
  function FromLegacy(l: LegacyEntry): (d: DashboardDatum)
    ensures d.plugin == l.plugin
    ensures d.loadingMechanism == CustomElement(l.elementName)
    ensures d.tabName == ToUpper(l.tabName)
    ensures IsUpperCase(d.tabName) && |d.tabName| == |l.tabName|
    ensures d.disableReload <==> l.isReloadDisabled == Some(true)
    ensures d.removeDom <==> l.shouldRemoveDom == Some(true)
  {
    DashboardDatum(
      l.plugin,
      CustomElement(l.elementName),
      ToUpper(l.tabName),
      l.isReloadDisabled.GetOr(false),
      l.shouldRemoveDom.GetOr(false))
  }

  /** The mechanism a backend entry can be mounted with, if any: `NONE` and
      unknown kinds give none. */
  function Mountable(m: BackendMechanism): Option<LoadingMechanism> {
    match m
    case CustomElementMechanism(e) => Some(CustomElement(e))
    case IframeMechanism(p) => Some(Iframe(p))
    case NoMechanism => None
    case UnknownMechanism(_) => None
  }

  /** A backend entry as a registry entry, named by its listing key. */
  function FromBackend(name: string, md: PluginMetadata, mech: LoadingMechanism): (d: DashboardDatum)
    ensures d.plugin == name && d.loadingMechanism == mech
    ensures d.tabName == ToUpper(md.tabName)
    ensures IsUpperCase(d.tabName) && |d.tabName| == |md.tabName|
    ensures d.disableReload == md.disableReload && d.removeDom == md.removeDom
  {
    DashboardDatum(name, mech, ToUpper(md.tabName), md.disableReload, md.removeDom)
  }

  /** The first loop: every built-in entry converted, under the same key. */
  function LegacyData(legacy: OMap<LegacyEntry>): (r: OMap<DashboardDatum>)
    ensures Keys(r) == Keys(legacy)
  {
    if |legacy| == 0 then []
    else [(legacy[0].0, FromLegacy(legacy[0].1))] + LegacyData(legacy[1..])
  }

  /** The listing entries the second loop assigns, in listing order:
      metadata whose mechanism can be mounted. Bare flags, `NONE` and
      unknown kinds are skipped. */
  function BackendData(listing: Listing): (r: OMap<DashboardDatum>)
    ensures IsSubsequence(Keys(r), Keys(listing))
    ensures forall k :: k in Keys(r) ==> k in Keys(listing)
    ensures WellFormed(listing) ==> WellFormed(r)
    ensures WellFormed(listing) ==> forall k :: Get(r, k) == BackendEntry(listing, k)
  {
    if |listing| == 0 then []
    else
      var rest := BackendData(listing[1..]);
      BackendConsStep(listing, rest);
      BackendCons(listing[0], rest)
  }

  /** One step of the second loop: the entry for the pair `p`, if mountable,
      in front of the entries already collected. */
  function BackendCons(p: (string, ListingValue), rest: OMap<DashboardDatum>): OMap<DashboardDatum> {
    match p.1
    case LegacyFlag(_) => rest
    case Metadata(md) =>
      match Mountable(md.loadingMechanism)
      case None => rest
      case Some(mech) => [(p.0, FromBackend(p.0, md, mech))] + rest
  }

  /** What `BackendData` promises for the tail carries over to one more pair. */
  lemma BackendConsStep(listing: Listing, rest: OMap<DashboardDatum>)
    requires |listing| > 0
    requires IsSubsequence(Keys(rest), Keys(listing[1..]))
    requires forall k :: k in Keys(rest) ==> k in Keys(listing[1..])
    requires WellFormed(listing[1..]) ==> WellFormed(rest)
    requires WellFormed(listing[1..]) ==> forall k :: Get(rest, k) == BackendEntry(listing[1..], k)
    ensures var r := BackendCons(listing[0], rest);
      && IsSubsequence(Keys(r), Keys(listing))
      && (forall k :: k in Keys(r) ==> k in Keys(listing))
      && (WellFormed(listing) ==> WellFormed(r))
      && (WellFormed(listing) ==> forall k :: Get(r, k) == BackendEntry(listing, k))
  {
    var k0 := listing[0].0;
    var r := BackendCons(listing[0], rest);
    assert Keys(listing) == [k0] + Keys(listing[1..]);
    SubsequenceCons(Keys(rest), k0, Keys(listing[1..]));
    if WellFormed(listing) {
      assert Keys(listing[1..]) == Keys(listing)[1..];
      HeadNotInTail(k0, Keys(listing[1..]));
      assert k0 !in Keys(rest);
      forall k ensures Get(r, k) == BackendEntry(listing, k) {
        if k != k0 {
          assert Get(listing, k) == Get(listing[1..], k);
        }
      }
    }
    if r != rest {
      assert Keys(r) == [k0] + Keys(rest);
      assert WellFormed(listing) ==> WellFormed(r) by {
        if WellFormed(listing) {
          DistinctConcat([k0], Keys(rest));
        }
      }
    }
  }

  /** The registry before reordering: built-in entries, overwritten or
      extended by the mountable backend entries. */
  function Merged(legacy: OMap<LegacyEntry>, listing: Listing): OMap<DashboardDatum> {
    PutAll(PutAll([], LegacyData(legacy)), BackendData(listing))
  }

  /** The entries of `reg` whose keys occur in `names`, in the order of `names`. */
  function Pick(names: seq<string>, reg: OMap<DashboardDatum>): (r: OMap<DashboardDatum>)
    ensures Keys(r) == KeepIn(names, Keys(reg))
    ensures forall k :: Get(r, k) == if k in names then Get(reg, k) else None
  {
    if |names| == 0 then []
    else
      var rest := Pick(names[1..], reg);
      assert forall k :: k in names <==> k == names[0] || k in names[1..];
      match Get(reg, names[0])
      case Some(v) => [(names[0], v)] + rest
      case None => rest
  }

  /** The reordering: listing names present in `reg` first, then
      `Object.assign` of the whole of `reg`. */
  function Ordered(listing: Listing, reg: OMap<DashboardDatum>): OMap<DashboardDatum> {
    PutAll(PutAll([], Pick(Keys(listing), reg)), reg)
  }

  /** `_dashboardRegistry`. */
  function DashboardRegistry(legacy: OMap<LegacyEntry>, listing: Listing): OMap<DashboardDatum> {
    Ordered(listing, Merged(legacy, listing))
  }

  /** `_dashboardData`: the registry's values in key order. */
  function DashboardData(legacy: OMap<LegacyEntry>, listing: Listing): seq<DashboardDatum> {
    Values(DashboardRegistry(legacy, listing))
  }

  /** What the backend says about one plugin: an entry exactly when its
      listing value is metadata with a mountable mechanism. */
  function BackendEntry(listing: Listing, name: string): Option<DashboardDatum> {
    var v: Option<ListingValue> := Get(listing, name);
    if v.Some? && v.value.Metadata? then
      var md := v.value.metadata;
      match Mountable(md.loadingMechanism)
      case Some(mech) => Some(FromBackend(name, md, mech))
      case None => None
    else None
  }

  /** The registry entry one plugin name should have, key by key: the
      backend's when it gives one, otherwise the converted built-in one. */
  function ExpectedEntry(legacy: OMap<LegacyEntry>, listing: Listing, name: string): Option<DashboardDatum> {
    match BackendEntry(listing, name)
    case Some(d) => Some(d)
    case None =>
      (match Get(legacy, name)
       case Some(l) => Some(FromLegacy(l))
       case None => None)
  }

  /** The converted built-in entries read as the converted built-in lookups. */
  lemma {:induction false} LegacyDataGet(legacy: OMap<LegacyEntry>, name: string)
    ensures Get(LegacyData(legacy), name) ==
      match Get(legacy, name) case Some(l) => Some(FromLegacy(l)) case None => None
  {
    if |legacy| > 0 && legacy[0].0 != name {
      LegacyDataGet(legacy[1..], name);
    }
  }

  /** Reordering keeps every lookup. */
  lemma OrderedGet(listing: Listing, reg: OMap<DashboardDatum>, name: string)
    requires WellFormed(listing) && WellFormed(reg)
    ensures Get(Ordered(listing, reg), name) == Get(reg, name)
  {
    var first := Pick(Keys(listing), reg);
    PutAllFromEmpty(first);
    PutAllGet(PutAll([], first), reg, name);
  }

  /** Reordering puts the listing's names that the registry has first, in
      listing order, then the registry's other keys in their own order. */
  lemma OrderedKeys(listing: Listing, reg: OMap<DashboardDatum>)
    requires WellFormed(listing) && WellFormed(reg)
    ensures Keys(Ordered(listing, reg)) ==
      KeepIn(Keys(listing), Keys(reg)) + Without(Keys(reg), Keys(listing))
    ensures WellFormed(Ordered(listing, reg))
  {
    var first := Pick(Keys(listing), reg);
    PutAllFromEmpty(first);
    PutAllKeys(PutAll([], first), reg);
    WithoutCongruent(Keys(reg), KeepIn(Keys(listing), Keys(reg)), Keys(listing));
    PutAllWellFormed(PutAll([], first), reg);
  }

  /** The merged registry holds the built-in keys in their order, followed
      by the new mountable backend keys in listing order. */
  lemma MergedKeys(legacy: OMap<LegacyEntry>, listing: Listing)
    requires WellFormed(legacy) && WellFormed(listing)
    ensures Keys(Merged(legacy, listing)) ==
      Keys(legacy) + Without(Keys(BackendData(listing)), Keys(legacy))
    ensures WellFormed(Merged(legacy, listing))
  {
    PutAllFromEmpty(LegacyData(legacy));
    PutAllKeys(PutAll([], LegacyData(legacy)), BackendData(listing));
    PutAllWellFormed(PutAll([], LegacyData(legacy)), BackendData(listing));
  }

  /** Every lookup in the merged registry gives the key-by-key expected entry. */
  lemma MergedGet(legacy: OMap<LegacyEntry>, listing: Listing, name: string)
    requires WellFormed(legacy) && WellFormed(listing)
    ensures Get(Merged(legacy, listing), name) == ExpectedEntry(legacy, listing, name)
  {
    PutAllFromEmpty(LegacyData(legacy));
    PutAllGet(PutAll([], LegacyData(legacy)), BackendData(listing), name);
    LegacyDataGet(legacy, name);
  }

  /** `_dashboardRegistry`, key by key: a `CUSTOM_ELEMENT` or `IFRAME`
      backend entry replaces the built-in entry of the same name; a bare
      flag, `NONE` or an unknown mechanism leaves the built-in entry, or its
      absence, as it was. A name is a key exactly when it has an entry. */
  lemma RegistryGet(legacy: OMap<LegacyEntry>, listing: Listing, name: string)
    requires WellFormed(legacy) && WellFormed(listing)
    ensures Get(DashboardRegistry(legacy, listing), name) == ExpectedEntry(legacy, listing, name)
    ensures name in Keys(DashboardRegistry(legacy, listing)) <==> ExpectedEntry(legacy, listing, name).Some?
  {
    MergedKeys(legacy, listing);
    OrderedGet(listing, Merged(legacy, listing), name);
    MergedGet(legacy, listing, name);
  }

  /** `_dashboardRegistry`'s key order: the listing's plugins that have an
      entry come first in listing order, the remaining keys follow in the
      order of the merged registry; no key repeats. */
  lemma RegistryKeys(legacy: OMap<LegacyEntry>, listing: Listing)
    requires WellFormed(legacy) && WellFormed(listing)
    ensures var merged := Merged(legacy, listing);
      Keys(DashboardRegistry(legacy, listing)) ==
        KeepIn(Keys(listing), Keys(merged)) + Without(Keys(merged), Keys(listing))
    ensures WellFormed(DashboardRegistry(legacy, listing))
  {
    MergedKeys(legacy, listing);
    OrderedKeys(listing, Merged(legacy, listing));
  }

  /** Every tab name in `_dashboardData` is upper-cased. */
  lemma DashboardDataTabNames(legacy: OMap<LegacyEntry>, listing: Listing)
    requires WellFormed(legacy) && WellFormed(listing)
    ensures forall i :: 0 <= i < |DashboardData(legacy, listing)| ==>
      IsUpperCase(DashboardData(legacy, listing)[i].tabName)
  {
    var reg := DashboardRegistry(legacy, listing);
    RegistryKeys(legacy, listing);
    forall i | 0 <= i < |reg|
      ensures IsUpperCase(Values(reg)[i].tabName)
    {
      GetAt(reg, i);
      RegistryGet(legacy, listing, reg[i].0);
    }
  }
}
