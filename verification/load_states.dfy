/**
  The load state of the active-dashboards set in `tf-tensorboard`: how the
  answers to `_fetchPluginsListing` move it, the three flags derived from it,
  and the two warning messages that depend on it.
 */
module LoadStates {
  import opened Base
  import opened OrderedMap
  import opened Registry

  /** `ActiveDashboardsLoadState`. */
  datatype LoadState = NotLoaded | Loaded | Failed

  /** How one plugins-listing request ends: a value delivered through the
      canceller (possibly marked cancelled because a newer fetch started), or
      a failure. */
  datatype ListingResult =
    | Fetched(cancelled: bool, value: Listing)
    | FetchFailed

  /** The part of the element a listing result updates. */
  datatype ListingState = ListingState(listing: Listing, loadState: LoadState)

  /** The success and failure callbacks of `_fetchPluginsListing`. */
  function OnListingResult(st: ListingState, r: ListingResult): (st': ListingState)
    ensures st.loadState == Loaded ==> st'.loadState == Loaded
    ensures st'.loadState == NotLoaded ==> st.loadState == NotLoaded
    ensures st'.listing != st.listing ==> r.Fetched? && !r.cancelled && st'.listing == r.value
    ensures Delivered(r) ==> st' == ListingState(r.value, Loaded)
    ensures r.Fetched? && r.cancelled ==> st' == st
    ensures r.FetchFailed? ==> st'.listing == st.listing
    ensures r.FetchFailed? ==> st'.loadState == if st.loadState == NotLoaded then Failed else st.loadState
  {
    match r
    case Fetched(cancelled, value) =>
      if cancelled then st else ListingState(value, Loaded)
    case FetchFailed =>
      if st.loadState == NotLoaded then st.(loadState := Failed) else st
  }

  /** The state after a sequence of results, delivered in order. */
  function RunListing(st: ListingState, rs: seq<ListingResult>): (st': ListingState)
    ensures st.loadState == Loaded ==> st'.loadState == Loaded
    ensures st'.loadState == NotLoaded ==> st.loadState == NotLoaded
    decreases |rs|
  {
    if |rs| == 0 then st else RunListing(OnListingResult(st, rs[0]), rs[1..])
  }

  /** A result that installs its listing. */
  predicate Delivered(r: ListingResult) {
    r.Fetched? && !r.cancelled
  }

  /** After any sequence of results the state is LOADED exactly when it was
      LOADED before or some result was delivered uncancelled; it is still
      NOT_LOADED exactly when it was and every result was cancelled; and
      without an uncancelled delivery the listing is untouched. */
  lemma {:induction false} RunListingState(st: ListingState, rs: seq<ListingResult>)
    ensures RunListing(st, rs).loadState == Loaded <==>
      st.loadState == Loaded || exists i :: 0 <= i < |rs| && Delivered(rs[i])
    ensures RunListing(st, rs).loadState == NotLoaded <==>
      st.loadState == NotLoaded && forall i :: 0 <= i < |rs| ==> rs[i].Fetched? && rs[i].cancelled
    ensures (forall i :: 0 <= i < |rs| ==> !Delivered(rs[i])) ==> RunListing(st, rs).listing == st.listing
    decreases |rs|
  {
    if |rs| > 0 {
      RunListingState(OnListingResult(st, rs[0]), rs[1..]);
      assert forall i :: 1 <= i < |rs| ==> rs[i] == rs[1..][i - 1];
      if exists i :: 1 <= i < |rs| && Delivered(rs[i]) {
        var i :| 1 <= i < |rs| && Delivered(rs[i]);
        assert Delivered(rs[1..][i - 1]);
      }
    }
  }

  /** When some result was delivered uncancelled, the listing in place at the
      end is the value of the last such result. */
  lemma {:induction false} RunListingLastDelivered(st: ListingState, rs: seq<ListingResult>)
    requires exists i :: 0 <= i < |rs| && Delivered(rs[i])
    ensures exists i ::
      && 0 <= i < |rs| && Delivered(rs[i])
      && RunListing(st, rs).listing == rs[i].value
      && (forall j :: i < j < |rs| ==> !Delivered(rs[j]))
    decreases |rs|
  {
    var st1 := OnListingResult(st, rs[0]);
    var tail := rs[1..];
    assert forall j :: 1 <= j < |rs| ==> rs[j] == tail[j - 1];
    var i0 :| 0 <= i0 < |rs| && Delivered(rs[i0]);
    if i0 > 0 || exists i :: 0 <= i < |tail| && Delivered(tail[i]) {
      if i0 > 0 {
        assert Delivered(tail[i0 - 1]);
      }
      RunListingLastDelivered(st1, tail);
      var i :|
        && 0 <= i < |tail| && Delivered(tail[i])
        && RunListing(st1, tail).listing == tail[i].value
        && (forall j :: i < j < |tail| ==> !Delivered(tail[j]));
      assert Delivered(rs[i + 1]) && RunListing(st, rs).listing == rs[i + 1].value;
      assert forall j :: i + 1 < j < |rs| ==> !Delivered(rs[j]) by {
        forall j | i + 1 < j < |rs| ensures !Delivered(rs[j]) {
          assert rs[j] == tail[j - 1];
        }
      }
    } else {
      RunListingState(st1, tail);
      assert RunListing(st, rs).listing == rs[0].value;
    }
  }

  /** `_activeDashboardsNotLoaded`. */
  predicate NotLoadedFlag(s: LoadState) { s == NotLoaded }

  /** `_activeDashboardsLoaded`. */
  predicate LoadedFlag(s: LoadState) { s == Loaded }

  /** `_activeDashboardsFailedToLoad`. */
  predicate FailedFlag(s: LoadState) { s == Failed }

  /** Exactly one of the three derived flags is true. */
  lemma ExactlyOneFlag(s: LoadState)
    ensures NotLoadedFlag(s) || LoadedFlag(s) || FailedFlag(s)
    ensures !(NotLoadedFlag(s) && LoadedFlag(s))
    ensures !(NotLoadedFlag(s) && FailedFlag(s))
    ensures !(LoadedFlag(s) && FailedFlag(s))
  {
  }

  /** `_showNoDashboardsMessage`. */
  predicate ShowNoDashboardsMessage(s: LoadState, active: seq<string>, selected: Option<string>) {
    LoadedFlag(s) && |active| == 0 && selected.None?
  }

  /** `_showNoSuchDashboardMessage`. */
  predicate ShowNoSuchDashboardMessage(s: LoadState, registry: OMap<DashboardDatum>, selected: Option<string>) {
    LoadedFlag(s) && Truthy(selected) && Get(registry, selected.value).None?
  }

  /** Neither warning appears unless the active set is loaded, they never
      appear together, and the "no such dashboard" warning names a selection
      the registry lacks. */
  lemma MessagesExclusive(s: LoadState, active: seq<string>, registry: OMap<DashboardDatum>, selected: Option<string>)
    ensures ShowNoDashboardsMessage(s, active, selected) ==> s == Loaded
    ensures ShowNoSuchDashboardMessage(s, registry, selected) ==>
      s == Loaded && selected.Some? && selected.value !in Keys(registry)
    ensures !(ShowNoDashboardsMessage(s, active, selected) && ShowNoSuchDashboardMessage(s, registry, selected))
  {
  }
}
