/** The finality-provider table of the store, keyed by BTC public key. */
module FinalityProvider {
  import opened Model

  type FinalityProviders = map<string, FinalityProviderDetails>

  /** Every record sits under its own BTC public key. */
  predicate KeyedByPk(m: FinalityProviders) {
    forall pk :: pk in m ==> m[pk].btcPk == pk
  }

  function SaveNew(m: FinalityProviders, fp: FinalityProviderDetails): (r: Result<FinalityProviders>)
    ensures r.Ok? <==> fp.btcPk !in m
    ensures r.Err? ==> r.error == DuplicateKey(fp.btcPk)
    ensures r.Ok? ==> r.value.Keys == m.Keys + {fp.btcPk} && r.value[fp.btcPk] == fp
    ensures r.Ok? ==> forall pk :: pk in m ==> r.value[pk] == m[pk]
    ensures r.Ok? && KeyedByPk(m) ==> KeyedByPk(r.value)
  {
    if fp.btcPk in m then Err(DuplicateKey(fp.btcPk)) else Ok(m[fp.btcPk := fp])
  }

  /** A saved finality provider is read back as it was saved. */
  lemma SaveNewThenGet(m: FinalityProviders, fp: FinalityProviderDetails)
    requires SaveNew(m, fp).Ok?
    ensures Lookup(SaveNew(m, fp).value, fp.btcPk) == Ok(fp)
  {
  }

  function UpdateState(m: FinalityProviders, btcPk: string, newState: string): (r: Result<FinalityProviders>)
    ensures r.Ok? <==> btcPk in m
    ensures r.Err? ==> r.error == NotFound(btcPk)
    ensures r.Ok? ==> r.value.Keys == m.Keys && r.value[btcPk] == m[btcPk].(state := newState)
    ensures r.Ok? ==> forall pk :: pk in m && pk != btcPk ==> r.value[pk] == m[pk]
    ensures r.Ok? && KeyedByPk(m) ==> KeyedByPk(r.value)
  {
    if btcPk in m then Ok(m[btcPk := m[btcPk].(state := newState)]) else Err(NotFound(btcPk))
  }

  /** The stored value of a field, replaced by the event's value when that is not empty. */
  function Pick(stored: string, fromEvent: string): string {
    if fromEvent != "" then fromEvent else stored
  }

  /**
   * Merging an update event into a stored record: the commission and the
   * description fields that are non-empty in the event overwrite the stored
   * ones; key, address and state are kept.
   */
  function MergeEvent(stored: FinalityProviderDetails, event: FinalityProviderDetails): (r: FinalityProviderDetails)
    ensures r.btcPk == stored.btcPk && r.babylonAddress == stored.babylonAddress && r.state == stored.state
  {
    stored.(
      commission := Pick(stored.commission, event.commission),
      description := Description(
        Pick(stored.description.moniker, event.description.moniker),
        Pick(stored.description.identity, event.description.identity),
        Pick(stored.description.website, event.description.website),
        Pick(stored.description.securityContact, event.description.securityContact),
        Pick(stored.description.details, event.description.details)))
  }

  /** The fields an event can carry, as a list, so that one statement covers them all. */
  function EventFields(fp: FinalityProviderDetails): seq<string> {
    [fp.commission, fp.description.moniker, fp.description.identity,
     fp.description.website, fp.description.securityContact, fp.description.details]
  }

  /** Each event field of the merge is the event's value when non-empty and the stored value otherwise. */
  lemma MergeEventOverwritesExactlyNonEmpty(stored: FinalityProviderDetails, event: FinalityProviderDetails, i: nat)
    requires i < 6
    ensures |EventFields(MergeEvent(stored, event))| == 6
    ensures EventFields(event)[i] != "" ==> EventFields(MergeEvent(stored, event))[i] == EventFields(event)[i]
    ensures EventFields(event)[i] == "" ==> EventFields(MergeEvent(stored, event))[i] == EventFields(stored)[i]
  {
  }

  /** An event with every field empty changes nothing. */
  lemma MergeEmptyEventIsIdentity(stored: FinalityProviderDetails, event: FinalityProviderDetails)
    requires forall i :: 0 <= i < 6 ==> EventFields(event)[i] == ""
    ensures MergeEvent(stored, event) == stored
  {
    assert EventFields(event)[0] == "" && EventFields(event)[1] == "" && EventFields(event)[2] == "";
    assert EventFields(event)[3] == "" && EventFields(event)[4] == "" && EventFields(event)[5] == "";
  }

  /** Applying the same event twice is applying it once. */
  lemma MergeEventIdempotent(stored: FinalityProviderDetails, event: FinalityProviderDetails)
    ensures MergeEvent(MergeEvent(stored, event), event) == MergeEvent(stored, event)
  {
  }

  /** The provider named by the event's key, updated from the event. */
  function UpdateDetailsFromEvent(m: FinalityProviders, event: FinalityProviderDetails): (r: Result<FinalityProviders>)
    ensures r.Ok? <==> event.btcPk in m
    ensures r.Err? ==> r.error == NotFound(event.btcPk)
    ensures r.Ok? ==> r.value.Keys == m.Keys && r.value[event.btcPk] == MergeEvent(m[event.btcPk], event)
    ensures r.Ok? ==> forall pk :: pk in m && pk != event.btcPk ==> r.value[pk] == m[pk]
    ensures r.Ok? && KeyedByPk(m) ==> KeyedByPk(r.value)
  {
    if event.btcPk in m then Ok(m[event.btcPk := MergeEvent(m[event.btcPk], event)])
    else Err(NotFound(event.btcPk))
  }
}
