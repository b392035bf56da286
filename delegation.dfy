/**
 * The delegation table of the store: BTC delegations keyed by the hash of
 * their staking transaction, with the conditional state write the lifecycle
 * relies on.
 */
module Delegation {
  import opened Model

  type Delegations = map<string, BTCDelegationDetails>

  /** Every record sits under its own staking hash. */
  predicate KeyedByHash(m: Delegations) {
    forall h :: h in m ==> m[h].stakingTxHashHex == h
  }

  /** `a` and `b` agree on everything but state and substate. */
  predicate SameExceptState(a: BTCDelegationDetails, b: BTCDelegationDetails) {
    a.(state := b.state, subState := b.subState) == b
  }

  function SaveNew(m: Delegations, d: BTCDelegationDetails): (r: Result<Delegations>)
    ensures r.Ok? <==> d.stakingTxHashHex !in m
    ensures r.Err? ==> r.error == DuplicateKey(d.stakingTxHashHex)
    ensures r.Ok? ==> r.value.Keys == m.Keys + {d.stakingTxHashHex} && r.value[d.stakingTxHashHex] == d
    ensures r.Ok? ==> forall h :: h in m ==> r.value[h] == m[h]
    ensures r.Ok? && KeyedByHash(m) ==> KeyedByHash(r.value)
  {
    if d.stakingTxHashHex in m then Err(DuplicateKey(d.stakingTxHashHex))
    else Ok(m[d.stakingTxHashHex := d])
  }

  function GetState(m: Delegations, h: string): (r: Result<DelegationState>)
    ensures r.Ok? <==> h in m
    ensures r.Ok? ==> r.value == m[h].state
    ensures r.Err? ==> r.error == NotFound(h)
  {
    if h in m then Ok(m[h].state) else Err(NotFound(h))
  }

  /** The state read alone agrees with the state of the whole record read. */
  lemma GetStateAgreesWithGet(m: Delegations, h: string)
    ensures Lookup(m, h).Ok? <==> GetState(m, h).Ok?
    ensures Lookup(m, h).Ok? ==> GetState(m, h).value == Lookup(m, h).value.state
    ensures Lookup(m, h).Err? ==> GetState(m, h).error == Lookup(m, h).error
  {
  }

  /** A saved delegation is read back as it was saved. */
  lemma SaveNewThenGet(m: Delegations, d: BTCDelegationDetails)
    requires SaveNew(m, d).Ok?
    ensures Lookup(SaveNew(m, d).value, d.stakingTxHashHex) == Ok(d)
    ensures GetState(SaveNew(m, d).value, d.stakingTxHashHex) == Ok(d.state)
  {
  }

  /**
   * The conditional write: state (and, when one is given, substate) of `h`
   * change only if its current state is one of the qualified previous
   * states. No record matching is reported as NotFound and changes nothing.
   */
  function UpdateState(
    m: Delegations, h: string, qualifiedPreviousStates: seq<DelegationState>,
    newState: DelegationState, newSubState: Option<DelegationSubState>
  ): (r: Result<Delegations>)
    ensures r.Ok? <==> h in m && m[h].state in qualifiedPreviousStates
    ensures r.Err? ==> r.error == NotFound(h)
    ensures r.Ok? ==> r.value.Keys == m.Keys
    ensures r.Ok? ==> r.value[h].state == newState
    ensures r.Ok? ==> r.value[h].subState == if newSubState.Some? then newSubState else m[h].subState
    ensures r.Ok? ==> SameExceptState(r.value[h], m[h])
    ensures r.Ok? ==> forall k :: k in m && k != h ==> r.value[k] == m[k]
    ensures r.Ok? && KeyedByHash(m) ==> KeyedByHash(r.value)
  {
    if h in m && m[h].state in qualifiedPreviousStates then
      var d := m[h];
      var subState := if newSubState.Some? then newSubState else d.subState;
      Ok(m[h := d.(state := newState, subState := subState)])
    else
      Err(NotFound(h))
  }

  /**
   * A state write applied a second time is rejected and leaves the table as
   * the first one made it, as long as the new state is not itself one of the
   * qualified previous states: replayed events take effect once.
   */
  lemma UpdateStateReplayRejected(
    m: Delegations, h: string, qualifiedPreviousStates: seq<DelegationState>,
    newState: DelegationState, newSubState: Option<DelegationSubState>)
    requires UpdateState(m, h, qualifiedPreviousStates, newState, newSubState).Ok?
    requires newState !in qualifiedPreviousStates
    ensures UpdateState(UpdateState(m, h, qualifiedPreviousStates, newState, newSubState).value,
                        h, qualifiedPreviousStates, newState, newSubState) == Err(NotFound(h))
  {
  }

  /** After a write goes through, the state read back is the new state. */
  lemma UpdateStateThenGetState(
    m: Delegations, h: string, qualifiedPreviousStates: seq<DelegationState>,
    newState: DelegationState, newSubState: Option<DelegationSubState>)
    requires UpdateState(m, h, qualifiedPreviousStates, newState, newSubState).Ok?
    ensures GetState(UpdateState(m, h, qualifiedPreviousStates, newState, newSubState).value, h) == Ok(newState)
  {
  }

  /** Appending one covenant signature to the unbonding signatures of `h`. */
  function AddCovenantSignature(m: Delegations, h: string, covenantBtcPkHex: string, signatureHex: string): (r: Result<Delegations>)
    ensures r.Ok? <==> h in m
    ensures r.Err? ==> r.error == NotFound(h)
    ensures r.Ok? ==> r.value.Keys == m.Keys
    ensures r.Ok? ==> r.value[h] == m[h].(covenantUnbondingSignatures :=
                                      m[h].covenantUnbondingSignatures + [CovenantSignature(covenantBtcPkHex, signatureHex)])
    ensures r.Ok? ==> forall k :: k in m && k != h ==> r.value[k] == m[k]
    ensures r.Ok? && KeyedByHash(m) ==> KeyedByHash(r.value)
  {
    if h in m then
      var d := m[h];
      Ok(m[h := d.(covenantUnbondingSignatures := d.covenantUnbondingSignatures + [CovenantSignature(covenantBtcPkHex, signatureHex)])])
    else
      Err(NotFound(h))
  }

  /** Every signature stored before is still stored, in its place, after an append. */
  lemma AddCovenantSignatureKeepsEarlier(m: Delegations, h: string, covenantBtcPkHex: string, signatureHex: string, i: nat)
    requires AddCovenantSignature(m, h, covenantBtcPkHex, signatureHex).Ok?
    requires i < |m[h].covenantUnbondingSignatures|
    ensures AddCovenantSignature(m, h, covenantBtcPkHex, signatureHex).value[h].covenantUnbondingSignatures[i]
            == m[h].covenantUnbondingSignatures[i]
  {
  }

  /** Recording the slashing transaction of the staking output of `h`. */
  function SetSlashingTx(m: Delegations, h: string, slashingTxHex: string, spendingHeight: uint32): (r: Result<Delegations>)
    ensures r.Ok? <==> h in m
    ensures r.Err? ==> r.error == NotFound(h)
    ensures r.Ok? ==> r.value.Keys == m.Keys
    ensures r.Ok? ==> r.value[h] == m[h].(slashingTx := SlashingTx(slashingTxHex, spendingHeight))
    ensures r.Ok? ==> forall k :: k in m && k != h ==> r.value[k] == m[k]
    ensures r.Ok? && KeyedByHash(m) ==> KeyedByHash(r.value)
  {
    if h in m then Ok(m[h := m[h].(slashingTx := SlashingTx(slashingTxHex, spendingHeight))])
    else Err(NotFound(h))
  }

  /** Recording the slashing transaction of the unbonding output of `h`. */
  function SetUnbondingSlashingTx(m: Delegations, h: string, unbondingSlashingTxHex: string, spendingHeight: uint32): (r: Result<Delegations>)
    ensures r.Ok? <==> h in m
    ensures r.Err? ==> r.error == NotFound(h)
    ensures r.Ok? ==> r.value.Keys == m.Keys
    ensures r.Ok? ==> r.value[h] == m[h].(unbondingSlashingTx := SlashingTx(unbondingSlashingTxHex, spendingHeight))
    ensures r.Ok? ==> forall k :: k in m && k != h ==> r.value[k] == m[k]
    ensures r.Ok? && KeyedByHash(m) ==> KeyedByHash(r.value)
  {
    if h in m then Ok(m[h := m[h].(unbondingSlashingTx := SlashingTx(unbondingSlashingTxHex, spendingHeight))])
    else Err(NotFound(h))
  }

  /**
   * Merging an update into a stored record: a non-empty state and non-zero
   * start and end heights of `details` overwrite the stored ones; everything
   * else, the identity included, is kept.
   */
  function MergeDetails(d: BTCDelegationDetails, details: BTCDelegationDetails): (r: BTCDelegationDetails)
    ensures r.stakingTxHashHex == d.stakingTxHashHex
    ensures details.state.name != "" ==> r.state == details.state
    ensures details.state.name == "" ==> r.state == d.state
    ensures details.startHeight != 0 ==> r.startHeight == details.startHeight
    ensures details.startHeight == 0 ==> r.startHeight == d.startHeight
    ensures details.endHeight != 0 ==> r.endHeight == details.endHeight
    ensures details.endHeight == 0 ==> r.endHeight == d.endHeight
    ensures r.(state := d.state, startHeight := d.startHeight, endHeight := d.endHeight) == d
  {
    d.(state := if details.state.name != "" then details.state else d.state,
       startHeight := if details.startHeight != 0 then details.startHeight else d.startHeight,
       endHeight := if details.endHeight != 0 then details.endHeight else d.endHeight)
  }

  /** Merging the same update twice is merging it once. */
  lemma MergeDetailsIdempotent(d: BTCDelegationDetails, details: BTCDelegationDetails)
    ensures MergeDetails(MergeDetails(d, details), details) == MergeDetails(d, details)
  {
  }

  function UpdateDetails(m: Delegations, h: string, details: BTCDelegationDetails): (r: Result<Delegations>)
    ensures r.Ok? <==> h in m
    ensures r.Err? ==> r.error == NotFound(h)
    ensures r.Ok? ==> r.value.Keys == m.Keys && r.value[h] == MergeDetails(m[h], details)
    ensures r.Ok? ==> forall k :: k in m && k != h ==> r.value[k] == m[k]
    ensures r.Ok? && KeyedByHash(m) ==> KeyedByHash(r.value)
  {
    if h in m then Ok(m[h := MergeDetails(m[h], details)]) else Err(NotFound(h))
  }

  /** True when the delegation is delegated to the finality provider `fpBtcPkHex`. */
  predicate DelegatesTo(d: BTCDelegationDetails, fpBtcPkHex: string) {
    fpBtcPkHex in d.finalityProviderBtcPksHex
  }

  /** The filter selecting the delegations to a finality provider. */
  function DelegatesToFilter(fpBtcPkHex: string): BTCDelegationDetails -> bool {
    (d: BTCDelegationDetails) => DelegatesTo(d, fpBtcPkHex)
  }

  /** The filter selecting the delegations whose state is one of `states`. */
  function InStatesFilter(states: seq<DelegationState>): BTCDelegationDetails -> bool {
    (d: BTCDelegationDetails) => d.state in states
  }

  /** The staking hashes of a list of delegations. */
  function Hashes(ds: seq<BTCDelegationDetails>): set<string> {
    set i | 0 <= i < |ds| :: ds[i].stakingTxHashHex
  }

  /** Setting the state of every delegation to the finality provider, whatever its current state. */
  function UpdateStatesByFinalityProvider(m: Delegations, fpBtcPkHex: string, newState: DelegationState): (r: Delegations)
    ensures r.Keys == m.Keys
    ensures forall h :: h in m && DelegatesTo(m[h], fpBtcPkHex) ==> r[h] == m[h].(state := newState)
    ensures forall h :: h in m && !DelegatesTo(m[h], fpBtcPkHex) ==> r[h] == m[h]
    ensures KeyedByHash(m) ==> KeyedByHash(r)
  {
    map h | h in m :: if DelegatesTo(m[h], fpBtcPkHex) then m[h].(state := newState) else m[h]
  }
}
