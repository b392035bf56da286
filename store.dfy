/**
 * An in-memory reference store behind the indexer's database interface:
 * finality providers, staking and checkpoint parameters, BTC delegations,
 * timelock-expiry markers and the last processed consensus-chain height.
 * Each method is one atomic call on the store; its effect is stated in terms
 * of the table functions of the modules it imports.
 */
module Db {
  import opened Model
  import Query
  import TimeLock
  import Delegation
  import FinalityProvider

  class Database {
    var finalityProviders: FinalityProvider.FinalityProviders
    var stakingParams: map<uint32, StakingParams>
    var checkpointParams: Option<CheckpointParams>
    var delegations: Delegation.Delegations
    var timeLocks: TimeLock.Markers
    var lastProcessedBbnHeight: uint64

    /** Every record is stored under its own key. */
    ghost predicate Valid()
      reads this
    {
      FinalityProvider.KeyedByPk(finalityProviders) && Delegation.KeyedByHash(delegations)
    }

    constructor ()
      ensures Valid()
      ensures finalityProviders == map[] && stakingParams == map[] && checkpointParams == None
      ensures delegations == map[] && timeLocks == map[] && lastProcessedBbnHeight == 0
    {
      finalityProviders := map[];
      stakingParams := map[];
      checkpointParams := None;
      delegations := map[];
      timeLocks := map[];
      lastProcessedBbnHeight := 0;
    }

    // Finality providers

    method SaveNewFinalityProvider(fpDoc: FinalityProviderDetails) returns (res: Outcome)
      requires Valid()
      modifies this`finalityProviders
      ensures Valid()
      ensures res == FinalityProvider.SaveNew(old(finalityProviders), fpDoc).ToOutcome()
      ensures finalityProviders == FinalityProvider.SaveNew(old(finalityProviders), fpDoc).GetOr(old(finalityProviders))
    {
      var r := FinalityProvider.SaveNew(finalityProviders, fpDoc);
      if r.Ok? {
        finalityProviders := r.value;
      }
      res := r.ToOutcome();
    }

    method UpdateFinalityProviderState(btcPk: string, newState: string) returns (res: Outcome)
      requires Valid()
      modifies this`finalityProviders
      ensures Valid()
      ensures res == FinalityProvider.UpdateState(old(finalityProviders), btcPk, newState).ToOutcome()
      ensures finalityProviders == FinalityProvider.UpdateState(old(finalityProviders), btcPk, newState).GetOr(old(finalityProviders))
    {
      var r := FinalityProvider.UpdateState(finalityProviders, btcPk, newState);
      if r.Ok? {
        finalityProviders := r.value;
      }
      res := r.ToOutcome();
    }

    method UpdateFinalityProviderDetailsFromEvent(detailsToUpdate: FinalityProviderDetails) returns (res: Outcome)
      requires Valid()
      modifies this`finalityProviders
      ensures Valid()
      ensures res == FinalityProvider.UpdateDetailsFromEvent(old(finalityProviders), detailsToUpdate).ToOutcome()
      ensures finalityProviders == FinalityProvider.UpdateDetailsFromEvent(old(finalityProviders), detailsToUpdate).GetOr(old(finalityProviders))
    {
      var r := FinalityProvider.UpdateDetailsFromEvent(finalityProviders, detailsToUpdate);
      if r.Ok? {
        finalityProviders := r.value;
      }
      res := r.ToOutcome();
    }

    method GetFinalityProviderByBtcPk(btcPk: string) returns (r: Result<FinalityProviderDetails>)
      ensures r == Lookup(finalityProviders, btcPk)
    {
      r := Lookup(finalityProviders, btcPk);
    }

    // Parameters

    method SaveStakingParams(version: uint32, params: StakingParams) returns (res: Outcome)
      modifies this`stakingParams
      ensures res == Done
      ensures stakingParams == old(stakingParams)[version := params]
    {
      stakingParams := stakingParams[version := params];
      res := Done;
    }

    method GetStakingParams(version: uint32) returns (r: Result<StakingParams>)
      ensures r.Ok? <==> version in stakingParams
      ensures r.Ok? ==> r.value == stakingParams[version]
      ensures r.Err? ==> r.error == VersionNotFound(version)
    {
      if version in stakingParams {
        r := Ok(stakingParams[version]);
      } else {
        r := Err(VersionNotFound(version));
      }
    }

    method SaveCheckpointParams(params: CheckpointParams) returns (res: Outcome)
      modifies this`checkpointParams
      ensures res == Done
      ensures checkpointParams == Some(params)
    {
      checkpointParams := Some(params);
      res := Done;
    }

    // BTC delegations

    method SaveNewBTCDelegation(delegationDoc: BTCDelegationDetails) returns (res: Outcome)
      requires Valid()
      modifies this`delegations
      ensures Valid()
      ensures res == Delegation.SaveNew(old(delegations), delegationDoc).ToOutcome()
      ensures delegations == Delegation.SaveNew(old(delegations), delegationDoc).GetOr(old(delegations))
    {
      var r := Delegation.SaveNew(delegations, delegationDoc);
      if r.Ok? {
        delegations := r.value;
      }
      res := r.ToOutcome();
    }

    /**
     * The conditional write: the state of `stakingTxHash` becomes `newState`
     * (and its substate `newSubState`, when one is given) only if its current
     * state is one of `qualifiedPreviousStates`.
     */
    method UpdateBTCDelegationState(
      stakingTxHash: string,
      qualifiedPreviousStates: seq<DelegationState>,
      newState: DelegationState,
      newSubState: Option<DelegationSubState>
    ) returns (res: Outcome)
      requires Valid()
      modifies this`delegations
      ensures Valid()
      ensures res == Done <==> stakingTxHash in old(delegations) && old(delegations)[stakingTxHash].state in qualifiedPreviousStates
      ensures res == Delegation.UpdateState(old(delegations), stakingTxHash, qualifiedPreviousStates, newState, newSubState).ToOutcome()
      ensures delegations == Delegation.UpdateState(old(delegations), stakingTxHash, qualifiedPreviousStates, newState, newSubState).GetOr(old(delegations))
    {
      var r := Delegation.UpdateState(delegations, stakingTxHash, qualifiedPreviousStates, newState, newSubState);
      if r.Ok? {
        delegations := r.value;
      }
      res := r.ToOutcome();
    }

    method SaveBTCDelegationUnbondingCovenantSignature(stakingTxHash: string, covenantBtcPkHex: string, signatureHex: string)
      returns (res: Outcome)
      requires Valid()
      modifies this`delegations
      ensures Valid()
      ensures res == Delegation.AddCovenantSignature(old(delegations), stakingTxHash, covenantBtcPkHex, signatureHex).ToOutcome()
      ensures delegations == Delegation.AddCovenantSignature(old(delegations), stakingTxHash, covenantBtcPkHex, signatureHex).GetOr(old(delegations))
    {
      var r := Delegation.AddCovenantSignature(delegations, stakingTxHash, covenantBtcPkHex, signatureHex);
      if r.Ok? {
        delegations := r.value;
      }
      res := r.ToOutcome();
    }

    method GetBTCDelegationState(stakingTxHash: string) returns (r: Result<DelegationState>)
      ensures r == Delegation.GetState(delegations, stakingTxHash)
    {
      r := Delegation.GetState(delegations, stakingTxHash);
    }

    method UpdateBTCDelegationDetails(stakingTxHash: string, details: BTCDelegationDetails) returns (res: Outcome)
      requires Valid()
      modifies this`delegations
      ensures Valid()
      ensures res == Delegation.UpdateDetails(old(delegations), stakingTxHash, details).ToOutcome()
      ensures delegations == Delegation.UpdateDetails(old(delegations), stakingTxHash, details).GetOr(old(delegations))
    {
      var r := Delegation.UpdateDetails(delegations, stakingTxHash, details);
      if r.Ok? {
        delegations := r.value;
      }
      res := r.ToOutcome();
    }

    method GetBTCDelegationByStakingTxHash(stakingTxHash: string) returns (r: Result<BTCDelegationDetails>)
      ensures r == Lookup(delegations, stakingTxHash)
    {
      r := Lookup(delegations, stakingTxHash);
    }

    method UpdateDelegationsStateByFinalityProvider(fpBtcPkHex: string, newState: DelegationState) returns (res: Outcome)
      requires Valid()
      modifies this`delegations
      ensures Valid()
      ensures res == Done
      ensures delegations == Delegation.UpdateStatesByFinalityProvider(old(delegations), fpBtcPkHex, newState)
    {
      delegations := Delegation.UpdateStatesByFinalityProvider(delegations, fpBtcPkHex, newState);
      res := Done;
    }

    /** Every stored delegation to the finality provider, each once, in no particular order. */
    method GetDelegationsByFinalityProvider(fpBtcPkHex: string) returns (r: seq<BTCDelegationDetails>)
      requires Valid()
      ensures forall i :: 0 <= i < |r| ==> r[i].stakingTxHashHex in delegations && delegations[r[i].stakingTxHashHex] == r[i]
      ensures forall i :: 0 <= i < |r| ==> Delegation.DelegatesTo(r[i], fpBtcPkHex)
      ensures forall i, j :: 0 <= i < j < |r| ==> r[i].stakingTxHashHex != r[j].stakingTxHashHex
      ensures Delegation.Hashes(r) == Query.Matching(delegations, Delegation.DelegatesToFilter(fpBtcPkHex))
    {
      r := SelectDelegations(Delegation.DelegatesToFilter(fpBtcPkHex));
    }

    /** Every stored delegation whose state is one of `states`, each once, in no particular order. */
    method GetBTCDelegationsByStates(states: seq<DelegationState>) returns (r: seq<BTCDelegationDetails>)
      requires Valid()
      ensures forall i :: 0 <= i < |r| ==> r[i].stakingTxHashHex in delegations && delegations[r[i].stakingTxHashHex] == r[i]
      ensures forall i :: 0 <= i < |r| ==> r[i].state in states
      ensures forall i, j :: 0 <= i < j < |r| ==> r[i].stakingTxHashHex != r[j].stakingTxHashHex
      ensures Delegation.Hashes(r) == Query.Matching(delegations, Delegation.InStatesFilter(states))
    {
      r := SelectDelegations(Delegation.InStatesFilter(states));
    }

    /** The stored delegations that pass the filter, each once. */
    method SelectDelegations(keep: BTCDelegationDetails -> bool) returns (r: seq<BTCDelegationDetails>)
      requires Valid()
      ensures forall i :: 0 <= i < |r| ==> r[i].stakingTxHashHex in delegations && delegations[r[i].stakingTxHashHex] == r[i]
      ensures forall i :: 0 <= i < |r| ==> keep(r[i])
      ensures forall i, j :: 0 <= i < j < |r| ==> r[i].stakingTxHashHex != r[j].stakingTxHashHex
      ensures Delegation.Hashes(r) == Query.Matching(delegations, keep)
    {
      var ks := Query.SelectKeys(delegations, keep, 0);
      r := Query.Drain(delegations, ks, (h: string, d: BTCDelegationDetails) => d);
      assert forall i :: 0 <= i < |r| ==> r[i].stakingTxHashHex == ks[i];
      assert Delegation.Hashes(r) == Query.Elements(ks) by {
        forall h | h in Query.Elements(ks) ensures h in Delegation.Hashes(r) {
          var i :| 0 <= i < |ks| && ks[i] == h;
          assert r[i].stakingTxHashHex == h;
        }
      }
    }

    method SaveBTCDelegationSlashingTxHex(stakingTxHashHex: string, slashingTxHex: string, spendingHeight: uint32)
      returns (res: Outcome)
      requires Valid()
      modifies this`delegations
      ensures Valid()
      ensures res == Delegation.SetSlashingTx(old(delegations), stakingTxHashHex, slashingTxHex, spendingHeight).ToOutcome()
      ensures delegations == Delegation.SetSlashingTx(old(delegations), stakingTxHashHex, slashingTxHex, spendingHeight).GetOr(old(delegations))
    {
      var r := Delegation.SetSlashingTx(delegations, stakingTxHashHex, slashingTxHex, spendingHeight);
      if r.Ok? {
        delegations := r.value;
      }
      res := r.ToOutcome();
    }

    method SaveBTCDelegationUnbondingSlashingTxHex(stakingTxHashHex: string, unbondingSlashingTxHex: string, spendingHeight: uint32)
      returns (res: Outcome)
      requires Valid()
      modifies this`delegations
      ensures Valid()
      ensures res == Delegation.SetUnbondingSlashingTx(old(delegations), stakingTxHashHex, unbondingSlashingTxHex, spendingHeight).ToOutcome()
      ensures delegations == Delegation.SetUnbondingSlashingTx(old(delegations), stakingTxHashHex, unbondingSlashingTxHex, spendingHeight).GetOr(old(delegations))
    {
      var r := Delegation.SetUnbondingSlashingTx(delegations, stakingTxHashHex, unbondingSlashingTxHex, spendingHeight);
      if r.Ok? {
        delegations := r.value;
      }
      res := r.ToOutcome();
    }

    // Timelock-expiry markers

    method SaveNewTimeLockExpire(stakingTxHashHex: string, expireHeight: uint32, subState: DelegationSubState)
      returns (res: Outcome)
      modifies this`timeLocks
      ensures res == TimeLock.SaveNew(old(timeLocks), stakingTxHashHex, expireHeight, subState).ToOutcome()
      ensures timeLocks == TimeLock.SaveNew(old(timeLocks), stakingTxHashHex, expireHeight, subState).GetOr(old(timeLocks))
    {
      var r := TimeLock.SaveNew(timeLocks, stakingTxHashHex, expireHeight, subState);
      if r.Ok? {
        timeLocks := r.value;
      }
      res := r.ToOutcome();
    }

    /**
     * The markers due at the tip height, each once and in no particular
     * order. A limit of 0 means no limit; otherwise as many due markers as
     * the limit allows are returned, all of them when there are no more.
     */
    method FindExpiredDelegations(btcTipHeight: uint64, limit: uint64) returns (r: seq<TimeLockDocument>)
      ensures forall i :: 0 <= i < |r| ==> r[i].stakingTxHashHex in timeLocks
      ensures forall i :: 0 <= i < |r| ==> r[i] == TimeLock.Document(r[i].stakingTxHashHex, timeLocks[r[i].stakingTxHashHex])
      ensures forall i :: 0 <= i < |r| ==> r[i].expireHeight <= btcTipHeight
      ensures forall i, j :: 0 <= i < j < |r| ==> r[i].stakingTxHashHex != r[j].stakingTxHashHex
      ensures TimeLock.Hashes(r) <= TimeLock.Due(timeLocks, btcTipHeight)
      ensures limit > 0 ==> |r| == Query.Min(limit, |TimeLock.Due(timeLocks, btcTipHeight)|)
      ensures limit == 0 || |TimeLock.Due(timeLocks, btcTipHeight)| <= limit ==> TimeLock.Hashes(r) == TimeLock.Due(timeLocks, btcTipHeight)
    {
      var ks := Query.SelectKeys(timeLocks, TimeLock.DueAt(btcTipHeight), limit);
      r := Query.Drain(timeLocks, ks, TimeLock.Document);
      assert forall i :: 0 <= i < |r| ==> r[i].stakingTxHashHex == ks[i];
      assert TimeLock.Hashes(r) == Query.Elements(ks) by {
        forall h | h in Query.Elements(ks) ensures h in TimeLock.Hashes(r) {
          var i :| 0 <= i < |ks| && ks[i] == h;
          assert r[i].stakingTxHashHex == h;
        }
      }
    }

    method DeleteExpiredDelegation(stakingTxHashHex: string) returns (res: Outcome)
      modifies this`timeLocks
      ensures res == TimeLock.Delete(old(timeLocks), stakingTxHashHex).ToOutcome()
      ensures timeLocks == TimeLock.Delete(old(timeLocks), stakingTxHashHex).GetOr(old(timeLocks))
    {
      var r := TimeLock.Delete(timeLocks, stakingTxHashHex);
      if r.Ok? {
        timeLocks := r.value;
      }
      res := r.ToOutcome();
    }

    // Last processed consensus-chain height

    method GetLastProcessedBbnHeight() returns (height: uint64)
      ensures height == lastProcessedBbnHeight
    {
      height := lastProcessedBbnHeight;
    }

    method UpdateLastProcessedBbnHeight(height: uint64) returns (res: Outcome)
      modifies this`lastProcessedBbnHeight
      ensures res == Done
      ensures lastProcessedBbnHeight == height
    {
      lastProcessedBbnHeight := height;
      res := Done;
    }
  }
}
