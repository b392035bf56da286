/**
 * Sequences of store calls as the indexer makes them, with what a caller can
 * conclude from the store's contracts alone.
 */
module Scenarios {
  import opened Model
  import TimeLock
  import Delegation
  import Db

  /**
   * A marker due at height 100 is not returned at tip 99, is returned at
   * tip 100, and once deleted is not returned at tip 150.
   */
  method ExpiryScan(h: string, subState: DelegationSubState)
    returns (at99: seq<TimeLockDocument>, at100: seq<TimeLockDocument>, deleted: Outcome, at150: seq<TimeLockDocument>)
    ensures at99 == []
    ensures at100 == [TimeLockDocument(h, 100, subState)]
    ensures deleted == Done
    ensures at150 == []
  {
    var db := new Db.Database();
    var saved := db.SaveNewTimeLockExpire(h, 100, subState);
    assert db.timeLocks == map[h := TimeLock.Marker(100, subState)];
    assert TimeLock.Due(db.timeLocks, 99) == {};
    at99 := db.FindExpiredDelegations(99, 10);
    assert TimeLock.Due(db.timeLocks, 100) == {h};
    at100 := db.FindExpiredDelegations(100, 10);
    deleted := db.DeleteExpiredDelegation(h);
    assert TimeLock.Due(db.timeLocks, 150) == {};
    at150 := db.FindExpiredDelegations(150, 10);
  }

  /** A marker that was deleted is not returned by any later find, whatever the tip and limit. */
  method DeleteThenFind(db: Db.Database, h: string, btcTipHeight: uint64, limit: uint64)
    returns (deleted: Outcome, found: seq<TimeLockDocument>)
    modifies db
    ensures deleted == Done <==> h in old(db.timeLocks)
    ensures forall i :: 0 <= i < |found| ==> found[i].stakingTxHashHex != h
  {
    deleted := db.DeleteExpiredDelegation(h);
    found := db.FindExpiredDelegations(btcTipHeight, limit);
  }

  /** Deleting the same marker twice: the second delete fails and changes nothing. */
  method DeleteTwice(db: Db.Database, h: string) returns (first: Outcome, second: Outcome)
    modifies db
    ensures first == Done <==> h in old(db.timeLocks)
    ensures second == Failed(NoExpiredDelegation(h))
    ensures db.timeLocks == old(db.timeLocks) - {h}
  {
    first := db.DeleteExpiredDelegation(h);
    ghost var between := db.timeLocks;
    second := db.DeleteExpiredDelegation(h);
    assert db.timeLocks == between;
  }

  /** Saving the same delegation twice: the second save is refused and the store keeps the first. */
  method SaveDelegationTwice(db: Db.Database, d: BTCDelegationDetails) returns (first: Outcome, second: Outcome)
    requires db.Valid()
    modifies db
    ensures db.Valid()
    ensures second == Failed(DuplicateKey(d.stakingTxHashHex))
    ensures d.stakingTxHashHex in db.delegations
    ensures first == Done ==> db.delegations == old(db.delegations)[d.stakingTxHashHex := d]
    ensures first != Done ==> db.delegations == old(db.delegations)
  {
    first := db.SaveNewBTCDelegation(d);
    second := db.SaveNewBTCDelegation(d);
  }

  /**
   * A state update delivered twice takes effect at most once: when the new
   * state is not itself a qualified previous state, the replay is refused and
   * the store is as the first delivery left it.
   */
  method ReplayStateUpdate(
    db: Db.Database, h: string, qualifiedPreviousStates: seq<DelegationState>,
    newState: DelegationState, newSubState: Option<DelegationSubState>)
    returns (first: Outcome, second: Outcome)
    requires db.Valid()
    requires newState !in qualifiedPreviousStates
    modifies db
    ensures db.Valid()
    ensures second == Failed(NotFound(h))
    ensures db.delegations == Delegation.UpdateState(old(db.delegations), h, qualifiedPreviousStates, newState, newSubState).GetOr(old(db.delegations))
    ensures first == Done ==> h in db.delegations && db.delegations[h].state == newState
  {
    first := db.UpdateBTCDelegationState(h, qualifiedPreviousStates, newState, newSubState);
    ghost var between := db.delegations;
    second := db.UpdateBTCDelegationState(h, qualifiedPreviousStates, newState, newSubState);
    assert db.delegations == between;
  }

  /** Saved staking parameters are read back under their version. */
  method StakingParamsRoundTrip(db: Db.Database, version: uint32, params: StakingParams)
    returns (r: Result<StakingParams>)
    modifies db
    ensures r == Ok(params)
  {
    var saved := db.SaveStakingParams(version, params);
    r := db.GetStakingParams(version);
  }

  /** The last processed height read back is the one last written. */
  method LastHeightRoundTrip(db: Db.Database, height: uint64) returns (r: uint64)
    modifies db
    ensures r == height
  {
    var updated := db.UpdateLastProcessedBbnHeight(height);
    r := db.GetLastProcessedBbnHeight();
  }

  /** A saved delegation is read back whole, and its state read alone agrees. */
  method DelegationRoundTrip(db: Db.Database, d: BTCDelegationDetails)
    returns (saved: Outcome, record: Result<BTCDelegationDetails>, state: Result<DelegationState>)
    requires db.Valid()
    modifies db
    ensures saved == Done ==> record == Ok(d) && state == Ok(d.state)
    ensures record.Ok? ==> state == Ok(record.value.state)
  {
    saved := db.SaveNewBTCDelegation(d);
    record := db.GetBTCDelegationByStakingTxHash(d.stakingTxHashHex);
    state := db.GetBTCDelegationState(d.stakingTxHashHex);
  }
}
