/** Documents, identifiers and outcomes shared by the indexer's persistence layer. */
module Model {

  /** Go's fixed-width integers, as ranges of the unbounded integers. */
  type uint32 = x: int | 0 <= x < 0x1_0000_0000
  type uint64 = x: int | 0 <= x < 0x1_0000_0000_0000_0000
  type int64 = x: int | -0x8000_0000_0000_0000 <= x < 0x8000_0000_0000_0000

  datatype Option<T> = None | Some(value: T)

  /**
   * A delegation state. The enumeration of states lives outside the modelled
   * files, so a state is known here only by its name and compared by equality.
   */
  datatype DelegationState = DelegationState(name: string)

  /** A delegation substate, likewise known only by its name. */
  datatype DelegationSubState = DelegationSubState(name: string)

  /** What the store reports when an operation does not go through. */
  datatype DbError =
    | DuplicateKey(key: string)
    | NotFound(key: string)
    | VersionNotFound(version: uint32)
    | NoExpiredDelegation(stakingTxHashHex: string)

  /** The outcome of a read: the value found, or why there is none. */
  datatype Result<T> = Ok(value: T) | Err(error: DbError) {
    function GetOr(default: T): T {
      match this
      case Ok(v) => v
      case Err(_) => default
    }

    function ToOutcome(): Outcome {
      match this
      case Ok(_) => Done
      case Err(e) => Failed(e)
    }
  }

  /** The outcome of a write: done, or the error Go's `error` return carries. */
  datatype Outcome = Done | Failed(error: DbError)

  /** A find by primary key: the record stored under `key`, or NotFound. */
  function Lookup<V>(m: map<string, V>, key: string): (r: Result<V>)
    ensures r.Ok? <==> key in m
    ensures r.Ok? ==> r.value == m[key]
    ensures r.Err? ==> r.error == NotFound(key)
  {
    if key in m then Ok(m[key]) else Err(NotFound(key))
  }

  /** A scheduled expiry, one per staking transaction. */
  datatype TimeLockDocument = TimeLockDocument(
    stakingTxHashHex: string,
    expireHeight: uint32,
    delegationSubState: DelegationSubState)

  datatype Description = Description(
    moniker: string,
    identity: string,
    website: string,
    securityContact: string,
    details: string)

  /** A finality provider, identified by its BTC public key. */
  datatype FinalityProviderDetails = FinalityProviderDetails(
    btcPk: string,
    babylonAddress: string,
    commission: string,
    state: string,
    description: Description)

  datatype CovenantSignature = CovenantSignature(covenantBtcPkHex: string, signatureHex: string)

  /** A slashing transaction seen on the BTC chain and the height it was spent at. */
  datatype SlashingTx = SlashingTx(slashingTxHex: string, spendingHeight: uint32)

  /** A BTC delegation, identified by the hash of its staking transaction. */
  datatype BTCDelegationDetails = BTCDelegationDetails(
    stakingTxHashHex: string,
    finalityProviderBtcPksHex: seq<string>,
    startHeight: uint32,
    endHeight: uint32,
    state: DelegationState,
    subState: Option<DelegationSubState>,
    covenantUnbondingSignatures: seq<CovenantSignature>,
    slashingTx: SlashingTx,
    unbondingSlashingTx: SlashingTx)

  /** Staking parameters of the consensus chain, stored whole under a version number. */
  datatype StakingParams = StakingParams(
    covenantPks: seq<string>,
    covenantQuorum: uint32,
    minStakingValueSat: int64,
    maxStakingValueSat: int64,
    minStakingTimeBlocks: uint32,
    maxStakingTimeBlocks: uint32,
    slashingPkScript: string,
    minSlashingTxFeeSat: int64,
    slashingRate: string,
    minUnbondingTimeBlocks: uint32,
    unbondingFeeSat: int64,
    minCommissionRate: string,
    maxActiveFinalityProviders: uint32,
    delegationCreationBaseGasFee: uint64)

  datatype CheckpointParams = CheckpointParams(
    btcConfirmationDepth: uint64,
    checkpointFinalizationTimeout: uint64,
    checkpointTag: string)
}
