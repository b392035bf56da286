# Babylon staking indexer: persistence contract

This project models the persistence layer of a Bitcoin-staking indexer. The
indexer tracks BTC delegations across the Bitcoin chain and the Babylon
consensus chain. The store behind its database interface keeps five things:

- finality providers, keyed by BTC public key;
- versioned staking parameters and the checkpoint parameters;
- BTC delegations, keyed by staking-transaction hash;
- timelock-expiry markers, also keyed by staking-transaction hash;
- the last processed Babylon (BBN) height.

The heart of it is `UpdateBTCDelegationState`. It is a conditional write: it
changes a delegation's state only when the current state is one of the
caller's qualified previous states. The marker collection is the other key
part. An expiry scanner reads it by tip height and deletes each marker once
that marker has been handled.

The project also models the API error constructors and their defaulting rules.

Layout, one module per component:

- `model.dfy` (`Model`): the documents, Go's integer widths as ranges, and
  the store's outcomes (`Result`, `Outcome`, `DbError`).
- `query.dfy` (`Query`): a filtered find with a limit and no sort, and the
  loop that drains its cursor.
- `timelock.dfy` (`TimeLock`): the marker collection as a map
  `hash -> (expireHeight, subState)`, its writes, and sequences of writes.
- `delegation.dfy` (`Delegation`): the delegation table and its conditional
  and partial writes.
- `finality_provider.dfy` (`FinalityProvider`): the finality-provider table
  and the event merge.
- `store.dfy` (`Db`): the class `Database`. It holds all tables as fields,
  and its methods change them in place. The methods over the provider,
  delegation and marker tables compute their result and new table with the
  table functions above, and their `ensures` say so. The parameter and height
  methods state their effect on their field directly.
- `error.dfy` (`ApiError`): the error codes and constructors.
- `scenarios.dfy` (`Scenarios`): sequences of calls on one store, with what
  a caller can conclude from the contracts alone.

Delegation states and substates are defined outside the modelled files. Here
each is a name compared by equality. No transition table is assumed.

Where the Go code returns an `error` value, the model returns a `Result` or
an `Outcome`. Mongo's `context`, cursors and connection errors are not modelled.

## Model

| member | source | states |
|---|---|---|
| `Db.Database.constructor` | internal/db/interface.go:11-17 | a new store has empty tables, no checkpoint parameters and last height 0 |
| `Db.Database.SaveNewFinalityProvider` | internal/db/interface.go:18-27 | inserts the provider under its BTC key; an existing key gives DuplicateKey and changes nothing |
| `FinalityProvider.SaveNew` | internal/db/interface.go:18-27 | succeeds exactly when the key is new; on success the new record is stored and all others are kept; keying by key is preserved |
| `Db.Database.UpdateFinalityProviderState` | internal/db/interface.go:28-37 | sets the state of one provider and changes nothing else; an absent key gives NotFound and changes nothing |
| `FinalityProvider.UpdateState` | internal/db/interface.go:28-37 | only the named provider's state changes; every other provider is kept |
| `Db.Database.UpdateFinalityProviderDetailsFromEvent` | internal/db/interface.go:38-47 | merges the event into the stored provider named by the event's key; an absent key gives NotFound |
| `FinalityProvider.UpdateDetailsFromEvent` | internal/db/interface.go:38-47 | only the event's provider changes, and it becomes the merge of stored and event |
| `FinalityProvider.MergeEvent` | internal/db/interface.go:38-47 | key, address and state of the stored record are kept |
| `FinalityProvider.MergeEventOverwritesExactlyNonEmpty` | internal/db/interface.go:39-40 | each event field overwrites the stored one exactly when it is non-empty; an empty one keeps the stored value |
| `FinalityProvider.MergeEmptyEventIsIdentity` | internal/db/interface.go:39-40 | an event whose fields are all empty changes nothing |
| `FinalityProvider.MergeEventIdempotent` | internal/db/interface.go:39-40 | applying the same event twice equals applying it once |
| `Db.Database.GetFinalityProviderByBtcPk` | internal/db/interface.go:48-57 | returns the stored provider for a present key and NotFound for an absent one |
| `Model.Lookup` | internal/db/interface.go:48-57 | a find by primary key, used for providers and delegations alike: a present key gives its record; an absent key gives NotFound |
| `FinalityProvider.SaveNewThenGet` | internal/db/interface.go:18-57 | a provider that was saved is read back unchanged |
| `Db.Database.SaveStakingParams` | internal/db/interface.go:58-67 | stores the parameters under their version; other versions are kept |
| `Db.Database.GetStakingParams` | internal/db/interface.go:68-74 | returns the parameters stored under the version, or VersionNotFound |
| `Db.Database.SaveCheckpointParams` | internal/db/interface.go:75-83 | stores the checkpoint parameters |
| `Db.Database.SaveNewBTCDelegation` | internal/db/interface.go:84-93 | inserts the delegation under its staking hash; an existing hash gives DuplicateKey and changes nothing |
| `Delegation.SaveNew` | internal/db/interface.go:84-93 | succeeds exactly when the hash is new; on success the new record is stored and every other record is kept |
| `Delegation.SaveNewThenGet` | internal/db/interface.go:84-93 | a saved delegation is read back whole, and its state read alone matches |
| `Db.Database.UpdateBTCDelegationState` | internal/db/interface.go:94-106 | succeeds exactly when the hash is stored and its current state is qualified; then only that record's state and substate change; otherwise NotFound and nothing changes |
| `Delegation.UpdateState` | internal/db/interface.go:94-106 | succeeds iff the current state is in the qualified set; the new state is set, the substate is replaced only when one is given, every other field and every other delegation is kept |
| `Delegation.UpdateStateReplayRejected` | internal/db/interface.go:94-106 | when the new state is not itself qualified, a repeated write is refused: replayed events take effect once |
| `Delegation.UpdateStateThenGetState` | internal/db/interface.go:94-125 | after a write goes through, the state read back is the new state |
| `Db.Database.SaveBTCDelegationUnbondingCovenantSignature` | internal/db/interface.go:107-118 | appends the covenant signature to the delegation's list; an absent hash gives NotFound |
| `Delegation.AddCovenantSignature` | internal/db/interface.go:107-118 | the delegation's list grows by exactly this signature at its end; nothing else changes |
| `Delegation.AddCovenantSignatureKeepsEarlier` | internal/db/interface.go:107-118 | every signature stored earlier stays in its place |
| `Db.Database.GetBTCDelegationState` | internal/db/interface.go:119-125 | returns the stored state of the delegation, or NotFound |
| `Delegation.GetState` | internal/db/interface.go:119-125 | a present hash gives its state; an absent one gives NotFound |
| `Delegation.GetStateAgreesWithGet` | internal/db/interface.go:119-145 | the state read alone always equals the state of the whole record read; both fail together with the same error |
| `Db.Database.UpdateBTCDelegationDetails` | internal/db/interface.go:126-135 | merges the update into the stored delegation; an absent hash gives NotFound |
| `Delegation.UpdateDetails` | internal/db/interface.go:126-135 | only the named delegation changes, and it becomes the merge |
| `Delegation.MergeDetails` | internal/db/interface.go:126-135 | a non-empty state and non-zero start and end heights overwrite; all other fields, the identity included, are kept |
| `Delegation.MergeDetailsIdempotent` | internal/db/interface.go:126-135 | merging the same update twice equals merging it once |
| `Db.Database.GetBTCDelegationByStakingTxHash` | internal/db/interface.go:136-145 | returns the stored record, or NotFound for an absent hash |
| `Db.Database.UpdateDelegationsStateByFinalityProvider` | internal/db/interface.go:146-156 | sets the state of every delegation to the provider; all other delegations are kept |
| `Delegation.UpdateStatesByFinalityProvider` | internal/db/interface.go:146-156 | delegations to the provider get exactly the new state; the others are unchanged; no key is added or lost |
| `Db.Database.GetDelegationsByFinalityProvider` | internal/db/interface.go:157-163 | returns every stored delegation to the provider, each once, exactly as stored |
| `Db.Database.SaveNewTimeLockExpire` | internal/db/timelock.go:13-24 | inserts the marker with `_id` equal to the hash; an existing marker gives DuplicateKey and changes nothing |
| `TimeLock.SaveNew` | internal/db/timelock.go:13-24 | succeeds iff the hash has no marker; then the marker holds the given height and substate, and every other marker is kept |
| `TimeLock.SavedIsDueFrom` | internal/db/timelock.go:13-28 | a saved marker is due at a tip exactly when its expire height is at most that tip |
| `Db.Database.FindExpiredDelegations` | internal/db/timelock.go:26-43 | every marker returned is stored and due at the tip; none twice; with a limit, exactly min(limit, due) are returned; all due markers when they fit; no order is promised; the collection does not change |
| `Query.Drain` | internal/db/timelock.go:37-40 | the cursor drained into a slice: one value per key, in the keys' order, each the conversion of the record stored under that key |
| `TimeLock.Document` | internal/db/timelock.go:19 | the document built for a hash carries that hash as its key and the marker's height and substate unchanged |
| `Query.SelectKeys` | internal/db/timelock.go:28-42 | the filter with an optional limit: distinct matching keys, exactly min(limit, matches) of them, all matches when they fit |
| `TimeLock.Due` | internal/db/timelock.go:28 | a hash is due iff it has a marker whose height is at most the tip |
| `TimeLock.DueMonotone` | internal/db/timelock.go:28 | a marker due at one tip stays due at every higher tip |
| `Db.Database.DeleteExpiredDelegation` | internal/db/timelock.go:45-60 | removes the marker of the hash; when none was deleted it returns an error and changes nothing |
| `TimeLock.Delete` | internal/db/timelock.go:45-60 | succeeds iff the hash has a marker; then exactly that marker is removed and the rest are kept |
| `TimeLock.DeleteTwiceFails` | internal/db/timelock.go:54-57 | a second delete of the same hash fails and leaves the collection as the first delete left it |
| `TimeLock.SaveThenDeleteRestores` | internal/db/timelock.go:13-60 | saving and then deleting a new hash gives back the original collection |
| `TimeLock.AbsentStaysAbsent` | internal/db/timelock.go:13-60 | a hash without a marker gets none from any sequence of writes that never saves it |
| `TimeLock.DeletedNeverDueAgain` | internal/db/timelock.go:28-59 | after a hash is deleted, no later find at any tip returns it until it is saved again |
| `Db.Database.GetLastProcessedBbnHeight` | internal/db/interface.go:193-198 | returns the stored last processed height |
| `Db.Database.UpdateLastProcessedBbnHeight` | internal/db/interface.go:199-205 | stores the new last processed height |
| `Db.Database.SaveBTCDelegationSlashingTxHex` | internal/db/interface.go:206-219 | records the slashing transaction and its spending height; an absent hash gives NotFound |
| `Delegation.SetSlashingTx` | internal/db/interface.go:206-219 | only the named delegation's slashing record changes |
| `Db.Database.SaveBTCDelegationUnbondingSlashingTxHex` | internal/db/interface.go:220-233 | records the unbonding slashing transaction and its spending height; an absent hash gives NotFound |
| `Delegation.SetUnbondingSlashingTx` | internal/db/interface.go:220-233 | only the named delegation's unbonding slashing record changes |
| `Db.Database.GetBTCDelegationsByStates` | internal/db/interface.go:234-240 | returns every stored delegation whose state is listed, each once, exactly as stored |
| `Db.Database.SelectDelegations` | internal/db/interface.go:157-163 | every stored delegation that passes the filter, each once, exactly as stored |
| `Scenarios.ExpiryScan` | internal/db/timelock.go:13-60 | a marker at height 100 is not found at tip 99, is found at tip 100, and after deletion is not found at tip 150 |
| `Scenarios.DeleteThenFind` | internal/db/timelock.go:28-59 | a find right after a delete never returns the deleted hash |
| `Scenarios.DeleteTwice` | internal/db/timelock.go:45-60 | the second delete of a hash fails; the collection loses exactly that hash |
| `Scenarios.SaveDelegationTwice` | internal/db/interface.go:84-93 | the second save of a delegation gives DuplicateKey, and the store keeps what the first save left |
| `Scenarios.ReplayStateUpdate` | internal/db/interface.go:94-106 | a repeated state update is refused, and the store keeps what the first update left |
| `Scenarios.StakingParamsRoundTrip` | internal/db/interface.go:58-74 | parameters that were saved are read back under their version |
| `Scenarios.LastHeightRoundTrip` | internal/db/interface.go:193-205 | the height read back is the one last written |
| `Scenarios.DelegationRoundTrip` | internal/db/interface.go:84-145 | a saved delegation is read back whole, and its state read alone matches |
| `ApiError.String` | internal/types/error.go:10-12 | wrapping the returned string as a code gives back the original code |
| `ApiError.NewError` | internal/types/error.go:39-54 | status 0 becomes 500 and any other status is kept; an empty code becomes INTERNAL_SERVICE_ERROR and any other code is kept; the underlying error is stored unchanged |
| `ApiError.NewErrorIsNormalising` | internal/types/error.go:39-54 | building an error again from a built error's parts gives the same error: the defaults apply once |
| `ApiError.NewErrorInjectiveOnProvided` | internal/types/error.go:42-53 | when status and code are both provided, two errors are equal iff the provided parts are equal |
| `ApiError.NewErrorWithMsg` | internal/types/error.go:56-58 | the error carries the message, with the same defaults as NewError |
| `ApiError.NewErrorWithMsgAgrees` | internal/types/error.go:56-58 | equals NewError applied to an error made from the message |
| `ApiError.NewInternalServiceError` | internal/types/error.go:60-66 | status 500, code INTERNAL_SERVICE_ERROR, the given error |
| `ApiError.InternalServiceErrorIsDefault` | internal/types/error.go:42-66 | equals NewError with nothing provided, and NewError with 500 and INTERNAL_SERVICE_ERROR |
| `ApiError.NewValidationFailedError` | internal/types/error.go:68-74 | status 400, code VALIDATION_ERROR, the given error |
| `ApiError.ValidationFailedErrorAgrees` | internal/types/error.go:68-74 | equals NewError with 400 and VALIDATION_ERROR |

## Left out

- `Ping`, Mongo's `context`, cursors, `bson` filters and connection or driver errors. These are infrastructure. No model method fails for these reasons.
- `Db.Database.FindExpiredDelegations`: Mongo reads a limit of 0 as "no limit", and the model does the same. The model does not capture `int64(limit)` turning a limit of 2^63 or more into a negative Mongo limit. That is a driver quirk.
- `Db.Database.FindExpiredDelegations`: the order of the results is left open, because the code sets no sort.
- The per-field rules of the store implementation live in `internal/db/model` and in the Mongo-backed files of `internal/db`, and those files are not part of this model. So the field sets of the documents, and the exact fields that the two merge rules touch, are modelling choices:
  - the finality-provider event merge covers the commission and the five description fields;
  - `Delegation.MergeDetails` covers state, start height and end height.
- `Db.Database.UpdateBTCDelegationState`: an absent hash and a state that is not qualified both give NotFound. The interface only says that an error is returned.
- `Db.Database.SaveNewTimeLockExpire`: `DuplicateKey` stands for the driver's duplicate-key write exception. The code returns the `InsertOne` error unchanged (internal/db/timelock.go:20-23) and does not convert it into the interface's `DuplicateKeyError` (internal/db/interface.go:165-166).
- The error for an absent key is a modelling choice wherever the interface says only "an error". NotFound with the key is returned by `Db.Database.UpdateFinalityProviderState`, `Db.Database.UpdateFinalityProviderDetailsFromEvent`, `Db.Database.SaveBTCDelegationUnbondingCovenantSignature`, `Db.Database.GetBTCDelegationState`, `Db.Database.UpdateBTCDelegationDetails`, `Db.Database.SaveBTCDelegationSlashingTxHex` and `Db.Database.SaveBTCDelegationUnbondingSlashingTxHex`.
- `Delegation.UpdateState`: the new substate is a pointer in the interface. The model reads a nil pointer as "keep the stored substate", which is a modelling choice.
- `Db.Database.SaveCheckpointParams`: the interface gives no storage rule. One slot, overwritten by each save, is a modelling choice. There is no reader in the interface to pair it with.
- `Db.Database.SaveStakingParams`: the interface promises no duplicate-key outcome for parameters. So a second save of a version overwrites the first.
- `Db.Database.GetLastProcessedBbnHeight`: the height starts at 0 before any update.
- `Db.Database.UpdateDelegationsStateByFinalityProvider`: never fails in the model. Its doc comment mentions qualified states, but there is no such parameter, so none is modelled.
- `Db.Database.SaveBTCDelegationUnbondingCovenantSignature`: appends without deduplicating. No deduplication rule is stated.
- `Error.Error()`, which passes the message through from the wrapped error. A Go `error` is modelled by its message, so a nil error is not represented.
- HTTP status meanings beyond the integer constants 400 and 500.
- The conversions from Babylon protocol types (`internal/clients/bbnclient/types.go`). They are field copies from foreign types. The parameter records reuse those struct shapes as plain data.
- The block wrapper (`internal/types/block.go`) and the poller (`internal/utils/poller/poller.go`). They wrap btcd types and a ticker loop whose point is timing and cancellation.
- Delegation lifecycle transitions, covenant quorum counting and expiry-scan orchestration. None of them is in the modelled files.
- Concurrency between pollers. Each store method is modelled as one atomic step.
