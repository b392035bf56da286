/**
 * The timelock-expiry marker collection: one marker per staking transaction,
 * keyed by its hash, holding the height at which the timelock expires and the
 * substate the delegation will be given then.
 */
module TimeLock {
  import opened Model
  import Query

  datatype Marker = Marker(expireHeight: uint32, subState: DelegationSubState)

  type Markers = map<string, Marker>

  /** The document the collection holds for hash `h`. */
  function Document(h: string, mk: Marker): (doc: TimeLockDocument)
    ensures doc.stakingTxHashHex == h
    ensures Marker(doc.expireHeight, doc.delegationSubState) == mk
  {
    TimeLockDocument(h, mk.expireHeight, mk.subState)
  }

  /** The staking hashes of a list of documents. */
  function Hashes(docs: seq<TimeLockDocument>): set<string> {
    set i | 0 <= i < |docs| :: docs[i].stakingTxHashHex
  }

  /** The filter `expire_height <= btcTipHeight`. */
  function DueAt(btcTipHeight: uint64): Marker -> bool {
    (mk: Marker) => mk.expireHeight <= btcTipHeight
  }

  /** The hashes whose markers are due at the given tip height. */
  function Due(m: Markers, btcTipHeight: uint64): (due: set<string>)
    ensures forall h :: h in due <==> h in m && m[h].expireHeight <= btcTipHeight
  {
    Query.Matching(m, DueAt(btcTipHeight))
  }

  /** Inserting a new marker; the hash is the document's `_id`, so a second insert is refused. */
  function SaveNew(m: Markers, h: string, expireHeight: uint32, subState: DelegationSubState): (r: Result<Markers>)
    ensures r.Ok? <==> h !in m
    ensures r.Err? ==> r.error == DuplicateKey(h)
    ensures r.Ok? ==> r.value.Keys == m.Keys + {h} && r.value[h] == Marker(expireHeight, subState)
    ensures r.Ok? ==> forall k :: k in m ==> r.value[k] == m[k]
  {
    if h in m then Err(DuplicateKey(h)) else Ok(m[h := Marker(expireHeight, subState)])
  }

  /** Deleting the marker with `_id` equal to `h`; deleting nothing is an error. */
  function Delete(m: Markers, h: string): (r: Result<Markers>)
    ensures r.Ok? <==> h in m
    ensures r.Err? ==> r.error == NoExpiredDelegation(h)
    ensures r.Ok? ==> r.value.Keys == m.Keys - {h}
    ensures r.Ok? ==> forall k :: k in r.value ==> r.value[k] == m[k]
  {
    if h in m then Ok(m - {h}) else Err(NoExpiredDelegation(h))
  }

  /** A write to the collection, as an expiry scanner and the indexer issue them. */
  datatype Op =
    | SaveOp(stakingTxHashHex: string, expireHeight: uint32, subState: DelegationSubState)
    | DeleteOp(stakingTxHashHex: string)

  /** The collection after one write; a write that fails leaves it as it was. */
  function Apply(m: Markers, op: Op): Markers {
    match op
    case SaveOp(h, e, s) => SaveNew(m, h, e, s).GetOr(m)
    case DeleteOp(h) => Delete(m, h).GetOr(m)
  }

  /** The collection after a sequence of writes, in order. */
  function Run(m: Markers, ops: seq<Op>): Markers
    decreases |ops|
  {
    if ops == [] then m else Run(Apply(m, ops[0]), ops[1..])
  }

  /** True when no write in `ops` saves a marker for `h`. */
  predicate NeverSaves(ops: seq<Op>, h: string) {
    forall i :: 0 <= i < |ops| ==> !(ops[i].SaveOp? && ops[i].stakingTxHashHex == h)
  }

  /** A hash without a marker stays without one through writes that never save it. */
  lemma {:induction false} AbsentStaysAbsent(m: Markers, h: string, ops: seq<Op>)
    requires h !in m
    requires NeverSaves(ops, h)
    ensures h !in Run(m, ops)
    decreases |ops|
  {
    if ops != [] {
      var m' := Apply(m, ops[0]);
      assert h !in m';
      assert NeverSaves(ops[1..], h) by {
        forall i | 0 <= i < |ops[1..]|
          ensures !(ops[1..][i].SaveOp? && ops[1..][i].stakingTxHashHex == h)
        {
          assert ops[1..][i] == ops[i + 1];
        }
      }
      AbsentStaysAbsent(m', h, ops[1..]);
    }
  }

  /**
   * Once the marker for `h` is deleted, no later scan returns `h`, at any tip
   * height, whatever other markers are saved or deleted meanwhile, until a
   * marker for `h` is saved again.
   */
  lemma DeletedNeverDueAgain(m: Markers, h: string, ops: seq<Op>, btcTipHeight: uint64)
    requires Delete(m, h).Ok?
    requires NeverSaves(ops, h)
    ensures h !in Due(Run(Delete(m, h).value, ops), btcTipHeight)
  {
    AbsentStaysAbsent(Delete(m, h).value, h, ops);
  }

  /** A second delete of the same hash fails and changes nothing. */
  lemma DeleteTwiceFails(m: Markers, h: string)
    requires Delete(m, h).Ok?
    ensures Delete(Delete(m, h).value, h) == Err(NoExpiredDelegation(h))
    ensures Apply(Delete(m, h).value, DeleteOp(h)) == Delete(m, h).value
  {
  }

  /** A saved marker is due exactly from its expire height on. */
  lemma SavedIsDueFrom(m: Markers, h: string, expireHeight: uint32, subState: DelegationSubState, btcTipHeight: uint64)
    requires SaveNew(m, h, expireHeight, subState).Ok?
    ensures h in Due(SaveNew(m, h, expireHeight, subState).value, btcTipHeight) <==> expireHeight <= btcTipHeight
  {
  }

  /** A marker due at some tip height stays due at every higher one. */
  lemma DueMonotone(m: Markers, lower: uint64, higher: uint64)
    requires lower <= higher
    ensures Due(m, lower) <= Due(m, higher)
  {
  }

  /** Saving, then deleting, the same new hash gives back the collection it started from. */
  lemma SaveThenDeleteRestores(m: Markers, h: string, expireHeight: uint32, subState: DelegationSubState)
    requires h !in m
    ensures Delete(SaveNew(m, h, expireHeight, subState).value, h) == Ok(m)
  {
    assert SaveNew(m, h, expireHeight, subState).value - {h} == m;
  }
}
