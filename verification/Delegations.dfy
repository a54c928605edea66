/** The `delegations` table (migrations/003_create_delegations_table.sql), its statements
    (src/db/delegation_ops.rs) and the poll and cleanup that write it (src/services/delegation_polling.rs). */
module Delegations {
  import opened Machine
  import opened Types
  import Address
  import Preimages

  // ---- Signatures ----

  datatype Verdict = Valid | Invalid | Malformed

  /** Keccak, and the pairing check of a key, a signing root and a signature. */
  datatype Bls = Bls(keccak: bytes -> Digest, check: (PublicKey, Digest, BlsSignature) -> Verdict)

  function Verify(bls: Bls, d: SignedDelegation): Verdict {
    match Preimages.EncodeDelegation(d.message)
    case None => Malformed
    case Some(encoded) =>
      var root := bls.keccak(Preimages.SigningPreimage(Preimages.DELEGATION_DOMAIN, encoded));
      bls.check(d.message.proposer, root, d.signature)
  }

  /** The proposer's key passes the check on the hash of the domain 0x0044656c and the encoded message. */
  ghost predicate ProposerSigned(bls: Bls, m: DelegationMessage, signature: BlsSignature) {
    && Preimages.EncodeDelegation(m).Some?
    && var preimage := [0x00, 0x44, 0x65, 0x6c] + Preimages.EncodeDelegation(m).value;
      bls.check(m.proposer, bls.keccak(preimage), signature) == Valid
  }

  lemma VerifiesExactly(bls: Bls, d: SignedDelegation)
    ensures Verify(bls, d) == Valid <==> ProposerSigned(bls, d.message, d.signature)
  {
  }

  /** A signature covers the committer's bytes, not its spelling: whoever passes a delegation on may
      respell the committer, and it verifies as before. */
  lemma RespelledVerifies(bls: Bls, d: SignedDelegation, committer: string)
    requires Preimages.EncodeDelegation(d.message).Some?
    requires Address.ParseHexBytes(committer, 20).Some?
    requires Address.NormalizeAddress(committer) == Address.NormalizeAddress(d.message.committer)
    ensures Verify(bls, d.(message := d.message.(committer := committer))) == Verify(bls, d)
  {
    Preimages.DelegationPreimageIdentifies(d.message, d.message.(committer := committer));
  }

  // ---- Rows ----

  datatype DelegationRow = DelegationRow(
    proposer: PublicKey, delegate: PublicKey, committer: string, slotNumber: i64, signature: BlsSignature,
    isActive: bool)

  /** The UNIQUE columns; they also stand for the row's UUID. */
  datatype Key = Key(proposer: PublicKey, slotNumber: i64)

  /** The rows in the order in which their inserts took effect. */
  type Table = seq<DelegationRow>

  function Store(d: SignedDelegation): DelegationRow {
    DelegationRow(d.message.proposer, d.message.delegate, d.message.committer, AsI64(d.message.slot), d.signature, true)
  }

  function Load(row: DelegationRow): SignedDelegation {
    SignedDelegation(DelegationMessage(row.proposer, row.delegate, row.committer, AsU64(row.slotNumber)), row.signature)
  }

  lemma LoadStored(d: SignedDelegation)
    ensures Load(Store(d)) == d
  {
  }

  function KeyOf(row: DelegationRow): Key {
    Key(row.proposer, row.slotNumber)
  }

  /** The CHECK constraints that the key lengths do not imply. */
  predicate Acceptable(d: SignedDelegation) {
    AsI64(d.message.slot) >= 0 && Address.MatchesHexColumn(d.message.committer, 40)
  }

  /** What verifies is accepted exactly when its slot fits a BIGINT and its committer has the prefix. */
  lemma AcceptableExactly(bls: Bls, d: SignedDelegation)
    requires Verify(bls, d) == Valid && Preimages.EncodeDelegation(d.message).Some?
    ensures Acceptable(d) <==> d.message.slot < 0x8000_0000_0000_0000 && "0x" <= d.message.committer
  {
    Address.ColumnAcceptsPrefixed(d.message.committer);
  }

  /** The first row with a key. */
  function RowFor(table: Table, key: Key): Option<DelegationRow> {
    if table == [] then None
    else
      var last := table[|table| - 1];
      match RowFor(table[..|table| - 1], key)
      case Some(row) => Some(row)
      case None => if KeyOf(last) == key then Some(last) else None
  }

  ghost predicate UniqueKeys(table: Table) {
    forall i, j :: 0 <= i < j < |table| ==> KeyOf(table[i]) != KeyOf(table[j])
  }

  lemma {:induction false} RowForIndex(table: Table, key: Key)
    ensures RowFor(table, key).Some? ==> KeyOf(RowFor(table, key).value) == key && RowFor(table, key).value in table
    ensures RowFor(table, key).None? <==> forall i :: 0 <= i < |table| ==> KeyOf(table[i]) != key
  {
    if table != [] {
      RowForIndex(table[..|table| - 1], key);
      assert table == table[..|table| - 1] + [table[|table| - 1]];
    }
  }

  // ---- Statements ----

  /** `INSERT .. ON CONFLICT (proposer_pubkey, slot_number) DO NOTHING`. */
  function Insert(table: Table, d: SignedDelegation): Table {
    if RowFor(table, KeyOf(Store(d))).Some? then table else table + [Store(d)]
  }

  function InsertAll(table: Table, ds: seq<SignedDelegation>): (later: Table)
    ensures table <= later
  {
    if ds == [] then table else Insert(InsertAll(table, ds[..|ds| - 1]), ds[|ds| - 1])
  }

  predicate AllVerify(bls: Bls, ds: seq<SignedDelegation>) {
    forall i :: 0 <= i < |ds| ==> Verify(bls, ds[i]) == Valid
  }

  predicate AllAcceptable(ds: seq<SignedDelegation>) {
    forall i :: 0 <= i < |ds| ==> Acceptable(ds[i])
  }

  predicate Storable(bls: Bls, ds: seq<SignedDelegation>) {
    AllVerify(bls, ds) && AllAcceptable(ds)
  }

  /** One bad signature keeps the batch out; one refused row rolls the transaction back. */
  function SaveBatch(bls: Bls, table: Table, ds: seq<SignedDelegation>): Table {
    if Storable(bls, ds) then InsertAll(table, ds) else table
  }

  function KeysOf(table: Table): (keys: seq<Key>)
    ensures |keys| == |table|
    ensures forall i :: 0 <= i < |table| ==> keys[i] == KeyOf(table[i])
  {
    seq(|table|, i requires 0 <= i < |table| => KeyOf(table[i]))
  }

  /** `UPDATE .. SET is_active = false` on the rows chosen by `off`. */
  function Silence(table: Table, off: DelegationRow -> bool): (later: Table)
    ensures |later| == |table|
    ensures forall i :: 0 <= i < |table| ==> later[i] == table[i].(isActive := table[i].isActive && !off(table[i]))
  {
    seq(|table|, i requires 0 <= i < |table| => table[i].(isActive := table[i].isActive && !off(table[i])))
  }

  function ExpireBefore(table: Table, currentSlot: u64): Table {
    Silence(table, (row: DelegationRow) => row.slotNumber < AsI64(currentSlot))
  }

  function DeactivateKey(table: Table, key: Key): Table {
    Silence(table, (row: DelegationRow) => KeyOf(row) == key)
  }

  function ActiveFor(table: Table, slotNumber: i64): seq<SignedDelegation> {
    if table == [] then []
    else
      var last := table[|table| - 1];
      ActiveFor(table[..|table| - 1], slotNumber)
      + (if last.isActive && last.slotNumber == slotNumber then [Load(last)] else [])
  }

  /** What `SELECT .. WHERE slot_number = slot AND is_active` may return: any order. */
  ghost predicate IsAnswer(table: Table, slot: u64, ds: seq<SignedDelegation>) {
    multiset(ds) == multiset(ActiveFor(table, AsI64(slot)))
  }

  ghost predicate Offers(row: DelegationRow, slotNumber: i64, d: SignedDelegation) {
    row.isActive && row.slotNumber == slotNumber && Load(row) == d
  }

  lemma {:induction false} InActive(table: Table, slotNumber: i64, d: SignedDelegation)
    ensures d in ActiveFor(table, slotNumber) <==> exists i :: 0 <= i < |table| && Offers(table[i], slotNumber, d)
  {
    if table != [] {
      var init, last := table[..|table| - 1], table[|table| - 1];
      InActive(init, slotNumber, d);
      assert forall i :: 0 <= i < |init| ==> init[i] == table[i];
      assert d in ActiveFor(table, slotNumber) <==> d in ActiveFor(init, slotNumber) || Offers(last, slotNumber, d);
      if i :| 0 <= i < |table| && Offers(table[i], slotNumber, d) && d !in ActiveFor(init, slotNumber) {
        assert i == |init|;
      }
      if i :| 0 <= i < |init| && Offers(init[i], slotNumber, d) {
        assert Offers(table[i], slotNumber, d);
      }
    }
  }

  /** Every delegation returned for a slot is for that slot and has an active row. */
  lemma AnswerHasRow(table: Table, slot: u64, ds: seq<SignedDelegation>, d: SignedDelegation) returns (i: nat)
    requires IsAnswer(table, slot, ds) && d in ds
    ensures i < |table| && table[i].isActive && table[i].slotNumber == AsI64(slot) && Load(table[i]) == d
    ensures d.message.slot == slot
  {
    InActive(table, AsI64(slot), d);
    assert d in multiset(ds);
    i :| 0 <= i < |table| && Offers(table[i], AsI64(slot), d);
  }

  // ---- The poll's filters ----

  function Filter(keep: SignedDelegation -> bool, ds: seq<SignedDelegation>): seq<SignedDelegation> {
    if ds == [] then []
    else Filter(keep, ds[..|ds| - 1]) + (if keep(ds[|ds| - 1]) then [ds[|ds| - 1]] else [])
  }

  predicate Healthy(answer: Option<ValidatorInfo>) {
    answer.Some? && answer.value.isActive && !answer.value.isSlashed
  }

  /** `status(i)` is the answer to the i-th lookup; a failed one rejects the delegation. */
  function EligibleOf(ds: seq<SignedDelegation>, status: nat -> Option<ValidatorInfo>): seq<SignedDelegation> {
    if ds == [] then []
    else
      EligibleOf(ds[..|ds| - 1], status) + (if Healthy(status(|ds| - 1)) then [ds[|ds| - 1]] else [])
  }

  function IsOurs(ourKey: PublicKey): SignedDelegation -> bool {
    (d: SignedDelegation) => d.message.delegate == ourKey
  }

  function IsValid(bls: Bls): SignedDelegation -> bool {
    (d: SignedDelegation) => Verify(bls, d) == Valid
  }

  /** What a poll tries to save of the relay's answer. */
  function Kept(bls: Bls, ourKey: PublicKey, answer: seq<SignedDelegation>, status: nat -> Option<ValidatorInfo>)
    : seq<SignedDelegation>
  {
    EligibleOf(Filter(IsValid(bls), Filter(IsOurs(ourKey), answer)), status)
  }

  lemma {:induction false} InFilter(keep: SignedDelegation -> bool, ds: seq<SignedDelegation>, d: SignedDelegation)
    ensures d in Filter(keep, ds) <==> d in ds && keep(d)
  {
    if ds != [] {
      InFilter(keep, ds[..|ds| - 1], d);
      assert ds == ds[..|ds| - 1] + [ds[|ds| - 1]];
    }
  }

  lemma {:induction false} InEligible(
      ds: seq<SignedDelegation>, status: nat -> Option<ValidatorInfo>, d: SignedDelegation)
    ensures d in EligibleOf(ds, status) <==> exists i :: 0 <= i < |ds| && ds[i] == d && Healthy(status(i))
  {
    if ds != [] {
      var init := ds[..|ds| - 1];
      InEligible(init, status, d);
      if i :| 0 <= i < |ds| && ds[i] == d && Healthy(status(i)) {
        assert i < |init| ==> init[i] == ds[i];
      }
      if i :| 0 <= i < |init| && init[i] == d && Healthy(status(i)) {
        assert ds[i] == init[i];
      }
    }
  }

  lemma KeptIsOursAndValid(
      bls: Bls, ourKey: PublicKey, answer: seq<SignedDelegation>, status: nat -> Option<ValidatorInfo>,
      d: SignedDelegation)
    requires d in Kept(bls, ourKey, answer, status)
    ensures d in answer && d.message.delegate == ourKey && Verify(bls, d) == Valid
  {
    var ours := Filter(IsOurs(ourKey), answer);
    InEligible(Filter(IsValid(bls), ours), status, d);
    InFilter(IsValid(bls), ours, d);
    InFilter(IsOurs(ourKey), answer, d);
  }

  lemma FilterAppend(keep: SignedDelegation -> bool, ds: seq<SignedDelegation>, d: SignedDelegation)
    ensures Filter(keep, ds + [d]) == Filter(keep, ds) + (if keep(d) then [d] else [])
  {
    assert (ds + [d])[..|ds|] == ds;
  }

  lemma EligibleAppend(ds: seq<SignedDelegation>, d: SignedDelegation, status: nat -> Option<ValidatorInfo>)
    ensures EligibleOf(ds + [d], status) == EligibleOf(ds, status) + (if Healthy(status(|ds|)) then [d] else [])
  {
    assert (ds + [d])[..|ds|] == ds;
  }

  method FilterBy(ds: seq<SignedDelegation>, keep: SignedDelegation -> bool)
    returns (kept: seq<SignedDelegation>, rejected: nat)
    ensures kept == Filter(keep, ds)
    ensures |kept| + rejected == |ds|
  {
    kept, rejected := [], 0;
    for i := 0 to |ds|
      invariant kept == Filter(keep, ds[..i])
      invariant |kept| + rejected == i
    {
      FilterAppend(keep, ds[..i], ds[i]);
      assert ds[..i + 1] == ds[..i] + [ds[i]];
      if keep(ds[i]) {
        kept := kept + [ds[i]];
      } else {
        rejected := rejected + 1;
      }
    }
    assert ds[..|ds|] == ds;
  }

  method FilterEligible(ds: seq<SignedDelegation>, status: nat -> Option<ValidatorInfo>)
    returns (eligible: seq<SignedDelegation>, ineligible: nat)
    ensures eligible == EligibleOf(ds, status)
    ensures |eligible| + ineligible == |ds|
  {
    eligible, ineligible := [], 0;
    for i := 0 to |ds|
      invariant eligible == EligibleOf(ds[..i], status)
      invariant |eligible| + ineligible == i
    {
      EligibleAppend(ds[..i], ds[i], status);
      assert ds[..i + 1] == ds[..i] + [ds[i]];
      match status(i) {
        case Some(info) =>
          if info.isSlashed || !info.isActive {
            ineligible := ineligible + 1;
          } else {
            eligible := eligible + [ds[i]];
          }
        case None => ineligible := ineligible + 1;
      }
    }
    assert ds[..|ds|] == ds;
  }

  // ---- The store ----

  method AllValid(ds: seq<SignedDelegation>, bls: Bls) returns (valid: bool)
    ensures valid <==> AllVerify(bls, ds)
  {
    for i := 0 to |ds|
      invariant forall j :: 0 <= j < i ==> Verify(bls, ds[j]) == Valid
    {
      if Verify(bls, ds[i]) != Valid {
        return false;
      }
    }
    return true;
  }

  /** The row an insert adds, if any: `RETURNING` yields nothing on a conflict. */
  method InsertOrSkip(table: Table, d: SignedDelegation) returns (inserted: Table)
    ensures table + inserted == Insert(table, d)
  {
    inserted := if RowFor(table, KeyOf(Store(d))).Some? then [] else [Store(d)];
  }

  /** The transaction of a batch: the first refused row ends it. */
  method InsertBatch(table: Table, ds: seq<SignedDelegation>) returns (transaction: Table, ids: Option<seq<Key>>)
    ensures ids.Some? <==> AllAcceptable(ds)
    ensures ids.Some? ==> transaction == InsertAll(table, ds) && ids.value == KeysOf(transaction[|table|..])
  {
    transaction := table;
    var keys: seq<Key> := [];
    for i := 0 to |ds|
      invariant AllAcceptable(ds[..i])
      invariant transaction == InsertAll(table, ds[..i])
      invariant keys == KeysOf(transaction[|table|..])
    {
      if !Acceptable(ds[i]) {
        return table, None;
      }
      assert ds[..i + 1][..i] == ds[..i];
      var inserted := InsertOrSkip(transaction, ds[i]);
      KeysAppend(transaction, |table|, inserted);
      keys := keys + KeysOf(inserted);
      transaction := transaction + inserted;
    }
    assert ds[..|ds|] == ds;
    return transaction, Some(keys);
  }

  lemma KeysAppend(table: Table, start: nat, inserted: Table)
    requires start <= |table|
    ensures KeysOf((table + inserted)[start..]) == KeysOf(table[start..]) + KeysOf(inserted)
  {
    assert (table + inserted)[start..] == table[start..] + inserted;
  }

  class DelegationStore {
    var table: Table

    constructor ()
      ensures table == []
    {
      table := [];
    }

    /** The keys of the new rows, or `None` for a bad signature or a database error. */
    method SaveDelegationsBatch(ds: seq<SignedDelegation>, bls: Bls) returns (ids: Option<seq<Key>>)
      modifies this
      ensures table == SaveBatch(bls, old(table), ds)
      ensures ids == if Storable(bls, ds) then Some(KeysOf(table[|old(table)|..])) else None
    {
      var valid := AllValid(ds, bls);
      if !valid {
        return None;
      }
      var transaction, keys := InsertBatch(table, ds);
      if keys.Some? {
        table := transaction;
      }
      return keys;
    }

    method GetDelegationsForSlot(slot: u64) returns (ds: seq<SignedDelegation>)
      ensures IsAnswer(table, slot, ds)
    {
      ds := [];
      for i := 0 to |table|
        invariant ds == ActiveFor(table[..i], AsI64(slot))
      {
        assert table[..i + 1][..i] == table[..i];
        if table[i].slotNumber == AsI64(slot) && table[i].isActive {
          ds := ds + [Load(table[i])];
        }
      }
      assert table[..|table|] == table;
    }

    method DeactivateExpired(currentSlot: u64) returns (touched: nat)
      modifies this
      ensures table == ExpireBefore(old(table), currentSlot)
      ensures touched == |Expired(old(table), |old(table)|, currentSlot)|
    {
      var rows := table;
      var later: Table := [];
      touched := 0;
      for i := 0 to |rows|
        invariant |later| == i && forall j :: 0 <= j < i ==> later[j] == ExpireBefore(rows, currentSlot)[j]
        invariant touched == |Expired(rows, i, currentSlot)|
      {
        ExpiredAppend(rows, i, currentSlot);
        if rows[i].slotNumber < AsI64(currentSlot) && rows[i].isActive {
          later := later + [rows[i].(isActive := false)];
          touched := touched + 1;
        } else {
          later := later + [rows[i]];
        }
      }
      table := later;
    }

    method DeactivateById(key: Key)
      modifies this
      ensures table == DeactivateKey(old(table), key)
    {
      table := DeactivateKey(table, key);
    }

    /** A whole poll of one slot: `None` when the relay or the save fails. */
    method PollDelegationsForSlot(
        answer: Option<seq<SignedDelegation>>, status: nat -> Option<ValidatorInfo>, bls: Bls, ourKey: PublicKey)
      returns (saved: Option<nat>)
      modifies this
      ensures table == if answer.Some? then SaveBatch(bls, old(table), Kept(bls, ourKey, answer.value, status))
                       else old(table)
      ensures saved.Some? <==> answer.Some? && Storable(bls, Kept(bls, ourKey, answer.value, status))
      ensures saved.Some? ==> saved.value == |table| - |old(table)|
    {
      if answer.None? {
        return None;
      }
      if answer.value == [] {
        return Some(0);
      }
      var relevant, _ := FilterBy(answer.value, IsOurs(ourKey));
      if relevant == [] {
        return Some(0);
      }
      var verified, _ := FilterBy(relevant, IsValid(bls));
      if verified == [] {
        return Some(0);
      }
      var eligible, _ := FilterEligible(verified, status);
      if eligible == [] {
        return Some(0);
      }
      var ids := SaveDelegationsBatch(eligible, bls);
      match ids {
        case Some(keys) => saved := Some(|keys|);
        case None => saved := None;
      }
    }

    /** Deactivates what has expired, then every row whose proposer is known to be slashed or
        inactive; a failed lookup changes nothing. */
    method CleanupExpiredDelegations(currentSlot: u64, status: Key -> Option<ValidatorInfo>)
      requires UniqueKeys(table)
      modifies this
      ensures table == Cleaned(old(table), currentSlot, status)
    {
      var _ := DeactivateExpired(currentSlot);
      ghost var expired := table;
      var active := ActiveKeys(table);
      for i := 0 to |active|
        invariant |table| == |expired|
        invariant forall j :: 0 <= j < |table| ==>
                    table[j] == expired[j].(isActive := expired[j].isActive
                      && !(Unhealthy(status(KeyOf(expired[j]))) && KeyOf(expired[j]) in active[..i]))
      {
        assert active[..i + 1] == active[..i] + [active[i]];
        if Unhealthy(status(active[i])) {
          DeactivateById(active[i]);
        }
      }
      assert active[..|active|] == active;
      assert forall j :: 0 <= j < |table| ==> table[j] == Cleaned(old(table), currentSlot, status)[j];
    }
  }

  ghost function Expired(table: Table, bound: nat, currentSlot: u64): set<nat>
    requires bound <= |table|
  {
    set i: nat | i < bound && table[i].isActive && table[i].slotNumber < AsI64(currentSlot)
  }

  /** What an expiry counts are the rows it makes inactive. */
  lemma ExpiredExactly(table: Table, currentSlot: u64, i: nat)
    requires i < |table|
    ensures i in Expired(table, |table|, currentSlot)
       <==> table[i].isActive && !ExpireBefore(table, currentSlot)[i].isActive
  {
  }

  lemma ExpiredAppend(table: Table, i: nat, currentSlot: u64)
    requires i < |table|
    ensures |Expired(table, i + 1, currentSlot)| == |Expired(table, i, currentSlot)|
              + (if table[i].isActive && table[i].slotNumber < AsI64(currentSlot) then 1 else 0)
  {
    var before := Expired(table, i, currentSlot);
    assert Expired(table, i + 1, currentSlot)
        == if table[i].isActive && table[i].slotNumber < AsI64(currentSlot) then before + {i} else before;
  }

  predicate Unhealthy(answer: Option<ValidatorInfo>) {
    answer.Some? && (answer.value.isSlashed || !answer.value.isActive)
  }

  function ActiveKeys(table: Table): (keys: seq<Key>)
    ensures forall i :: 0 <= i < |table| && table[i].isActive ==> KeyOf(table[i]) in keys
  {
    if table == [] then []
    else ActiveKeys(table[..|table| - 1]) + (if table[|table| - 1].isActive then [KeyOf(table[|table| - 1])] else [])
  }

  function Cleaned(table: Table, currentSlot: u64, status: Key -> Option<ValidatorInfo>): Table {
    Silence(table, (row: DelegationRow) => row.slotNumber < AsI64(currentSlot) || Unhealthy(status(KeyOf(row))))
  }

  // ---- Batches ----

  function FirstFor(ds: seq<SignedDelegation>, key: Key): Option<SignedDelegation> {
    if ds == [] then None
    else
      match FirstFor(ds[..|ds| - 1], key)
      case Some(d) => Some(d)
      case None => if KeyOf(Store(ds[|ds| - 1])) == key then Some(ds[|ds| - 1]) else None
  }

  lemma RowForAppend(table: Table, row: DelegationRow, key: Key)
    ensures RowFor(table + [row], key)
         == if RowFor(table, key).None? && KeyOf(row) == key then Some(row) else RowFor(table, key)
  {
    assert (table + [row])[..|table|] == table;
  }

  /** First wins: a key keeps the row it had, else it gets the first delegation of the batch. */
  lemma {:induction false} FirstWins(table: Table, ds: seq<SignedDelegation>, key: Key)
    ensures RowFor(InsertAll(table, ds), key)
         == if RowFor(table, key).Some? then RowFor(table, key)
            else if FirstFor(ds, key).Some? then Some(Store(FirstFor(ds, key).value))
            else None
  {
    if ds != [] {
      var init, last := ds[..|ds| - 1], ds[|ds| - 1];
      FirstWins(table, init, key);
      FirstWins(table, init, KeyOf(Store(last)));
      RowForAppend(InsertAll(table, init), Store(last), key);
    }
  }

  /** A batch that can be stored adds no row exactly when every key is taken. */
  lemma {:induction false} InsertsNothingExactly(table: Table, ds: seq<SignedDelegation>)
    ensures InsertAll(table, ds) == table
       <==> forall i :: 0 <= i < |ds| ==> RowFor(table, KeyOf(Store(ds[i]))).Some?
  {
    if ds != [] {
      var init, last := ds[..|ds| - 1], ds[|ds| - 1];
      InsertsNothingExactly(table, init);
      assert ds == init + [last];
      assert table <= InsertAll(table, init) <= InsertAll(table, ds);
      if InsertAll(table, ds) == table {
        assert InsertAll(table, init) == table;
      }
    }
  }

  lemma {:induction false} InsertAllUnique(table: Table, ds: seq<SignedDelegation>)
    requires UniqueKeys(table)
    ensures UniqueKeys(InsertAll(table, ds))
  {
    if ds != [] {
      var before := InsertAll(table, ds[..|ds| - 1]);
      InsertAllUnique(table, ds[..|ds| - 1]);
      RowForIndex(before, KeyOf(Store(ds[|ds| - 1])));
    }
  }

  lemma {:induction false} NewRowsAreStored(table: Table, ds: seq<SignedDelegation>, row: DelegationRow)
    requires row in InsertAll(table, ds)
    ensures row in table || exists i :: 0 <= i < |ds| && row == Store(ds[i])
  {
    if ds != [] {
      var init := ds[..|ds| - 1];
      if row in InsertAll(table, init) {
        NewRowsAreStored(table, init, row);
        assert forall i :: 0 <= i < |init| ==> init[i] == ds[i];
      }
    }
  }

  // ---- Runs ----

  datatype Action =
    | Poll(answer: seq<SignedDelegation>, status: nat -> Option<ValidatorInfo>)
    | Expire(currentSlot: u64)
    | Deactivate(key: Key)

  function Step(bls: Bls, ourKey: PublicKey, table: Table, a: Action): Table {
    match a
    case Poll(answer, status) => SaveBatch(bls, table, Kept(bls, ourKey, answer, status))
    case Expire(currentSlot) => ExpireBefore(table, currentSlot)
    case Deactivate(key) => DeactivateKey(table, key)
  }

  /** Any interleaving of the transactions of polls and cleanups. */
  function Run(bls: Bls, ourKey: PublicKey, table: Table, actions: seq<Action>): Table
    decreases |actions|
  {
    if actions == [] then table else Run(bls, ourKey, Step(bls, ourKey, table, actions[0]), actions[1..])
  }

  /** Rows are never deleted; a row changes at most from active to inactive. */
  ghost predicate Settles(table: Table, later: Table) {
    && |table| <= |later|
    && forall i :: 0 <= i < |table| ==>
         later[i] == table[i].(isActive := later[i].isActive) && (later[i].isActive ==> table[i].isActive)
  }

  /** What the gateway may rely on in a row. */
  ghost predicate RowOk(bls: Bls, ourKey: PublicKey, row: DelegationRow) {
    && Verify(bls, Load(row)) == Valid
    && row.delegate == ourKey
    && row.slotNumber >= 0
    && Address.MatchesHexColumn(row.committer, 40)
  }

  ghost predicate TableOk(bls: Bls, ourKey: PublicKey, table: Table) {
    UniqueKeys(table) && forall i :: 0 <= i < |table| ==> RowOk(bls, ourKey, table[i])
  }

  lemma PollOk(
      bls: Bls, ourKey: PublicKey, table: Table, answer: seq<SignedDelegation>, status: nat -> Option<ValidatorInfo>)
    requires TableOk(bls, ourKey, table)
    ensures TableOk(bls, ourKey, SaveBatch(bls, table, Kept(bls, ourKey, answer, status)))
  {
    var ds := Kept(bls, ourKey, answer, status);
    if Storable(bls, ds) {
      var later := InsertAll(table, ds);
      InsertAllUnique(table, ds);
      forall i | 0 <= i < |later|
        ensures RowOk(bls, ourKey, later[i])
      {
        NewRowsAreStored(table, ds, later[i]);
        if j :| 0 <= j < |ds| && later[i] == Store(ds[j]) {
          KeptIsOursAndValid(bls, ourKey, answer, status, ds[j]);
          LoadStored(ds[j]);
        }
      }
    }
  }

  lemma SilenceOk(bls: Bls, ourKey: PublicKey, table: Table, off: DelegationRow -> bool)
    requires TableOk(bls, ourKey, table)
    ensures TableOk(bls, ourKey, Silence(table, off))
  {
    var later := Silence(table, off);
    forall i | 0 <= i < |later|
      ensures RowOk(bls, ourKey, later[i]) && KeyOf(later[i]) == KeyOf(table[i])
    {
      assert Load(later[i]) == Load(table[i]);
      assert RowOk(bls, ourKey, table[i]);
    }
  }

  lemma StepOk(bls: Bls, ourKey: PublicKey, table: Table, a: Action)
    requires TableOk(bls, ourKey, table)
    ensures TableOk(bls, ourKey, Step(bls, ourKey, table, a))
  {
    match a
    case Poll(answer, status) => PollOk(bls, ourKey, table, answer, status);
    case Expire(currentSlot) =>
      SilenceOk(bls, ourKey, table, (row: DelegationRow) => row.slotNumber < AsI64(currentSlot));
    case Deactivate(key) => SilenceOk(bls, ourKey, table, (row: DelegationRow) => KeyOf(row) == key);
  }

  lemma StepSettles(bls: Bls, ourKey: PublicKey, table: Table, a: Action)
    ensures Settles(table, Step(bls, ourKey, table, a))
  {
  }

  /** In every run: one row at most per proposer and slot, every row's signature verifies for our
      key, and a row once stored keeps its message and signature and is never active again. */
  lemma {:induction false} RunSettles(bls: Bls, ourKey: PublicKey, table: Table, actions: seq<Action>)
    requires TableOk(bls, ourKey, table)
    ensures TableOk(bls, ourKey, Run(bls, ourKey, table, actions))
    ensures Settles(table, Run(bls, ourKey, table, actions))
    decreases |actions|
  {
    if actions != [] {
      StepOk(bls, ourKey, table, actions[0]);
      StepSettles(bls, ourKey, table, actions[0]);
      RunSettles(bls, ourKey, Step(bls, ourKey, table, actions[0]), actions[1..]);
    }
  }

  lemma SettledKey(table: Table, later: Table, key: Key)
    requires Settles(table, later) && RowFor(table, key).Some?
    ensures RowFor(later, key).Some?
  {
    RowForIndex(table, key);
    RowForIndex(later, key);
    var i :| 0 <= i < |table| && KeyOf(table[i]) == key;
    assert KeyOf(later[i]) == key;
  }

  /** Polling the same answer again, after any polls and cleanups in between, inserts nothing,
      unless a validator has become eligible that was not. */
  lemma RepollInsertsNothing(
      bls: Bls, ourKey: PublicKey, table: Table, answer: seq<SignedDelegation>,
      status: nat -> Option<ValidatorInfo>, actions: seq<Action>, status': nat -> Option<ValidatorInfo>)
    requires TableOk(bls, ourKey, table)
    requires Storable(bls, Kept(bls, ourKey, answer, status))
    requires forall i: nat :: Healthy(status'(i)) ==> Healthy(status(i))
    ensures var later := Run(bls, ourKey, Step(bls, ourKey, table, Poll(answer, status)), actions);
      Step(bls, ourKey, later, Poll(answer, status')) == later
  {
    var ds, again := Kept(bls, ourKey, answer, status), Kept(bls, ourKey, answer, status');
    var polled := Step(bls, ourKey, table, Poll(answer, status));
    var later := Run(bls, ourKey, polled, actions);
    StepOk(bls, ourKey, table, Poll(answer, status));
    RunSettles(bls, ourKey, polled, actions);
    forall i | 0 <= i < |again|
      ensures RowFor(later, KeyOf(Store(again[i]))).Some?
    {
      var verified := Filter(IsValid(bls), Filter(IsOurs(ourKey), answer));
      InEligible(verified, status', again[i]);
      InEligible(verified, status, again[i]);
      assert again[i] in ds;
      FirstWins(table, ds, KeyOf(Store(again[i])));
      FirstForFinds(ds, again[i]);
      SettledKey(polled, later, KeyOf(Store(again[i])));
    }
    InsertsNothingExactly(later, again);
  }

  lemma {:induction false} FirstForFinds(ds: seq<SignedDelegation>, d: SignedDelegation)
    requires d in ds
    ensures FirstFor(ds, KeyOf(Store(d))).Some?
  {
    if d != ds[|ds| - 1] {
      assert d in ds[..|ds| - 1];
      FirstForFinds(ds[..|ds| - 1], d);
    }
  }

  /** Whatever a SELECT for a slot returns verifies for our key and is for that slot, which fits a
      BIGINT. */
  lemma AnswerIsSound(
      bls: Bls, ourKey: PublicKey, table: Table, slot: u64, ds: seq<SignedDelegation>, d: SignedDelegation)
    requires TableOk(bls, ourKey, table) && IsAnswer(table, slot, ds) && d in ds
    ensures Verify(bls, d) == Valid && d.message.delegate == ourKey
    ensures d.message.slot == slot < 0x8000_0000_0000_0000
    ensures Address.MatchesHexColumn(d.message.committer, 40)
  {
    var i := AnswerHasRow(table, slot, ds, d);
    assert RowOk(bls, ourKey, table[i]);
  }

  // ---- Column by column ----

  /** The row that holds a delegation to this key, active when `active`. */
  ghost predicate Holds(row: DelegationRow, d: SignedDelegation, active: bool) {
    && row.proposer == d.message.proposer && row.delegate == d.message.delegate
    && row.committer == d.message.committer && row.slotNumber == d.message.slot
    && row.signature == d.signature && row.isActive == active
  }

  /** An active row for one of the delegations. */
  ghost predicate HoldsOneOf(row: DelegationRow, ds: seq<SignedDelegation>) {
    exists d :: d in ds && Holds(row, d, true)
  }

  /** The validator is known to be active and not slashed. */
  ghost predicate Fit(answer: Option<ValidatorInfo>) {
    match answer
    case None => false
    case Some(info) => info.isActive && !info.isSlashed
  }

  /** How many of the delegations are to our key and signed by their proposers. */
  ghost function SignedCount(bls: Bls, ourKey: PublicKey, ds: seq<SignedDelegation>): nat {
    if ds == [] then 0
    else
      var d := ds[|ds| - 1];
      SignedCount(bls, ourKey, ds[..|ds| - 1])
      + (if d.message.delegate == ourKey && ProposerSigned(bls, d.message, d.signature) then 1 else 0)
  }

  lemma {:induction false} CountsVerified(bls: Bls, ourKey: PublicKey, ds: seq<SignedDelegation>)
    ensures |Filter(IsValid(bls), Filter(IsOurs(ourKey), ds))| == SignedCount(bls, ourKey, ds)
  {
    if ds != [] {
      var init, d := ds[..|ds| - 1], ds[|ds| - 1];
      CountsVerified(bls, ourKey, init);
      VerifiesExactly(bls, d);
      FilterAppend(IsValid(bls), Filter(IsOurs(ourKey), init), d);
      assert Filter(IsOurs(ourKey), init) + [] == Filter(IsOurs(ourKey), init);
    }
  }

  /** What a poll tries to save, one delegation after the other: it is kept exactly when it is to our key,
      its proposer has signed it, and its own lookup, numbered among such ones, finds it fit. */
  lemma KeptNext(
      bls: Bls, ourKey: PublicKey, answer: seq<SignedDelegation>, d: SignedDelegation,
      status: nat -> Option<ValidatorInfo>)
    ensures Kept(bls, ourKey, [], status) == []
    ensures Kept(bls, ourKey, answer + [d], status)
         == Kept(bls, ourKey, answer, status)
            + (if d.message.delegate == ourKey && ProposerSigned(bls, d.message, d.signature)
                  && Fit(status(SignedCount(bls, ourKey, answer)))
               then [d] else [])
  {
    var ours := Filter(IsOurs(ourKey), answer);
    var verified := Filter(IsValid(bls), ours);
    CountsVerified(bls, ourKey, answer);
    VerifiesExactly(bls, d);
    FilterAppend(IsOurs(ourKey), answer, d);
    FilterAppend(IsValid(bls), ours, d);
    EligibleAppend(verified, d, status);
    assert ours + [] == ours && verified + [] == verified;
    assert EligibleOf(verified, status) + [] == EligibleOf(verified, status);
  }

  /** A poll whose delegations all have a slot within BIGINT and a prefixed committer adds rows that hold
      such delegations, active, and afterwards every one of them has a row with its proposer and slot;
      any other poll changes nothing. */
  lemma PollsExactly(
      bls: Bls, ourKey: PublicKey, table: Table, answer: seq<SignedDelegation>, status: nat -> Option<ValidatorInfo>)
    ensures var kept := Kept(bls, ourKey, answer, status);
      var later := Step(bls, ourKey, table, Poll(answer, status));
      if forall d :: d in kept ==> d.message.slot < 0x8000_0000_0000_0000 && "0x" <= d.message.committer
      then && table <= later
           && (forall i :: |table| <= i < |later| ==> HoldsOneOf(later[i], kept))
           && (forall d :: d in kept ==> HasKey(later, d.message.proposer, d.message.slot))
      else later == table
  {
    var kept := Kept(bls, ourKey, answer, status);
    forall d | d in kept
      ensures Verify(bls, d) == Valid
    {
      KeptIsOursAndValid(bls, ourKey, answer, status, d);
    }
    StorableExactly(bls, kept);
    if Storable(bls, kept) {
      InsertsHeld(table, kept);
      assert Step(bls, ourKey, table, Poll(answer, status)) == InsertAll(table, kept);
      forall d | d in kept
        ensures HasKey(InsertAll(table, kept), d.message.proposer, d.message.slot)
      {
        InsertsKey(table, kept, d);
      }
    }
  }

  lemma StorableExactly(bls: Bls, ds: seq<SignedDelegation>)
    requires forall d :: d in ds ==> Verify(bls, d) == Valid
    ensures Storable(bls, ds)
       <==> forall d :: d in ds ==> d.message.slot < 0x8000_0000_0000_0000 && "0x" <= d.message.committer
  {
    forall d | d in ds
      ensures Acceptable(d) <==> d.message.slot < 0x8000_0000_0000_0000 && "0x" <= d.message.committer
    {
      AcceptableExactly(bls, d);
    }
    if !AllAcceptable(ds) {
      var i :| 0 <= i < |ds| && !Acceptable(ds[i]);
      assert ds[i] in ds;
    }
  }

  ghost predicate HasKey(table: Table, proposer: PublicKey, slot: u64) {
    exists i :: 0 <= i < |table| && table[i].proposer == proposer && table[i].slotNumber == slot
  }

  lemma {:induction false} InsertsHeld(table: Table, ds: seq<SignedDelegation>)
    requires AllAcceptable(ds)
    ensures forall i :: |table| <= i < |InsertAll(table, ds)| ==> HoldsOneOf(InsertAll(table, ds)[i], ds)
  {
    if ds == [] {
      assert InsertAll(table, ds) == table;
    } else {
      var init, last := ds[..|ds| - 1], ds[|ds| - 1];
      InsertsHeld(table, init);
      assert Acceptable(last);
      var before, later := InsertAll(table, init), InsertAll(table, ds);
      forall i | |table| <= i < |later|
        ensures HoldsOneOf(later[i], ds)
      {
        if i < |before| {
          var d :| d in init && Holds(before[i], d, true);
          assert d in ds;
        } else {
          assert last in ds && Holds(later[i], last, true);
        }
      }
    }
  }

  lemma InsertsKey(table: Table, ds: seq<SignedDelegation>, d: SignedDelegation)
    requires AllAcceptable(ds) && d in ds
    ensures HasKey(InsertAll(table, ds), d.message.proposer, d.message.slot)
  {
    var key, later := KeyOf(Store(d)), InsertAll(table, ds);
    FirstForFinds(ds, d);
    FirstWins(table, ds, key);
    RowForIndex(later, key);
    var i :| 0 <= i < |ds| && ds[i] == d;
    assert Acceptable(ds[i]);
  }

  /** The first delegation of a batch for a proposer and slot. */
  lemma {:induction false} FirstForExactly(
      ds: seq<SignedDelegation>, proposer: PublicKey, slot: u64, d: SignedDelegation)
    requires slot < 0x8000_0000_0000_0000
    ensures FirstFor(ds, Key(proposer, slot)) == Some(d)
       <==> exists i :: 0 <= i < |ds| && ds[i] == d && IsFirstFor(ds, i, proposer, slot)
  {
    if ds != [] {
      var init := ds[..|ds| - 1];
      FirstForExactly(init, proposer, slot, d);
      FirstForNone(init, proposer, slot);
      if i :| 0 <= i < |init| && init[i] == d && IsFirstFor(init, i, proposer, slot) {
        assert IsFirstFor(ds, i, proposer, slot);
      }
      if i :| 0 <= i < |ds| && ds[i] == d && IsFirstFor(ds, i, proposer, slot) {
        if i < |init| {
          assert IsFirstFor(init, i, proposer, slot);
        }
      }
      if FirstFor(init, Key(proposer, slot)).None? && FirstFor(ds, Key(proposer, slot)) == Some(d) {
        assert IsFirstFor(ds, |init|, proposer, slot);
      }
    }
  }

  ghost predicate IsFor(d: SignedDelegation, proposer: PublicKey, slot: u64) {
    d.message.proposer == proposer && d.message.slot == slot
  }

  ghost predicate IsFirstFor(ds: seq<SignedDelegation>, i: int, proposer: PublicKey, slot: u64) {
    0 <= i < |ds| && IsFor(ds[i], proposer, slot) && forall j :: 0 <= j < i ==> !IsFor(ds[j], proposer, slot)
  }

  lemma {:induction false} FirstForNone(ds: seq<SignedDelegation>, proposer: PublicKey, slot: u64)
    requires slot < 0x8000_0000_0000_0000
    ensures FirstFor(ds, Key(proposer, slot)).None? <==> forall j :: 0 <= j < |ds| ==> !IsFor(ds[j], proposer, slot)
  {
    if ds != [] {
      FirstForNone(ds[..|ds| - 1], proposer, slot);
      assert forall j :: 0 <= j < |ds| - 1 ==> ds[..|ds| - 1][j] == ds[j];
    }
  }

  /** Expiry makes exactly the rows of earlier slots inactive and changes nothing else. */
  lemma ExpiresExactly(table: Table, currentSlot: u64, i: nat)
    requires i < |table| && currentSlot < 0x8000_0000_0000_0000
    ensures |ExpireBefore(table, currentSlot)| == |table|
    ensures ExpireBefore(table, currentSlot)[i]
         == table[i].(isActive := table[i].isActive && table[i].slotNumber >= currentSlot)
  {
  }

  /** Deactivation makes exactly the rows of that proposer and slot inactive. */
  lemma DeactivatesExactly(table: Table, proposer: PublicKey, slotNumber: i64, i: nat)
    requires i < |table|
    ensures |DeactivateKey(table, Key(proposer, slotNumber))| == |table|
    ensures DeactivateKey(table, Key(proposer, slotNumber))[i]
         == table[i].(isActive := table[i].isActive
                        && !(table[i].proposer == proposer && table[i].slotNumber == slotNumber))
  {
  }

  /** A cleanup leaves active exactly the active rows of current slots whose proposer is not known to be
      slashed or inactive. */
  lemma CleansExactly(table: Table, currentSlot: u64, status: Key -> Option<ValidatorInfo>, i: nat)
    requires i < |table| && currentSlot < 0x8000_0000_0000_0000
    ensures |Cleaned(table, currentSlot, status)| == |table|
    ensures var answer := status(Key(table[i].proposer, table[i].slotNumber));
      Cleaned(table, currentSlot, status)[i]
      == table[i].(isActive := table[i].isActive && table[i].slotNumber >= currentSlot
                     && (answer.None? || (answer.value.isActive && !answer.value.isSlashed)))
  {
    assert KeyOf(table[i]) == Key(table[i].proposer, table[i].slotNumber);
  }

  /** What a SELECT returns for a slot are the delegations of its active rows, each once. */
  lemma AnswersExactly(table: Table, slot: u64, ds: seq<SignedDelegation>, d: SignedDelegation)
    requires slot < 0x8000_0000_0000_0000 && IsAnswer(table, slot, ds)
    ensures d in ds <==> d.message.slot == slot && exists i :: 0 <= i < |table| && Holds(table[i], d, true)
    ensures UniqueKeys(table) ==> multiset(ds)[d] <= 1
  {
    assert d in ds <==> d in multiset(ds);
    assert d in ActiveFor(table, slot) <==> d in multiset(ActiveFor(table, slot));
    InActive(table, slot, d);
    forall i | 0 <= i < |table|
      ensures Offers(table[i], slot, d) <==> d.message.slot == slot && Holds(table[i], d, true)
    {
    }
    if UniqueKeys(table) {
      ActiveOnce(table, slot, d);
    }
  }

  lemma OnlyLast(table: Table, slot: u64, d: SignedDelegation)
    requires slot < 0x8000_0000_0000_0000 && UniqueKeys(table) && table != []
    requires Offers(table[|table| - 1], slot, d)
    ensures var init := table[..|table| - 1];
      forall i :: 0 <= i < |init| ==> !Offers(init[i], slot, d)
  {
  }

  lemma {:induction false} ActiveOnce(table: Table, slot: u64, d: SignedDelegation)
    requires slot < 0x8000_0000_0000_0000 && UniqueKeys(table)
    ensures multiset(ActiveFor(table, slot))[d] <= 1
  {
    if table != [] {
      var init, last := table[..|table| - 1], table[|table| - 1];
      ActiveOnce(init, slot, d);
      if last.isActive && last.slotNumber == slot && Load(last) == d && d in ActiveFor(init, slot) {
        InActive(init, slot, d);
        OnlyLast(table, slot, d);
      }
    }
  }

  /** In every run each row is to our key, for a slot within BIGINT, has a committer of the column's pattern
      and carries its proposer's signature; no two rows have the same proposer and slot. */
  lemma RowsAreSound(bls: Bls, ourKey: PublicKey, actions: seq<Action>, i: nat)
    requires i < |Run(bls, ourKey, [], actions)|
    ensures var table := Run(bls, ourKey, [], actions);
      var row := table[i];
      && row.delegate == ourKey && row.slotNumber >= 0 && Address.MatchesHexColumn(row.committer, 40)
      && ProposerSigned(
           bls, DelegationMessage(row.proposer, row.delegate, row.committer, row.slotNumber), row.signature)
      && forall j :: 0 <= j < |table| && j != i ==>
           table[j].proposer != row.proposer || table[j].slotNumber != row.slotNumber
  {
    RunSettles(bls, ourKey, [], actions);
    var table := Run(bls, ourKey, [], actions);
    assert RowOk(bls, ourKey, table[i]);
    VerifiesExactly(bls, Load(table[i]));
    forall j | 0 <= j < |table| && j != i
      ensures KeyOf(table[j]) != KeyOf(table[i])
    {
      if j < i {
        assert KeyOf(table[j]) != KeyOf(table[i]);
      } else {
        assert KeyOf(table[i]) != KeyOf(table[j]);
      }
    }
  }
}
