/** The whole gateway over its three tables: any number of request handlers (src/rpc/handlers.rs),
    delegation polls and cleanups, and submission ticks. Every SQL statement or transaction and every
    answer of the beacon node, the gas oracle and the relay is one step; steps interleave freely. */
module Gateway {
  import opened Machine
  import opened Types
  import opened Payload
  import Address
  import Preimages
  import opened Pricing
  import opened Commitments
  import C = CongestionTable
  import D = Delegations
  import P = Pipeline
  import Submission

  type EcdsaSignature = s: bytes | |s| == 65 witness seq(65, i => 0)

  datatype Config = Config(
    json: Json, bls: D.Bls, ecdsa: Digest -> EcdsaSignature,
    ourKey: PublicKey, committerAddress: string, whitelist: seq<string>, builders: KeyList,
    power: Exponent, lowFee: real, highFee: real, gasLimit: u64,
    genesisTime: u64, representable: i64 -> bool)

  // ---- The pure parts of a handler ----

  predicate Whitelisted(cfg: Config, slasher: string) {
    exists i ::
      0 <= i < |cfg.whitelist| && Address.NormalizeAddress(cfg.whitelist[i]) == Address.NormalizeAddress(slasher)
  }

  datatype Checked = Checked(slot: u64, hash: string)

  /** Type, whitelist, slot and request hash, in this order; every failure ends the request. */
  function Validate(cfg: Config, request: CommitmentRequest): Option<Checked> {
    if request.commitmentType != 1 || !Whitelisted(cfg, request.slasher) then None
    else
      var slot :- ExtractSlot(cfg.json, request.commitmentType, request.payload);
      var hash :- Preimages.RequestHash(cfg.bls.keccak, request);
      Some(Checked(slot, hash))
  }

  predicate Matches(d: SignedDelegation, slasher: string, slot: u64) {
    Address.NormalizeAddress(d.message.committer) == Address.NormalizeAddress(slasher) && d.message.slot == slot
  }

  function FirstMatch(ds: seq<SignedDelegation>, slasher: string, slot: u64): (d: Option<SignedDelegation>)
    ensures d.Some? ==> exists i :: IsFirstMatch(ds, slasher, slot, i) && ds[i] == d.value
    ensures d.None? ==> forall e :: e in ds ==> !Matches(e, slasher, slot)
  {
    if ds == [] then None
    else if Matches(ds[0], slasher, slot) then
      assert IsFirstMatch(ds, slasher, slot, 0);
      Some(ds[0])
    else
      NextMatches(ds, slasher, slot);
      FirstMatch(ds[1..], slasher, slot)
  }

  lemma NextMatches(ds: seq<SignedDelegation>, slasher: string, slot: u64)
    requires ds != [] && !Matches(ds[0], slasher, slot)
    ensures forall i :: IsFirstMatch(ds[1..], slasher, slot, i) ==> IsFirstMatch(ds, slasher, slot, i + 1)
    ensures forall i :: IsFirstMatch(ds[1..], slasher, slot, i) ==> ds[1..][i] == ds[i + 1]
  {
    assert forall j :: 1 <= j < |ds| ==> ds[j] == ds[1..][j - 1];
  }

  predicate IsFirstMatch(ds: seq<SignedDelegation>, slasher: string, slot: u64, i: int) {
    && 0 <= i < |ds| && Matches(ds[i], slasher, slot)
    && forall j :: 0 <= j < i ==> !Matches(ds[j], slasher, slot)
  }

  predicate HasSigningKey(cfg: Config, committer: string) {
    Address.NormalizeAddress(committer) == Address.NormalizeAddress(cfg.committerAddress)
  }

  function CommitmentFor(request: CommitmentRequest, hash: string): Commitment {
    Commitment(request.commitmentType, request.payload, hash, request.slasher)
  }

  function Sign(cfg: Config, commitment: Commitment): Option<SignedCommitment> {
    var encoded :- Preimages.EncodeCommitment(commitment);
    Some(SignedCommitment(commitment, "0x" + Address.EncodeHex(cfg.ecdsa(cfg.bls.keccak(encoded)))))
  }

  // ---- States and steps ----

  datatype Handler =
    | Checking(request: CommitmentRequest, slot: u64, hash: string)
    | Authorizing(request: CommitmentRequest, slot: u64, hash: string)
    | Confirming(request: CommitmentRequest, slot: u64, hash: string, delegation: SignedDelegation)
    | Saving(signed: SignedCommitment, slot: u64)
    | Opening(signed: SignedCommitment, slot: u64)
    | Quoting(signed: SignedCommitment, slot: u64, gas: u64, created: Option<Congestion>)
    | Applying(signed: SignedCommitment, slot: u64, gas: u64, quoted: Congestion)
    | Returned(signed: SignedCommitment)
    | Failed

  /** A gas update that took effect, and the handler that made it. */
  datatype Charge = Charge(handler: nat, slot: u64, gas: u64)

  /** `beacon` holds the proposers the beacon node has named, with their slots. */
  datatype State = State(
    pipeline: P.State, delegations: D.Table, slots: C.Table,
    handlers: map<nat, Handler>, beacon: set<(u64, PublicKey)>, charges: seq<Charge>)

  const INITIAL := State(P.INITIAL, [], map[], map[], {}, [])

  datatype Action =
    | Arrive(h: nat, request: CommitmentRequest)
    | Check(h: nat)
    | Authorize(h: nat, answer: seq<SignedDelegation>)
    | Confirm(h: nat, scheduled: PublicKey)
    | Save(h: nat, now: int)
    | Open(h: nat, gasPrice: u64)
    | Quote(h: nat)
    | Apply(h: nat, applied: bool)       // an error of the update is only logged
    | Abort(h: nat)                      // any other I/O error, or an answer that is lost
    | Asking(slot: u64, gasPrice: u64)   // a fee request opens the slot's record
    | Delegating(d: D.Action)
    | Starting(tick: nat, slot: u64, answer: seq<SignedDelegation>)
    | Ticking(p: P.Action)

  function HandlerOf(a: Action): Option<nat> {
    if a.Asking? || a.Delegating? || a.Starting? || a.Ticking? then None else Some(a.h)
  }

  /** A handler that has not arrived cannot move, like one that has failed. */
  function At(s: State, h: nat): Handler {
    if h in s.handlers then s.handlers[h] else Failed
  }

  function Put(s: State, h: nat, x: Handler): State {
    s.(handlers := s.handlers[h := x])
  }

  function Arrived(cfg: Config, request: CommitmentRequest): Handler {
    match Validate(cfg, request)
    case None => Failed
    case Some(checked) => Checking(request, checked.slot, checked.hash)
  }

  function AfterCheck(rows: Rows, x: Handler): Handler
    requires x.Checking?
  {
    if Exists(rows, x.hash) then Failed else Authorizing(x.request, x.slot, x.hash)
  }

  function AfterSelect(cfg: Config, x: Handler, answer: seq<SignedDelegation>): Handler
    requires x.Authorizing?
  {
    match FirstMatch(answer, x.request.slasher, x.slot)
    case None => Failed
    case Some(d) => if D.Verify(cfg.bls, d) == D.Valid then Confirming(x.request, x.slot, x.hash, d) else Failed
  }

  function AfterBeacon(cfg: Config, x: Handler, scheduled: PublicKey): Handler
    requires x.Confirming?
  {
    if scheduled != x.delegation.message.proposer || !HasSigningKey(cfg, x.delegation.message.committer) then Failed
    else
      match Sign(cfg, CommitmentFor(x.request, x.hash))
      case None => Failed
      case Some(signed) => Saving(signed, x.slot)
  }

  function Confirmed(cfg: Config, s: State, h: nat, x: Handler, scheduled: PublicKey): State
    requires x.Confirming?
  {
    Put(s, h, AfterBeacon(cfg, x, scheduled)).(beacon := s.beacon + {(x.slot, scheduled)})
  }

  function NewEntry(cfg: Config, h: nat, signed: SignedCommitment, now: int): Entry {
    Entry(h, signed, SlotColumn(cfg.json, signed.commitment), now)
  }

  function AfterSave(rows: Rows, x: Handler): Handler
    requires x.Saving?
  {
    if SaveOutcome(rows, x.signed) == Inserted then Opening(x.signed, x.slot) else Failed
  }

  ghost function Recorded(cfg: Config, s: State, h: nat, x: Handler, now: int): State
    requires x.Saving?
  {
    Put(s, h, AfterSave(s.pipeline.rows, x)).(
      pipeline := P.Step(s.pipeline, cfg.builders, P.Inserting(NewEntry(cfg, h, x.signed, now))))
  }

  predicate CanOpen(cfg: Config, slot: u64) {
    cfg.representable(AsI64(SaturatingAdd(cfg.genesisTime, SaturatingMul(slot, 12))))
  }

  function Opened(cfg: Config, s: State, h: nat, x: Handler, gasPrice: u64): State
    requires x.Opening?
  {
    match EstimateGas(cfg.json, x.signed.commitment.commitmentType, x.signed.commitment.payload)
    case None => Put(s, h, Failed)
    case Some(gas) =>
      if !CanOpen(cfg, x.slot) then Put(s, h, Failed)
      else
        var created := if C.Get(s.slots, x.slot).Some? then None
                       else Some(NewCongestion(x.slot, gasPrice, cfg.gasLimit));
        Put(s, h, Quoting(x.signed, x.slot, gas, created)).(slots := C.Create(s.slots, x.slot, gasPrice, cfg.gasLimit))
  }

  /** An overflowing total cost ends the request although its row is saved. */
  function AfterQuote(cfg: Config, slots: C.Table, x: Handler): Handler
    requires x.Quoting?
  {
    var record := if x.created.Some? then x.created else C.Get(slots, x.slot);
    match record
    case None => Failed
    case Some(c) =>
      if CheckedMul(Project(cfg.power, c, x.gas, cfg.lowFee, cfg.highFee).currentTxPrice, x.gas).None? then Failed
      else Applying(x.signed, x.slot, x.gas, c)
  }

  function Charged(cfg: Config, s: State, h: nat, x: Handler): State
    requires x.Applying?
  {
    Put(s, h, Returned(x.signed)).(
      slots := C.Update(s.slots, x.slot, x.gas, cfg.power),
      charges := s.charges + [Charge(h, x.slot, x.gas)])
  }

  function MessagesOf(ds: seq<SignedDelegation>): (ms: seq<DelegationMessage>)
    ensures |ms| == |ds| && forall i :: 0 <= i < |ds| ==> ms[i] == ds[i].message
  {
    seq(|ds|, i requires 0 <= i < |ds| => ds[i].message)
  }

  /** The delegations a tick serves: those to our key. */
  function Queue(cfg: Config, answer: seq<SignedDelegation>): seq<DelegationMessage> {
    MessagesOf(D.Filter(D.IsOurs(cfg.ourKey), answer))
  }

  /** What a step does to the commitments, the relay and the ticks. */
  ghost function PipelineAction(cfg: Config, s: State, a: Action): Option<P.Action> {
    match a
    case Save(h, now) => if At(s, h).Saving? then Some(P.Inserting(NewEntry(cfg, h, At(s, h).signed, now))) else None
    case Starting(t, slot, answer) =>
      if D.IsAnswer(s.delegations, slot, answer) then Some(P.Begin(t, slot, Queue(cfg, answer))) else None
    case Ticking(p) => if p.Inserting? || p.Begin? then None else Some(p)
    case _ => None
  }

  ghost function PipelineStep(cfg: Config, s: State, p: P.Action): State {
    s.(pipeline := P.Step(s.pipeline, cfg.builders, p))
  }

  /** A disabled step changes nothing. */
  ghost function Step(cfg: Config, s: State, a: Action): State {
    match a
    case Arrive(h, request) => if h in s.handlers then s else Put(s, h, Arrived(cfg, request))
    case Check(h) => if At(s, h).Checking? then Put(s, h, AfterCheck(s.pipeline.rows, At(s, h))) else s
    case Authorize(h, answer) =>
      if At(s, h).Authorizing? && D.IsAnswer(s.delegations, At(s, h).slot, answer)
      then Put(s, h, AfterSelect(cfg, At(s, h), answer)) else s
    case Confirm(h, scheduled) => if At(s, h).Confirming? then Confirmed(cfg, s, h, At(s, h), scheduled) else s
    case Save(h, now) => if At(s, h).Saving? then Recorded(cfg, s, h, At(s, h), now) else s
    case Open(h, gasPrice) => if At(s, h).Opening? then Opened(cfg, s, h, At(s, h), gasPrice) else s
    case Quote(h) => if At(s, h).Quoting? then Put(s, h, AfterQuote(cfg, s.slots, At(s, h))) else s
    case Apply(h, applied) =>
      if !At(s, h).Applying? then s
      else if applied then Charged(cfg, s, h, At(s, h))
      else Put(s, h, Returned(At(s, h).signed))
    case Abort(h) => if h in s.handlers && !At(s, h).Returned? then Put(s, h, Failed) else s
    case Asking(slot, gasPrice) =>
      if CanOpen(cfg, slot) then s.(slots := C.Create(s.slots, slot, gasPrice, cfg.gasLimit)) else s
    case Delegating(d) => s.(delegations := D.Step(cfg.bls, cfg.ourKey, s.delegations, d))
    case _ =>
      match PipelineAction(cfg, s, a)
      case None => s
      case Some(p) => PipelineStep(cfg, s, p)
  }

  ghost function Run(cfg: Config, s: State, actions: seq<Action>): State
    decreases |actions|
  {
    if actions == [] then s else Run(cfg, Step(cfg, s, actions[0]), actions[1..])
  }

  lemma {:induction false} RunAppend(cfg: Config, s: State, a: seq<Action>, b: seq<Action>)
    ensures Run(cfg, s, a + b) == Run(cfg, Run(cfg, s, a), b)
    decreases |a|
  {
    if a == [] {
      assert a + b == b;
    } else {
      assert (a + b)[1..] == a[1..] + b;
      RunAppend(cfg, Step(cfg, s, a[0]), a[1..], b);
    }
  }

  lemma RunTwo(cfg: Config, s: State, a: Action, b: Action)
    ensures Run(cfg, s, [a, b]) == Step(cfg, Step(cfg, s, a), b)
  {
    assert [a, b][1..] == [b] && [b][1..] == [];
    RunOne(cfg, Step(cfg, s, a), b);
  }

  lemma RunOne(cfg: Config, s: State, a: Action)
    ensures Run(cfg, s, [a]) == Step(cfg, s, a)
  {
    assert [a][1..] == [];
  }

  // ---- A run of the gateway is a run of its pipeline ----

  ghost function PipelineRun(cfg: Config, s: State, actions: seq<Action>): seq<P.Action>
    decreases |actions|
  {
    if actions == [] then []
    else
      var rest := PipelineRun(cfg, Step(cfg, s, actions[0]), actions[1..]);
      match PipelineAction(cfg, s, actions[0])
      case None => rest
      case Some(p) => [p] + rest
  }

  lemma StepPipeline(cfg: Config, s: State, a: Action)
    ensures Step(cfg, s, a).pipeline
         == match PipelineAction(cfg, s, a)
            case None => s.pipeline
            case Some(p) => P.Step(s.pipeline, cfg.builders, p)
  {
  }

  /** So everything proved about interleaved ticks and inserts holds inside the gateway. */
  lemma {:induction false} RunsPipeline(cfg: Config, s: State, actions: seq<Action>)
    ensures Run(cfg, s, actions).pipeline == P.Run(s.pipeline, cfg.builders, PipelineRun(cfg, s, actions))
    decreases |actions|
  {
    if actions != [] {
      StepPipeline(cfg, s, actions[0]);
      var rest := PipelineRun(cfg, Step(cfg, s, actions[0]), actions[1..]);
      RunsPipeline(cfg, Step(cfg, s, actions[0]), actions[1..]);
      if p :| PipelineAction(cfg, s, actions[0]) == Some(p) {
        assert ([p] + rest)[1..] == rest;
      }
    }
  }

  lemma {:induction false} PipelineRunAppend(cfg: Config, s: State, a: seq<Action>, b: seq<Action>)
    ensures PipelineRun(cfg, s, a + b) == PipelineRun(cfg, s, a) + PipelineRun(cfg, Run(cfg, s, a), b)
    decreases |a|
  {
    if a == [] {
      assert a + b == b;
    } else {
      assert (a + b)[1..] == a[1..] + b;
      PipelineRunAppend(cfg, Step(cfg, s, a[0]), a[1..], b);
    }
  }

  // ---- What every step keeps: growth ----

  ghost predicate SlotsGrow(slots: C.Table, later: C.Table) {
    forall slot: u64 :: C.Get(slots, slot).Some? ==>
      C.Get(later, slot).Some? && Grown(C.Get(slots, slot).value, C.Get(later, slot).value)
  }

  ghost predicate Grows(s: State, s': State) {
    && P.Extends(s.pipeline.rows, s'.pipeline.rows)
    && D.Settles(s.delegations, s'.delegations)
    && s.beacon <= s'.beacon
    && SlotsGrow(s.slots, s'.slots)
  }

  lemma StatementGrows(slots: C.Table, st: C.Statement, power: Exponent)
    requires C.AllPriced(slots, power)
    ensures C.AllPriced(C.Execute(slots, st, power), power)
    ensures SlotsGrow(slots, C.Execute(slots, st, power))
  {
    forall slot: u64 | C.Get(slots, slot).Some?
      ensures C.Get(C.Execute(slots, st, power), slot).Some?
      ensures Grown(C.Get(slots, slot).value, C.Get(C.Execute(slots, st, power), slot).value)
    {
      C.StepGrows(slots, st, power, slot);
    }
    C.StepGrows(slots, st, power, 0);
  }

  // ---- What every step keeps: authority ----

  /** The row gives authority for the commitment: it is for its slot, its committer is the slasher and
      the address of the gateway's key, and the beacon node has named its proposer for the slot. */
  ghost predicate Grants(cfg: Config, row: D.DelegationRow, beacon: set<(u64, PublicKey)>, slasher: string, slot: u64) {
    && AsU64(row.slotNumber) == slot
    && Address.NormalizeAddress(row.committer) == Address.NormalizeAddress(slasher)
    && HasSigningKey(cfg, row.committer)
    && (slot, row.proposer) in beacon
  }

  ghost predicate Authorized(cfg: Config, s: State, slasher: string, slot: u64) {
    exists i :: 0 <= i < |s.delegations| && Grants(cfg, s.delegations[i], s.beacon, slasher, slot)
  }

  function RequestOf(c: Commitment): CommitmentRequest {
    CommitmentRequest(c.commitmentType, c.payload, c.slasher)
  }

  /** What the handler signs: a valid request's commitment, with its hash and our signature. */
  ghost predicate Genuine(cfg: Config, signed: SignedCommitment, slot: u64) {
    && Validate(cfg, RequestOf(signed.commitment)) == Some(Checked(slot, signed.commitment.requestHash))
    && Sign(cfg, signed.commitment) == Some(signed)
  }

  ghost predicate SavedBy(rows: Rows, h: nat, signed: SignedCommitment) {
    exists i :: 0 <= i < |rows| && rows[i].entry.id == h && rows[i].entry.signed == signed
  }

  ghost predicate RecordIs(slots: C.Table, slot: u64, since: Option<Congestion>) {
    C.Get(slots, slot).Some? && (since.Some? ==> Grown(since.value, C.Get(slots, slot).value))
  }

  ghost predicate Selectable(table: D.Table, d: SignedDelegation) {
    exists i :: 0 <= i < |table| && D.Load(table[i]) == d
  }

  ghost predicate HandlerOk(cfg: Config, s: State, h: nat, x: Handler) {
    match x
    case Checking(request, slot, hash) => Validate(cfg, request) == Some(Checked(slot, hash))
    case Authorizing(request, slot, hash) => Validate(cfg, request) == Some(Checked(slot, hash))
    case Confirming(request, slot, hash, d) =>
      && Validate(cfg, request) == Some(Checked(slot, hash))
      && Matches(d, request.slasher, slot) && Selectable(s.delegations, d)
    case Saving(signed, slot) => Genuine(cfg, signed, slot) && Authorized(cfg, s, signed.commitment.slasher, slot)
    case Opening(signed, slot) => Genuine(cfg, signed, slot) && SavedBy(s.pipeline.rows, h, signed)
    case Quoting(signed, slot, gas, created) =>
      && Genuine(cfg, signed, slot) && SavedBy(s.pipeline.rows, h, signed)
      && IsEstimate(cfg, signed, gas) && RecordIs(s.slots, slot, created)
    case Applying(signed, slot, gas, quoted) =>
      && Genuine(cfg, signed, slot) && SavedBy(s.pipeline.rows, h, signed)
      && IsEstimate(cfg, signed, gas) && RecordIs(s.slots, slot, Some(quoted))
    case Returned(signed) => SavedBy(s.pipeline.rows, h, signed)
    case Failed => true
  }

  ghost predicate IsEstimate(cfg: Config, signed: SignedCommitment, gas: u64) {
    EstimateGas(cfg.json, signed.commitment.commitmentType, signed.commitment.payload) == Some(gas)
  }

  ghost predicate HandlerAt(cfg: Config, s: State, h: nat) {
    h in s.handlers ==> HandlerOk(cfg, s, h, s.handlers[h])
  }

  ghost predicate HandlersOk(cfg: Config, s: State) {
    forall h: nat :: HandlerAt(cfg, s, h)
  }

  /** The handler is past its insert. */
  predicate Past(x: Handler) {
    x.Opening? || x.Quoting? || x.Applying? || x.Returned? || x.Failed?
  }

  ghost predicate RowOk(cfg: Config, s: State, e: Entry) {
    && e.slotNumber.Some? && e.slotNumber.value >= 0
    && Genuine(cfg, e.signed, e.slotNumber.value)
    && Authorized(cfg, s, e.signed.commitment.slasher, e.slotNumber.value)
  }

  ghost predicate RowAt(cfg: Config, s: State, i: nat) {
    i < |s.pipeline.rows| ==> RowOk(cfg, s, s.pipeline.rows[i].entry) && Owned(s, s.pipeline.rows[i].entry.id)
  }

  ghost predicate RowsOk(cfg: Config, s: State) {
    forall i: nat :: RowAt(cfg, s, i)
  }

  ghost predicate Owned(s: State, id: nat) {
    id in s.handlers && Past(s.handlers[id])
  }

  lemma AuthorizedLater(cfg: Config, s: State, s': State, slasher: string, slot: u64)
    requires Authorized(cfg, s, slasher, slot) && Grows(s, s')
    ensures Authorized(cfg, s', slasher, slot)
  {
    var i :| 0 <= i < |s.delegations| && Grants(cfg, s.delegations[i], s.beacon, slasher, slot);
    assert Grants(cfg, s'.delegations[i], s'.beacon, slasher, slot);
  }

  lemma SavedByLater(rows: Rows, later: Rows, h: nat, signed: SignedCommitment)
    requires SavedBy(rows, h, signed) && P.Extends(rows, later)
    ensures SavedBy(later, h, signed)
  {
    var i :| 0 <= i < |rows| && rows[i].entry.id == h && rows[i].entry.signed == signed;
    assert later[i].entry == rows[i].entry;
  }

  lemma RecordLater(slots: C.Table, later: C.Table, slot: u64, since: Option<Congestion>)
    requires RecordIs(slots, slot, since) && SlotsGrow(slots, later)
    ensures RecordIs(later, slot, since)
  {
  }

  lemma SelectableLater(table: D.Table, later: D.Table, d: SignedDelegation)
    requires Selectable(table, d) && D.Settles(table, later)
    ensures Selectable(later, d)
  {
    var i :| 0 <= i < |table| && D.Load(table[i]) == d;
    assert D.Load(later[i]) == d;
  }

  lemma HandlerOkLater(cfg: Config, s: State, s': State, h: nat, x: Handler)
    requires HandlerOk(cfg, s, h, x) && Grows(s, s')
    ensures HandlerOk(cfg, s', h, x)
  {
    var rows, later := s.pipeline.rows, s'.pipeline.rows;
    match x
    case Confirming(_, _, _, d) => SelectableLater(s.delegations, s'.delegations, d);
    case Saving(signed, slot) => AuthorizedLater(cfg, s, s', signed.commitment.slasher, slot);
    case Opening(signed, _) => SavedByLater(rows, later, h, signed);
    case Quoting(signed, slot, _, created) =>
      SavedByLater(rows, later, h, signed);
      RecordLater(s.slots, s'.slots, slot, created);
    case Applying(signed, slot, _, quoted) =>
      SavedByLater(rows, later, h, signed);
      RecordLater(s.slots, s'.slots, slot, Some(quoted));
    case Returned(signed) => SavedByLater(rows, later, h, signed);
    case _ =>
  }

  // ---- What every step keeps: gas ----

  /** The gas of all updates of a slot that took effect. */
  function ChargedGas(charges: seq<Charge>, slot: u64): nat {
    if charges == [] then 0
    else
      var last := charges[|charges| - 1];
      ChargedGas(charges[..|charges| - 1], slot) + (if last.slot == slot then last.gas else 0)
  }

  /** The charge is that of a returned commitment, for its slot and at its estimate. */
  ghost predicate ChargeOk(cfg: Config, s: State, c: Charge) {
    && At(s, c.handler).Returned?
    && Genuine(cfg, At(s, c.handler).signed, c.slot)
    && IsEstimate(cfg, At(s, c.handler).signed, c.gas)
  }

  ghost predicate OncePerHandler(charges: seq<Charge>) {
    forall i, j :: 0 <= i < j < |charges| ==> charges[i].handler != charges[j].handler
  }

  ghost predicate GasOk(slots: C.Table, charges: seq<Charge>, slot: u64) {
    match C.Get(slots, slot)
    case None => ChargedGas(charges, slot) == 0
    case Some(c) => c.preconfirmedGas == C.Capped(ChargedGas(charges, slot))
  }

  ghost predicate ChargeAt(cfg: Config, s: State, k: nat) {
    k < |s.charges| ==> ChargeOk(cfg, s, s.charges[k])
  }

  ghost predicate ChargesOk(cfg: Config, s: State) {
    (forall k: nat :: ChargeAt(cfg, s, k)) && OncePerHandler(s.charges)
  }

  ghost predicate SlotsOk(cfg: Config, s: State) {
    C.AllPriced(s.slots, cfg.power) && forall slot: u64 :: GasOk(s.slots, s.charges, slot)
  }

  // ---- What every step keeps: the ticks' delegations ----

  ghost predicate HasDelegation(table: D.Table, m: DelegationMessage) {
    exists i :: 0 <= i < |table| && D.Load(table[i]).message == m
  }

  ghost predicate BatchGranted(table: D.Table, b: P.Batch) {
    HasDelegation(table, DelegationMessage(b.message.proposer, b.message.delegate, b.committer, b.message.slot))
  }

  ghost predicate QueueOk(table: D.Table, slot: u64, queue: seq<DelegationMessage>) {
    forall k :: 0 <= k < |queue| ==> HasDelegation(table, queue[k]) && queue[k].slot == slot
  }

  ghost predicate TickOk(table: D.Table, tick: P.Tick) {
    QueueOk(table, tick.slot, tick.queue) && (!tick.phase.Picking? ==> BatchGranted(table, tick.phase.batch))
  }

  ghost predicate TicksOk(table: D.Table, ps: P.State) {
    (forall t: nat :: TickAt(table, ps, t)) && (forall k: nat :: RelayAt(table, ps, k))
  }

  ghost predicate TickAt(table: D.Table, ps: P.State, t: nat) {
    t in ps.ticks ==> TickOk(table, ps.ticks[t])
  }

  ghost predicate RelayAt(table: D.Table, ps: P.State, k: nat) {
    k < |ps.relay| ==> BatchGranted(table, ps.relay[k])
  }

  ghost predicate Inv(cfg: Config, s: State) {
    && D.TableOk(cfg.bls, cfg.ourKey, s.delegations)
    && P.Inv(s.pipeline)
    && HandlersOk(cfg, s)
    && RowsOk(cfg, s)
    && ChargesOk(cfg, s)
    && SlotsOk(cfg, s)
    && TicksOk(s.delegations, s.pipeline)
  }

  /** The states in which all of this holds. */
  ghost function Lawful(cfg: Config): iset<State> {
    iset s: State | Inv(cfg, s)
  }

  // ---- Frames ----

  /** Handler `h` moves; what it needs of the tables holds afterwards. */
  ghost predicate Moves(cfg: Config, s: State, s': State, h: nat) {
    && h in s'.handlers && s'.handlers == s.handlers[h := s'.handlers[h]]
    && HandlerOk(cfg, s', h, s'.handlers[h])
    && (h in s.handlers ==> !s.handlers[h].Returned?)
    && (h in s.handlers && Past(s.handlers[h]) ==> Past(s'.handlers[h]))
  }

  /** Handlers past their insert stay so, and those that have returned stay as they are. */
  ghost predicate Preserves(s: State, s': State) {
    && (forall g :: Owned(s, g) ==> Owned(s', g))
    && (forall g :: At(s, g).Returned? ==> At(s', g) == At(s, g))
  }

  lemma MovedHandlers(cfg: Config, s: State, s': State, h: nat)
    requires HandlersOk(cfg, s) && Grows(s, s') && Moves(cfg, s, s', h)
    ensures HandlersOk(cfg, s') && Preserves(s, s')
  {
    forall g: nat
      ensures HandlerAt(cfg, s', g)
    {
      assert HandlerAt(cfg, s, g);
      if g != h && g in s.handlers {
        HandlerOkLater(cfg, s, s', g, s.handlers[g]);
      }
    }
  }

  lemma StillHandlers(cfg: Config, s: State, s': State)
    requires HandlersOk(cfg, s) && Grows(s, s') && s'.handlers == s.handlers
    ensures HandlersOk(cfg, s')
  {
    forall g: nat
      ensures HandlerAt(cfg, s', g)
    {
      assert HandlerAt(cfg, s, g);
      if g in s.handlers {
        HandlerOkLater(cfg, s, s', g, s.handlers[g]);
      }
    }
  }

  lemma RowOkLater(cfg: Config, s: State, s': State, e: Entry)
    requires RowOk(cfg, s, e) && Grows(s, s')
    ensures RowOk(cfg, s', e)
  {
    AuthorizedLater(cfg, s, s', e.signed.commitment.slasher, e.slotNumber.value);
  }

  lemma RowsFrame(cfg: Config, s: State, s': State, i: nat)
    requires RowsOk(cfg, s) && Grows(s, s') && i < |s.pipeline.rows| && Preserves(s, s')
    ensures RowAt(cfg, s', i)
  {
    assert RowAt(cfg, s, i);
    RowOkLater(cfg, s, s', s.pipeline.rows[i].entry);
  }

  lemma SameRows(cfg: Config, s: State, s': State)
    requires RowsOk(cfg, s) && Grows(s, s') && |s'.pipeline.rows| == |s.pipeline.rows| && Preserves(s, s')
    ensures RowsOk(cfg, s')
  {
    forall i: nat
      ensures RowAt(cfg, s', i)
    {
      if i < |s.pipeline.rows| {
        RowsFrame(cfg, s, s', i);
      }
    }
  }

  lemma ChargesFrame(cfg: Config, s: State, s': State, k: nat)
    requires ChargesOk(cfg, s) && k < |s.charges| <= |s'.charges| && s'.charges[k] == s.charges[k]
    requires Preserves(s, s')
    ensures ChargeAt(cfg, s', k)
  {
    assert ChargeAt(cfg, s, k);
  }

  lemma SameCharges(cfg: Config, s: State, s': State)
    requires ChargesOk(cfg, s) && s'.charges == s.charges && Preserves(s, s')
    ensures ChargesOk(cfg, s')
  {
    forall k: nat
      ensures ChargeAt(cfg, s', k)
    {
      if k < |s.charges| {
        ChargesFrame(cfg, s, s', k);
      }
    }
  }

  lemma GrowsSame(s: State, s': State)
    requires s'.pipeline == s.pipeline && s'.delegations == s.delegations
    requires s.beacon <= s'.beacon && s'.slots == s.slots
    ensures Grows(s, s')
  {
  }

  /** A move that inserts no commitment and charges nothing. */
  lemma MoveInv(cfg: Config, s: State, s': State)
    requires s in Lawful(cfg) && Grows(s, s') && HandlersOk(cfg, s') && Preserves(s, s')
    requires s'.pipeline == s.pipeline && s'.delegations == s.delegations && s'.charges == s.charges
    requires SlotsOk(cfg, s')
    ensures s' in Lawful(cfg)
  {
    SameRows(cfg, s, s');
    SameCharges(cfg, s, s');
  }

  lemma PutInv(cfg: Config, s: State, h: nat, y: Handler)
    requires s in Lawful(cfg) && HandlerOk(cfg, s, h, y)
    requires h in s.handlers ==> !s.handlers[h].Returned? && (Past(s.handlers[h]) ==> Past(y))
    ensures Put(s, h, y) in Lawful(cfg)
  {
    var s' := Put(s, h, y);
    GrowsSame(s, s');
    HandlerOkLater(cfg, s, s', h, y);
    MovedHandlers(cfg, s, s', h);
    MoveInv(cfg, s, s');
  }

  // ---- Each step keeps the invariant ----

  lemma ArriveInv(cfg: Config, s: State, h: nat, request: CommitmentRequest)
    requires s in Lawful(cfg) && h !in s.handlers
    ensures Put(s, h, Arrived(cfg, request)) in Lawful(cfg)
  {
    var y := Arrived(cfg, request);
    assert HandlerOk(cfg, s, h, y);
    PutInv(cfg, s, h, y);
  }

  lemma CheckInv(cfg: Config, s: State, h: nat)
    requires s in Lawful(cfg) && At(s, h).Checking?
    ensures Put(s, h, AfterCheck(s.pipeline.rows, At(s, h))) in Lawful(cfg)
  {
    var y := AfterCheck(s.pipeline.rows, At(s, h));
    assert HandlerAt(cfg, s, h);
    PutInv(cfg, s, h, y);
  }

  lemma AfterSelectOk(cfg: Config, s: State, h: nat, x: Handler, answer: seq<SignedDelegation>)
    requires x.Authorizing? && HandlerOk(cfg, s, h, x) && D.IsAnswer(s.delegations, x.slot, answer)
    ensures HandlerOk(cfg, s, h, AfterSelect(cfg, x, answer))
  {
    var found := FirstMatch(answer, x.request.slasher, x.slot);
    if found.Some? {
      var i := D.AnswerHasRow(s.delegations, x.slot, answer, found.value);
      assert Selectable(s.delegations, found.value);
    }
  }

  lemma AuthorizeInv(cfg: Config, s: State, h: nat, answer: seq<SignedDelegation>)
    requires s in Lawful(cfg) && At(s, h).Authorizing? && D.IsAnswer(s.delegations, At(s, h).slot, answer)
    ensures Put(s, h, AfterSelect(cfg, At(s, h), answer)) in Lawful(cfg)
  {
    assert HandlerAt(cfg, s, h);
    AfterSelectOk(cfg, s, h, At(s, h), answer);
    var y := AfterSelect(cfg, At(s, h), answer);
    PutInv(cfg, s, h, y);
  }

  lemma AfterBeaconOk(cfg: Config, s: State, s': State, h: nat, x: Handler, scheduled: PublicKey)
    requires x.Confirming? && HandlerOk(cfg, s, h, x)
    requires s'.delegations == s.delegations && s'.beacon == s.beacon + {(x.slot, scheduled)}
    ensures HandlerOk(cfg, s', h, AfterBeacon(cfg, x, scheduled))
  {
    var y := AfterBeacon(cfg, x, scheduled);
    if y.Saving? {
      SignedIsGenuine(cfg, x.request, x.slot, x.hash, y.signed);
      var i :| 0 <= i < |s.delegations| && D.Load(s.delegations[i]) == x.delegation;
      assert Grants(cfg, s'.delegations[i], s'.beacon, x.request.slasher, x.slot);
    }
  }

  lemma SignedIsGenuine(cfg: Config, request: CommitmentRequest, slot: u64, hash: string, signed: SignedCommitment)
    requires Validate(cfg, request) == Some(Checked(slot, hash))
    requires Sign(cfg, CommitmentFor(request, hash)) == Some(signed)
    ensures Genuine(cfg, signed, slot) && signed.commitment.slasher == request.slasher
  {
    assert RequestOf(CommitmentFor(request, hash)) == request;
  }

  lemma ConfirmHandlers(cfg: Config, s: State, h: nat, scheduled: PublicKey)
    requires HandlersOk(cfg, s) && At(s, h).Confirming?
    ensures var s' := Confirmed(cfg, s, h, At(s, h), scheduled);
      HandlersOk(cfg, s') && Preserves(s, s') && Grows(s, s')
  {
    var s' := Confirmed(cfg, s, h, At(s, h), scheduled);
    assert HandlerAt(cfg, s, h);
    AfterBeaconOk(cfg, s, s', h, At(s, h), scheduled);
    GrowsSame(s, s');
    MovedHandlers(cfg, s, s', h);
  }

  lemma ConfirmInv(cfg: Config, s: State, h: nat, scheduled: PublicKey)
    requires s in Lawful(cfg) && At(s, h).Confirming?
    ensures Confirmed(cfg, s, h, At(s, h), scheduled) in Lawful(cfg)
  {
    ConfirmHandlers(cfg, s, h, scheduled);
    MoveInv(cfg, s, Confirmed(cfg, s, h, At(s, h), scheduled));
  }

  lemma QuoteInv(cfg: Config, s: State, h: nat)
    requires s in Lawful(cfg) && At(s, h).Quoting?
    ensures Put(s, h, AfterQuote(cfg, s.slots, At(s, h))) in Lawful(cfg)
  {
    assert HandlerAt(cfg, s, h);
    PutInv(cfg, s, h, AfterQuote(cfg, s.slots, At(s, h)));
  }

  lemma ReturnInv(cfg: Config, s: State, h: nat)
    requires s in Lawful(cfg) && At(s, h).Applying?
    ensures Put(s, h, Returned(At(s, h).signed)) in Lawful(cfg)
  {
    assert HandlerAt(cfg, s, h);
    PutInv(cfg, s, h, Returned(At(s, h).signed));
  }

  // ---- Saving ----

  /** The slot of an authorized commitment fits a BIGINT, so its column is never NULL. */
  lemma SlotFits(cfg: Config, s: State, slasher: string, slot: u64)
    requires D.TableOk(cfg.bls, cfg.ourKey, s.delegations) && Authorized(cfg, s, slasher, slot)
    ensures TryI64(slot) == Some(slot as int)
  {
    var i :| 0 <= i < |s.delegations| && Grants(cfg, s.delegations[i], s.beacon, slasher, slot);
    assert D.RowOk(cfg.bls, cfg.ourKey, s.delegations[i]);
  }

  lemma GenuineSlot(cfg: Config, signed: SignedCommitment, slot: u64)
    requires Genuine(cfg, signed, slot)
    ensures signed.commitment.commitmentType == 1
    ensures ExtractSlot(cfg.json, 1, signed.commitment.payload) == Some(slot)
    ensures SlotColumn(cfg.json, signed.commitment) == TryI64(slot)
  {
  }

  lemma NewRowOk(cfg: Config, s: State, h: nat, signed: SignedCommitment, slot: u64, now: int)
    requires D.TableOk(cfg.bls, cfg.ourKey, s.delegations)
    requires Genuine(cfg, signed, slot) && Authorized(cfg, s, signed.commitment.slasher, slot)
    ensures RowOk(cfg, s, NewEntry(cfg, h, signed, now))
  {
    SlotFits(cfg, s, signed.commitment.slasher, slot);
    GenuineSlot(cfg, signed, slot);
  }

  lemma AfterSaveOk(cfg: Config, s: State, s': State, h: nat, x: Handler, now: int)
    requires x.Saving? && HandlerOk(cfg, s, h, x)
    requires s'.pipeline.rows == Insert(s.pipeline.rows, NewEntry(cfg, h, x.signed, now))
    ensures HandlerOk(cfg, s', h, AfterSave(s.pipeline.rows, x))
  {
    if SaveOutcome(s.pipeline.rows, x.signed) == Inserted {
      assert s'.pipeline.rows[|s.pipeline.rows|].entry == NewEntry(cfg, h, x.signed, now);
    }
  }

  lemma InsertedRow(rows: Rows, e: Entry, i: nat)
    requires |rows| <= i < |Insert(rows, e)|
    ensures i == |rows| && Insert(rows, e)[i].entry == e && SaveOutcome(rows, e.signed) == Inserted
  {
  }

  lemma InsertRows(cfg: Config, s: State, s': State, h: nat, e: Entry)
    requires RowsOk(cfg, s) && Grows(s, s') && Preserves(s, s')
    requires s'.pipeline.rows == Insert(s.pipeline.rows, e)
    requires RowOk(cfg, s', e) && e.id == h && Owned(s', h)
    ensures RowsOk(cfg, s')
  {
    forall i: nat
      ensures RowAt(cfg, s', i)
    {
      if i < |s.pipeline.rows| {
        RowsFrame(cfg, s, s', i);
      } else if i < |s'.pipeline.rows| {
        InsertedRow(s.pipeline.rows, e, i);
      }
    }
  }

  ghost predicate Inserts(cfg: Config, s: State, s': State, e: Entry) {
    s' == s.(handlers := s'.handlers, pipeline := P.Step(s.pipeline, cfg.builders, P.Inserting(e)))
  }

  lemma InsertGrows(cfg: Config, s: State, s': State, e: Entry)
    requires Inserts(cfg, s, s', e)
    ensures Grows(s, s')
  {
    P.StepExtends(s.pipeline, cfg.builders, P.Inserting(e));
  }

  lemma InsertKeepsPipeline(cfg: Config, s: State, s': State, e: Entry)
    requires P.Inv(s.pipeline) && TicksOk(s.delegations, s.pipeline) && Inserts(cfg, s, s', e)
    ensures P.Inv(s'.pipeline) && TicksOk(s'.delegations, s'.pipeline)
  {
    P.StepInv(s.pipeline, cfg.builders, P.Inserting(e));
    TicksStep(s.delegations, s.pipeline, cfg.builders, P.Inserting(e));
  }

  /** A move that inserts a commitment. */
  lemma InsertInv(cfg: Config, s: State, s': State, h: nat, e: Entry)
    requires s in Lawful(cfg) && HandlersOk(cfg, s') && Preserves(s, s')
    requires RowOk(cfg, s, e) && e.id == h && Owned(s', h) && Inserts(cfg, s, s', e)
    ensures s' in Lawful(cfg)
  {
    InsertGrows(cfg, s, s', e);
    InsertKeepsPipeline(cfg, s, s', e);
    RowOkLater(cfg, s, s', e);
    InsertRows(cfg, s, s', h, e);
    SameCharges(cfg, s, s');
  }

  lemma SaveHandlers(cfg: Config, s: State, h: nat, now: int)
    requires HandlersOk(cfg, s) && At(s, h).Saving?
    ensures var s' := Recorded(cfg, s, h, At(s, h), now);
      HandlersOk(cfg, s') && Preserves(s, s') && Owned(s', h)
  {
    var s' := Recorded(cfg, s, h, At(s, h), now);
    assert HandlerAt(cfg, s, h);
    InsertGrows(cfg, s, s', NewEntry(cfg, h, At(s, h).signed, now));
    AfterSaveOk(cfg, s, s', h, At(s, h), now);
    MovedHandlers(cfg, s, s', h);
  }

  lemma SaveInv(cfg: Config, s: State, h: nat, now: int)
    requires s in Lawful(cfg) && At(s, h).Saving?
    ensures Recorded(cfg, s, h, At(s, h), now) in Lawful(cfg)
  {
    var x := At(s, h);
    SaveHandlers(cfg, s, h, now);
    assert HandlerAt(cfg, s, h);
    NewRowOk(cfg, s, h, x.signed, x.slot, now);
    InsertInv(cfg, s, Recorded(cfg, s, h, x, now), h, NewEntry(cfg, h, x.signed, now));
  }

  // ---- Prices and gas ----

  lemma CreateSlots(cfg: Config, s: State, s': State, slot: u64, base: u64)
    requires SlotsOk(cfg, s) && s'.charges == s.charges
    requires s'.slots == C.Create(s.slots, slot, base, cfg.gasLimit)
    ensures SlotsOk(cfg, s') && SlotsGrow(s.slots, s'.slots)
    ensures C.Get(s'.slots, slot) == if C.Get(s.slots, slot).Some? then C.Get(s.slots, slot)
                                     else Some(NewCongestion(slot, base, cfg.gasLimit))
  {
    StatementGrows(s.slots, C.Creating(slot, base, cfg.gasLimit), cfg.power);
    forall other: u64
      ensures GasOk(s'.slots, s'.charges, other)
    {
      assert GasOk(s.slots, s.charges, other);
      C.GetAfterCreate(s.slots, slot, base, cfg.gasLimit, other);
    }
    C.GetAfterCreate(s.slots, slot, base, cfg.gasLimit, slot);
  }

  lemma OpenHandlers(cfg: Config, s: State, h: nat, gasPrice: u64, gas: u64)
    requires HandlersOk(cfg, s) && SlotsOk(cfg, s) && At(s, h).Opening? && CanOpen(cfg, At(s, h).slot)
    requires IsEstimate(cfg, At(s, h).signed, gas)
    ensures var s' := Opened(cfg, s, h, At(s, h), gasPrice);
      HandlersOk(cfg, s') && Preserves(s, s') && Grows(s, s') && SlotsOk(cfg, s')
  {
    var s' := Opened(cfg, s, h, At(s, h), gasPrice);
    CreateSlots(cfg, s, s', At(s, h).slot, gasPrice);
    assert HandlerAt(cfg, s, h);
    MovedHandlers(cfg, s, s', h);
  }

  lemma OpenedInv(cfg: Config, s: State, h: nat, gasPrice: u64, gas: u64)
    requires s in Lawful(cfg) && At(s, h).Opening? && CanOpen(cfg, At(s, h).slot)
    requires IsEstimate(cfg, At(s, h).signed, gas)
    ensures Opened(cfg, s, h, At(s, h), gasPrice) in Lawful(cfg)
  {
    OpenHandlers(cfg, s, h, gasPrice, gas);
    MoveInv(cfg, s, Opened(cfg, s, h, At(s, h), gasPrice));
  }

  lemma OpenInv(cfg: Config, s: State, h: nat, gasPrice: u64)
    requires s in Lawful(cfg) && At(s, h).Opening?
    ensures Opened(cfg, s, h, At(s, h), gasPrice) in Lawful(cfg)
  {
    var x := At(s, h);
    match EstimateGas(cfg.json, x.signed.commitment.commitmentType, x.signed.commitment.payload)
    case None => PutInv(cfg, s, h, Failed);
    case Some(gas) =>
      if CanOpen(cfg, x.slot) {
        OpenedInv(cfg, s, h, gasPrice, gas);
      } else {
        PutInv(cfg, s, h, Failed);
      }
  }

  lemma AskInv(cfg: Config, s: State, slot: u64, gasPrice: u64)
    requires s in Lawful(cfg)
    ensures s.(slots := C.Create(s.slots, slot, gasPrice, cfg.gasLimit)) in Lawful(cfg)
  {
    var s' := s.(slots := C.Create(s.slots, slot, gasPrice, cfg.gasLimit));
    CreateSlots(cfg, s, s', slot, gasPrice);
    StillHandlers(cfg, s, s');
    MoveInv(cfg, s, s');
  }

  lemma ChargedGasAppend(charges: seq<Charge>, c: Charge, slot: u64)
    ensures ChargedGas(charges + [c], slot) == ChargedGas(charges, slot) + (if c.slot == slot then c.gas else 0)
  {
    assert (charges + [c])[..|charges|] == charges;
  }

  lemma UpdateSlots(cfg: Config, s: State, s': State, c: Charge)
    requires SlotsOk(cfg, s) && C.Get(s.slots, c.slot).Some?
    requires s'.slots == C.Update(s.slots, c.slot, c.gas, cfg.power) && s'.charges == s.charges + [c]
    ensures SlotsOk(cfg, s') && SlotsGrow(s.slots, s'.slots)
  {
    StatementGrows(s.slots, C.Updating(c.slot, c.gas), cfg.power);
    forall other: u64
      ensures GasOk(s'.slots, s'.charges, other)
    {
      assert GasOk(s.slots, s.charges, other);
      ChargedGasAppend(s.charges, c, other);
      C.GetAfterUpdate(s.slots, c.slot, c.gas, cfg.power, other);
    }
  }

  lemma ChargeMoves(cfg: Config, s: State, h: nat)
    requires At(s, h).Applying? && HandlerOk(cfg, s, h, At(s, h))
    ensures Moves(cfg, s, Charged(cfg, s, h, At(s, h)), h)
    ensures C.Get(s.slots, At(s, h).slot).Some?
    ensures ChargeOk(cfg, Charged(cfg, s, h, At(s, h)), Charge(h, At(s, h).slot, At(s, h).gas))
  {
  }

  lemma ChargesAppend(cfg: Config, s: State, s': State, c: Charge)
    requires ChargesOk(cfg, s) && s'.charges == s.charges + [c] && ChargeOk(cfg, s', c)
    requires !At(s, c.handler).Returned? && Preserves(s, s')
    ensures ChargesOk(cfg, s')
  {
    forall k: nat
      ensures ChargeAt(cfg, s', k)
    {
      if k < |s.charges| {
        ChargesFrame(cfg, s, s', k);
      }
    }
    forall k | 0 <= k < |s.charges|
      ensures s.charges[k].handler != c.handler
    {
      assert ChargeAt(cfg, s, k);
    }
  }

  lemma ChargeHandlers(cfg: Config, s: State, h: nat)
    requires HandlersOk(cfg, s) && SlotsOk(cfg, s) && At(s, h).Applying?
    ensures var s' := Charged(cfg, s, h, At(s, h));
      HandlersOk(cfg, s') && Preserves(s, s') && Grows(s, s') && SlotsOk(cfg, s')
  {
    var s' := Charged(cfg, s, h, At(s, h));
    assert HandlerAt(cfg, s, h);
    ChargeMoves(cfg, s, h);
    UpdateSlots(cfg, s, s', Charge(h, At(s, h).slot, At(s, h).gas));
    MovedHandlers(cfg, s, s', h);
  }

  lemma ChargeCharges(cfg: Config, s: State, h: nat)
    requires HandlersOk(cfg, s) && ChargesOk(cfg, s) && At(s, h).Applying?
    requires Preserves(s, Charged(cfg, s, h, At(s, h)))
    ensures ChargesOk(cfg, Charged(cfg, s, h, At(s, h)))
  {
    assert HandlerAt(cfg, s, h);
    ChargeMoves(cfg, s, h);
    ChargesAppend(cfg, s, Charged(cfg, s, h, At(s, h)), Charge(h, At(s, h).slot, At(s, h).gas));
  }

  lemma ChargeInv(cfg: Config, s: State, h: nat)
    requires s in Lawful(cfg) && At(s, h).Applying?
    ensures Charged(cfg, s, h, At(s, h)) in Lawful(cfg)
  {
    ChargeHandlers(cfg, s, h);
    SameRows(cfg, s, Charged(cfg, s, h, At(s, h)));
    ChargeCharges(cfg, s, h);
  }

  // ---- Delegations and ticks ----

  lemma HasDelegationLater(table: D.Table, later: D.Table, m: DelegationMessage)
    requires HasDelegation(table, m) && D.Settles(table, later)
    ensures HasDelegation(later, m)
  {
    var i :| 0 <= i < |table| && D.Load(table[i]).message == m;
    assert D.Load(later[i]).message == m;
  }

  lemma TicksLater(table: D.Table, later: D.Table, ps: P.State)
    requires TicksOk(table, ps) && D.Settles(table, later)
    ensures TicksOk(later, ps)
  {
    forall m | HasDelegation(table, m)
      ensures HasDelegation(later, m)
    {
      HasDelegationLater(table, later, m);
    }
    forall t: nat
      ensures TickAt(later, ps, t)
    {
      assert TickAt(table, ps, t);
    }
    forall k: nat
      ensures RelayAt(later, ps, k)
    {
      assert RelayAt(table, ps, k);
    }
  }

  lemma DelegateInv(cfg: Config, s: State, d: D.Action)
    requires s in Lawful(cfg)
    ensures s.(delegations := D.Step(cfg.bls, cfg.ourKey, s.delegations, d)) in Lawful(cfg)
  {
    var s' := s.(delegations := D.Step(cfg.bls, cfg.ourKey, s.delegations, d));
    D.StepOk(cfg.bls, cfg.ourKey, s.delegations, d);
    D.StepSettles(cfg.bls, cfg.ourKey, s.delegations, d);
    StillHandlers(cfg, s, s');
    SameRows(cfg, s, s');
    SameCharges(cfg, s, s');
    TicksLater(s.delegations, s'.delegations, s.pipeline);
  }

  lemma QueueIsOk(cfg: Config, table: D.Table, slot: u64, answer: seq<SignedDelegation>)
    requires D.IsAnswer(table, slot, answer)
    ensures QueueOk(table, slot, Queue(cfg, answer))
  {
    var ours := D.Filter(D.IsOurs(cfg.ourKey), answer);
    forall k | 0 <= k < |ours|
      ensures HasDelegation(table, ours[k].message) && ours[k].message.slot == slot
    {
      D.InFilter(D.IsOurs(cfg.ourKey), answer, ours[k]);
      var i := D.AnswerHasRow(table, slot, answer, ours[k]);
    }
  }

  lemma AdvanceOk(table: D.Table, tick: P.Tick)
    requires TickOk(table, tick)
    ensures TickOk(table, P.Advance(tick))
  {
  }

  lemma TicksStep(table: D.Table, ps: P.State, builders: KeyList, p: P.Action)
    requires TicksOk(table, ps)
    requires p.Begin? ==> QueueOk(table, p.slot, p.queue)
    ensures TicksOk(table, P.Step(ps, builders, p))
  {
    var ps' := P.Step(ps, builders, p);
    forall t: nat
      ensures TickAt(table, ps', t)
    {
      assert TickAt(table, ps, t);
      if t in ps.ticks {
        AdvanceOk(table, ps.ticks[t]);
        SelectOk(table, ps, builders, t, if p.Select? then p.selected else []);
      }
    }
    forall k: nat
      ensures RelayAt(table, ps', k)
    {
      assert RelayAt(table, ps, k);
      assert p.RelayKeeps? || p.Acknowledge? ==> TickAt(table, ps, p.tick);
    }
  }

  lemma SelectOk(table: D.Table, ps: P.State, builders: KeyList, t: nat, selected: seq<Entry>)
    requires t in ps.ticks && TickOk(table, ps.ticks[t])
    ensures P.CanSelect(ps, t, selected) ==>
      && |Submission.Convertible(selected, ps.ticks[t].queue[0].committer)| <= 0x7FFF_FFFF_FFFF_FFFF
      && BatchGranted(table, P.MakeBatch(ps, ps.ticks[t], builders, selected))
  {
    if P.CanSelect(ps, t, selected) {
      P.SelectionShrinks(ps, t, selected);
      var b, m := P.MakeBatch(ps, ps.ticks[t], builders, selected), ps.ticks[t].queue[0];
      assert HasDelegation(table, m) && m.slot == ps.ticks[t].slot;
      assert DelegationMessage(b.message.proposer, b.message.delegate, b.committer, b.message.slot) == m;
    }
  }

  lemma PipelineInv(cfg: Config, s: State, p: P.Action)
    requires s in Lawful(cfg) && !p.Inserting?
    requires p.Begin? ==> QueueOk(s.delegations, p.slot, p.queue)
    ensures PipelineStep(cfg, s, p) in Lawful(cfg)
  {
    var s' := PipelineStep(cfg, s, p);
    P.StepInv(s.pipeline, cfg.builders, p);
    P.StepExtends(s.pipeline, cfg.builders, p);
    NoNewRows(s.pipeline, cfg.builders, p);
    TicksStep(s.delegations, s.pipeline, cfg.builders, p);
    StillHandlers(cfg, s, s');
    SameRows(cfg, s, s');
    SameCharges(cfg, s, s');
  }

  lemma NoNewRows(ps: P.State, builders: KeyList, p: P.Action)
    requires !p.Inserting?
    ensures |P.Step(ps, builders, p).rows| == |ps.rows|
  {
  }

  // ---- Runs ----

  lemma StepInv(cfg: Config, s: State, a: Action)
    requires s in Lawful(cfg)
    ensures Step(cfg, s, a) in Lawful(cfg)
  {
    if Step(cfg, s, a) != s {
      match a
      case Arrive(h, request) => ArriveInv(cfg, s, h, request);
      case Check(h) => CheckInv(cfg, s, h);
      case Authorize(h, answer) => AuthorizeInv(cfg, s, h, answer);
      case Confirm(h, scheduled) => ConfirmInv(cfg, s, h, scheduled);
      case Save(h, now) => SaveInv(cfg, s, h, now);
      case Open(h, gasPrice) => OpenInv(cfg, s, h, gasPrice);
      case Quote(h) => QuoteInv(cfg, s, h);
      case Apply(h, applied) =>
        if applied {
          ChargeInv(cfg, s, h);
        } else {
          ReturnInv(cfg, s, h);
        }
      case Abort(h) => PutInv(cfg, s, h, Failed);
      case Asking(slot, gasPrice) => AskInv(cfg, s, slot, gasPrice);
      case Delegating(d) => DelegateInv(cfg, s, d);
      case Starting(t, slot, answer) =>
        QueueIsOk(cfg, s.delegations, slot, answer);
        PipelineInv(cfg, s, P.Begin(t, slot, Queue(cfg, answer)));
      case Ticking(p) => PipelineInv(cfg, s, p);
    }
  }

  lemma {:induction false} RunInv(cfg: Config, s: State, actions: seq<Action>)
    requires s in Lawful(cfg)
    ensures Run(cfg, s, actions) in Lawful(cfg)
    decreases |actions|
  {
    if actions != [] {
      StepInv(cfg, s, actions[0]);
      RunInv(cfg, Step(cfg, s, actions[0]), actions[1..]);
    }
  }
}
