/** One commitment request served without interruption (src/rpc/handlers.rs): the handler as it runs on
    the three stores, when it succeeds, and the steps of the gateway it takes. */
module Handlers {
  import opened Machine
  import opened Types
  import Address
  import Preimages
  import opened Payload
  import opened Pricing
  import opened Commitments
  import C = CongestionTable
  import D = Delegations
  import opened Gateway
  import opened Guarantees

  // ---- Validation and authority ----

  /** What validation finds, unless the hash is known already. */
  function Admitted(cfg: Config, rows: Rows, request: CommitmentRequest): Option<Checked> {
    var checked :- Validate(cfg, request);
    if Exists(rows, checked.hash) then None else Some(checked)
  }

  method Admit(cfg: Config, request: CommitmentRequest, store: CommitmentStore) returns (checked: Option<Checked>)
    ensures checked == Admitted(cfg, store.rows, request)
  {
    checked := Validate(cfg, request);
    if checked.None? {
      return;
    }
    var known := store.CommitmentExists(checked.value.hash);
    if known {
      checked := None;
    }
  }

  method FindMatch(ds: seq<SignedDelegation>, slasher: string, slot: u64) returns (found: Option<SignedDelegation>)
    ensures found == FirstMatch(ds, slasher, slot)
  {
    for i := 0 to |ds|
      invariant FirstMatch(ds, slasher, slot) == FirstMatch(ds[i..], slasher, slot)
    {
      assert ds[i..][1..] == ds[i + 1..];
      if Matches(ds[i], slasher, slot) {
        return Some(ds[i]);
      }
    }
    return None;
  }

  /** The signature for the first match; `None` without one, without a scheduled proposer, or when a
      check fails. */
  function SignatureFor(
      cfg: Config, request: CommitmentRequest, checked: Checked, ds: seq<SignedDelegation>,
      scheduled: Option<PublicKey>)
    : Option<SignedCommitment>
  {
    var d :- FirstMatch(ds, request.slasher, checked.slot);
    var proposer :- scheduled;
    SignatureUnder(cfg, request, checked, d, proposer)
  }

  function SignatureUnder(
      cfg: Config, request: CommitmentRequest, checked: Checked, d: SignedDelegation, proposer: PublicKey)
    : Option<SignedCommitment>
  {
    if D.Verify(cfg.bls, d) == D.Valid && proposer == d.message.proposer && HasSigningKey(cfg, d.message.committer)
    then Sign(cfg, CommitmentFor(request, checked.hash))
    else None
  }

  method SignUnder(
      cfg: Config, request: CommitmentRequest, checked: Checked, d: SignedDelegation, proposer: PublicKey)
    returns (signed: Option<SignedCommitment>)
    ensures signed == SignatureUnder(cfg, request, checked, d, proposer)
  {
    if D.Verify(cfg.bls, d) != D.Valid {
      return None;
    }
    if proposer != d.message.proposer {
      return None;
    }
    if !HasSigningKey(cfg, d.message.committer) {
      return None;
    }
    signed := Sign(cfg, CommitmentFor(request, checked.hash));
  }

  /** Delegation authority, the signing key and the signature. `scheduled` is the beacon node's
      answer, `None` when it names no proposer or fails. */
  method VerifyDelegationAuthority(
      cfg: Config, request: CommitmentRequest, checked: Checked, scheduled: Option<PublicKey>, store: D.DelegationStore)
    returns (signed: Option<SignedCommitment>)
    ensures exists answer ::
      D.IsAnswer(store.table, checked.slot, answer) && signed == SignatureFor(cfg, request, checked, answer, scheduled)
  {
    var ds := store.GetDelegationsForSlot(checked.slot);
    assert D.IsAnswer(store.table, checked.slot, ds);
    var found := FindMatch(ds, request.slasher, checked.slot);
    if found.None? || scheduled.None? {
      return None;
    }
    signed := SignUnder(cfg, request, checked, found.value, scheduled.value);
  }

  // ---- The fee ----

  datatype FeeCalculation = FeeCalculation(
    slot: u64, baseGasPrice: u64, congestionRatio: real, feeMultiplier: real,
    finalPrice: u64, estimatedGas: u64, totalCost: u64)

  /** The record a fee is quoted from: the slot's own, or a new one at the oracle's price. */
  function QuotedFrom(cfg: Config, slots: C.Table, slot: u64, gasPrice: u64): Congestion {
    if C.Get(slots, slot).Some? then C.Get(slots, slot).value else NewCongestion(slot, gasPrice, cfg.gasLimit)
  }

  /** The fee for the gas on top of the record; `None` when the total cost does not fit 64 bits. The
      final price comes from the stored base price, the reported one is the oracle's. */
  function FeeFor(cfg: Config, c: Congestion, slot: u64, gasPrice: u64, gas: u64): Option<FeeCalculation> {
    var p := Project(cfg.power, c, gas, cfg.lowFee, cfg.highFee);
    var cost :- CheckedMul(p.currentTxPrice, gas);
    Some(FeeCalculation(slot, gasPrice, p.gasUsedRatio, p.feeMultiplier, p.currentTxPrice, gas, cost))
  }

  /** There is a fee exactly when the total cost fits. The cost is the final price times the gas; the final
      price is the bounded multiplier's price on the record's base; the reported base is the oracle's. */
  lemma FeeIsExact(cfg: Config, c: Congestion, slot: u64, gasPrice: u64, gas: u64)
    ensures var fee, d := FeeFor(cfg, c, slot, gasPrice, gas), AddGas(cfg.power, c, gas);
      var multiplier := Bounded(d.feeMultiplier, cfg.lowFee, cfg.highFee);
      && (fee.Some? <==> Price(c.baseGasPrice, multiplier) * gas <= U64_MAX)
      && (fee.Some? ==>
            && fee.value.slot == slot && fee.value.baseGasPrice == gasPrice && fee.value.estimatedGas == gas
            && fee.value.totalCost == fee.value.finalPrice * fee.value.estimatedGas
            && fee.value.finalPrice == Price(c.baseGasPrice, multiplier)
            && fee.value.feeMultiplier == multiplier && fee.value.congestionRatio == d.gasUsedRatio)
  {
    ProjectsExactly(cfg.power, c, gas, cfg.lowFee, cfg.highFee);
  }

  /** Once a slot has a record, the oracle's price only shows in what is reported. */
  lemma OracleOnlyOpens(cfg: Config, slots: C.Table, slot: u64, gas: u64, before: u64, after: u64)
    requires C.Get(slots, slot).Some?
    ensures var fee := FeeFor(cfg, QuotedFrom(cfg, slots, slot, before), slot, before, gas);
      var again := FeeFor(cfg, QuotedFrom(cfg, slots, slot, after), slot, after, gas);
      && (fee.Some? <==> again.Some?)
      && (fee.Some? ==> again.value == fee.value.(baseGasPrice := after))
  {
  }

  /** With bounds outside the curve the final price is at least the stored base, and is the price that the
      slot's next update with this gas stores. */
  lemma FeeIsStored(cfg: Config, slots: C.Table, slot: u64, gasPrice: u64, gas: u64)
    requires C.AllPriced(slots, cfg.power) && cfg.lowFee <= 1.0 && cfg.highFee >= 100.0
    ensures var fee := FeeFor(cfg, QuotedFrom(cfg, slots, slot, gasPrice), slot, gasPrice, gas);
      var created := C.Create(slots, slot, gasPrice, cfg.gasLimit);
      var updated := C.Get(C.Update(created, slot, gas, cfg.power), slot);
      && C.Get(created, slot).Some? && updated.Some?
      && (fee.Some? ==>
            && C.Get(created, slot).value.baseGasPrice <= fee.value.finalPrice == updated.value.currentTxPrice
            && fee.value.feeMultiplier == updated.value.feeMultiplier
            && fee.value.congestionRatio == updated.value.gasUsedRatio)
  {
    var c := QuotedFrom(cfg, slots, slot, gasPrice);
    var created := C.Create(slots, slot, gasPrice, cfg.gasLimit);
    C.GetAfterCreate(slots, slot, gasPrice, cfg.gasLimit, slot);
    C.GetAfterUpdate(created, slot, gas, cfg.power, slot);
    QuoteIsApplied(cfg.power, c, gas, cfg.lowFee, cfg.highFee);
    FeeIsExact(cfg, c, slot, gasPrice, gas);
    PricedBounds(cfg.power, AddGas(cfg.power, c, gas));
  }

  /** `None` for every error; a record opened before the error stays. */
  method CalculateFeeForCommitment(
      cfg: Config, commitmentType: u64, payload: Buffer, slot: u64, gasPrice: u64, store: C.CongestionStore)
    returns (fee: Option<FeeCalculation>)
    modifies store
    ensures var gas := EstimateGas(cfg.json, commitmentType, payload);
      if gas.Some? && CanOpen(cfg, slot)
      then store.table == C.Create(old(store.table), slot, gasPrice, cfg.gasLimit)
           && fee == FeeFor(cfg, QuotedFrom(cfg, old(store.table), slot, gasPrice), slot, gasPrice, gas.value)
      else store.table == old(store.table) && fee == None
  {
    var gas := EstimateGas(cfg.json, commitmentType, payload);
    if gas.None? {
      return None;
    }
    C.GetAfterCreate(store.table, slot, gasPrice, cfg.gasLimit, slot);
    var c := store.GetOrCreate(slot, gasPrice, cfg.gasLimit, cfg.genesisTime, cfg.representable);
    if c.None? {
      return None;
    }
    var p := CalculateProjectedCongestion(c.value, gas.value, cfg.power, cfg.lowFee, cfg.highFee);
    var cost := CheckedMul(p.currentTxPrice, gas.value);
    if cost.None? {
      return None;
    }
    return Some(FeeCalculation(
      slot, gasPrice, p.gasUsedRatio, p.feeMultiplier, p.currentTxPrice, gas.value, cost.value));
  }

  function GasOf(cfg: Config, c: Commitment): Option<u64> {
    EstimateGas(cfg.json, c.commitmentType, c.payload)
  }

  /** The saved commitment can be priced: the oracle answers, the slot's record can be opened and the
      total cost fits. */
  predicate Prices(cfg: Config, slots: C.Table, c: Commitment, slot: u64, gasPrice: Option<u64>) {
    && gasPrice.Some? && GasOf(cfg, c).Some? && CanOpen(cfg, slot)
    && FeeFor(cfg, QuotedFrom(cfg, slots, slot, gasPrice.value), slot, gasPrice.value, GasOf(cfg, c).value).Some?
  }

  /** The slots' records afterwards; one opened for a fee that overflows stays. */
  function SlotsAfter(cfg: Config, slots: C.Table, c: Commitment, slot: u64, gasPrice: Option<u64>): C.Table {
    if gasPrice.None? || GasOf(cfg, c).None? || !CanOpen(cfg, slot) then slots
    else
      var created := C.Create(slots, slot, gasPrice.value, cfg.gasLimit);
      if Prices(cfg, slots, c, slot, gasPrice) then C.Update(created, slot, GasOf(cfg, c).value, cfg.power) else created
  }

  /** Fee, then the gas update; only the former can fail the request. */
  method PriceCommitment(cfg: Config, c: Commitment, slot: u64, gasPrice: Option<u64>, store: C.CongestionStore)
    returns (ok: bool)
    modifies store
    ensures ok == Prices(cfg, old(store.table), c, slot, gasPrice)
    ensures store.table == SlotsAfter(cfg, old(store.table), c, slot, gasPrice)
  {
    if gasPrice.None? {
      return false;
    }
    var fee := CalculateFeeForCommitment(cfg, c.commitmentType, c.payload, slot, gasPrice.value, store);
    if fee.None? {
      return false;
    }
    var _ := store.UpdateGasUsage(slot, fee.value.estimatedGas, cfg.power);
    return true;
  }

  // ---- The whole handler ----

  /** What the handler signs before it saves, if it gets there; `ds` is the answer of its SELECT. */
  function SignedFor(
      cfg: Config, rows: Rows, request: CommitmentRequest, ds: seq<SignedDelegation>, scheduled: Option<PublicKey>)
    : Option<SignedCommitment>
  {
    var checked :- Admitted(cfg, rows, request);
    SignatureFor(cfg, request, checked, ds, scheduled)
  }

  /** The slot of a request that is admitted. */
  function SlotOf(cfg: Config, rows: Rows, request: CommitmentRequest): u64 {
    match Admitted(cfg, rows, request)
    case None => 0
    case Some(checked) => checked.slot
  }

  /** What a request comes to: the answer, the commitments and the slots' records. */
  datatype Outcome = Outcome(answer: Option<SignedCommitment>, rows: Rows, slots: C.Table)

  function OutcomeOf(
      cfg: Config, h: nat, request: CommitmentRequest, ds: seq<SignedDelegation>, scheduled: Option<PublicKey>,
      now: int, gasPrice: Option<u64>, rows: Rows, slots: C.Table)
    : Outcome
  {
    match SignedFor(cfg, rows, request, ds, scheduled)
    case None => Outcome(None, rows, slots)
    case Some(signed) => SignedOutcome(cfg, h, signed, SlotOf(cfg, rows, request), now, gasPrice, rows, slots)
  }

  /** What is left once the commitment is signed. */
  function SignedOutcome(
      cfg: Config, h: nat, signed: SignedCommitment, slot: u64, now: int, gasPrice: Option<u64>, rows: Rows,
      slots: C.Table)
    : Outcome
  {
    if SaveOutcome(rows, signed) != Inserted then Outcome(None, rows, slots)
    else
      Outcome(if Prices(cfg, slots, signed.commitment, slot, gasPrice) then Some(signed) else None,
              rows + [Row(NewEntry(cfg, h, signed, now), false)],
              SlotsAfter(cfg, slots, signed.commitment, slot, gasPrice))
  }

  lemma OutcomeAdmitted(
      cfg: Config, h: nat, request: CommitmentRequest, ds: seq<SignedDelegation>, scheduled: Option<PublicKey>,
      now: int, gasPrice: Option<u64>, rows: Rows, slots: C.Table, checked: Option<Checked>)
    requires checked == Admitted(cfg, rows, request)
    ensures checked.Some? ==> SlotOf(cfg, rows, request) == checked.value.slot
    ensures OutcomeOf(cfg, h, request, ds, scheduled, now, gasPrice, rows, slots)
         == match checked
            case None => Outcome(None, rows, slots)
            case Some(c) =>
              match SignatureFor(cfg, request, c, ds, scheduled)
              case None => Outcome(None, rows, slots)
              case Some(signed) => SignedOutcome(cfg, h, signed, c.slot, now, gasPrice, rows, slots)
  {
  }

  /** A possible answer of the SELECT of a request that is admitted. */
  ghost predicate Answers(
      cfg: Config, rows: Rows, table: D.Table, request: CommitmentRequest, ds: seq<SignedDelegation>)
  {
    Admitted(cfg, rows, request).Some? ==> D.IsAnswer(table, SlotOf(cfg, rows, request), ds)
  }

  /** `INSERT`, pricing and the answer. */
  method SaveAndPrice(
      cfg: Config, h: nat, signed: SignedCommitment, slot: u64, now: int, gasPrice: Option<u64>,
      commitments: CommitmentStore, slots: C.CongestionStore)
    returns (r: Option<SignedCommitment>)
    modifies commitments, slots
    ensures Outcome(r, commitments.rows, slots.table)
         == SignedOutcome(cfg, h, signed, slot, now, gasPrice, old(commitments.rows), old(slots.table))
  {
    var saved := commitments.SaveCommitment(cfg.json, h, signed, now);
    if saved != Some(true) {
      return None;
    }
    var ok := PriceCommitment(cfg, signed.commitment, slot, gasPrice, slots);
    return if ok then Some(signed) else None;
  }

  /** The handler: its answer and the tables are the outcome for the answer of its SELECT, and those of
      the run of the gateway in which it takes its steps without interruption. */
  method CommitmentRequestHandler(
      cfg: Config, h: nat, request: CommitmentRequest, scheduled: Option<PublicKey>, now: int, gasPrice: Option<u64>,
      commitments: CommitmentStore, delegations: D.DelegationStore, slots: C.CongestionStore, ghost s: State)
    returns (r: Option<SignedCommitment>)
    requires h !in s.handlers
    requires s.pipeline.rows == commitments.rows && s.delegations == delegations.table && s.slots == slots.table
    modifies commitments, slots
    ensures exists ds ::
      && Answers(cfg, old(commitments.rows), delegations.table, request, ds)
      && Outcome(r, commitments.rows, slots.table)
         == OutcomeOf(cfg, h, request, ds, scheduled, now, gasPrice, old(commitments.rows), old(slots.table))
      && EndsIn(Run(cfg, s, HandlerActions(h, request, ds, scheduled, now, gasPrice)), h,
                Outcome(r, commitments.rows, slots.table))
  {
    ghost var ds: seq<SignedDelegation>;
    r, ds := ServeRequest(cfg, h, request, scheduled, now, gasPrice, commitments, delegations, slots);
    OutcomeOfRun(cfg, s, h, request, ds, scheduled, now, gasPrice);
  }

  method ServeRequest(
      cfg: Config, h: nat, request: CommitmentRequest, scheduled: Option<PublicKey>, now: int, gasPrice: Option<u64>,
      commitments: CommitmentStore, delegations: D.DelegationStore, slots: C.CongestionStore)
    returns (r: Option<SignedCommitment>, ghost ds: seq<SignedDelegation>)
    modifies commitments, slots
    ensures Answers(cfg, old(commitments.rows), delegations.table, request, ds)
    ensures Outcome(r, commitments.rows, slots.table)
         == OutcomeOf(cfg, h, request, ds, scheduled, now, gasPrice, old(commitments.rows), old(slots.table))
  {
    ds := [];
    var checked := Admit(cfg, request, commitments);
    OutcomeAdmitted(cfg, h, request, ds, scheduled, now, gasPrice, commitments.rows, slots.table, checked);
    if checked.None? {
      return None, ds;
    }
    var signed := VerifyDelegationAuthority(cfg, request, checked.value, scheduled, delegations);
    ds :| && D.IsAnswer(delegations.table, checked.value.slot, ds)
          && signed == SignatureFor(cfg, request, checked.value, ds, scheduled);
    OutcomeAdmitted(cfg, h, request, ds, scheduled, now, gasPrice, commitments.rows, slots.table, checked);
    if signed.None? {
      return None, ds;
    }
    r := SaveAndPrice(cfg, h, signed.value, checked.value.slot, now, gasPrice, commitments, slots);
  }

  // ---- Its steps ----

  ghost function BeaconAction(h: nat, scheduled: Option<PublicKey>): Action {
    if scheduled.Some? then Confirm(h, scheduled.value) else Abort(h)
  }

  ghost function AdmitActions(h: nat, request: CommitmentRequest): seq<Action> {
    [Arrive(h, request), Check(h)]
  }

  ghost function AuthorityActions(h: nat, ds: seq<SignedDelegation>, scheduled: Option<PublicKey>): seq<Action> {
    [Authorize(h, ds), BeaconAction(h, scheduled)]
  }

  ghost function PriceActions(h: nat, gasPrice: Option<u64>): seq<Action> {
    if gasPrice.Some? then [Open(h, gasPrice.value), Quote(h)] + [Apply(h, true)] else [Abort(h)]
  }

  /** All steps of one request; those after a failure change nothing. */
  ghost function HandlerActions(
      h: nat, request: CommitmentRequest, ds: seq<SignedDelegation>, scheduled: Option<PublicKey>, now: int,
      gasPrice: Option<u64>)
    : seq<Action>
  {
    AdmitActions(h, request) + LaterActions(h, ds, scheduled, now, gasPrice)
  }

  /** Those after admission. */
  ghost function LaterActions(
      h: nat, ds: seq<SignedDelegation>, scheduled: Option<PublicKey>, now: int, gasPrice: Option<u64>)
    : seq<Action>
  {
    AuthorityActions(h, ds, scheduled) + ([Save(h, now)] + PriceActions(h, gasPrice))
  }

  /** The handler has ended with this outcome. */
  ghost predicate EndsIn(s: State, h: nat, o: Outcome) {
    && s.pipeline.rows == o.rows && s.slots == o.slots && h in s.handlers
    && s.handlers[h] == match o.answer
                        case None => Failed
                        case Some(signed) => Returned(signed)
  }

  lemma FailedStep(cfg: Config, s: State, h: nat, a: Action)
    requires h in s.handlers && s.handlers[h].Failed? && HandlerOf(a) == Some(h)
    ensures Step(cfg, s, a) == s
  {
    assert Put(s, h, Failed).handlers == s.handlers;
  }

  ghost predicate OnlyOf(h: nat, actions: seq<Action>) {
    forall i :: 0 <= i < |actions| ==> HandlerOf(actions[i]) == Some(h)
  }

  lemma {:induction false} FailedRun(cfg: Config, s: State, h: nat, actions: seq<Action>)
    requires h in s.handlers && s.handlers[h].Failed? && OnlyOf(h, actions)
    ensures Run(cfg, s, actions) == s
    decreases |actions|
  {
    if actions != [] {
      FailedStep(cfg, s, h, actions[0]);
      FailedRun(cfg, s, h, actions[1..]);
    }
  }

  lemma HandlerActionsOnly(
      h: nat, request: CommitmentRequest, ds: seq<SignedDelegation>, scheduled: Option<PublicKey>, now: int,
      gasPrice: Option<u64>)
    ensures OnlyOf(h, HandlerActions(h, request, ds, scheduled, now, gasPrice))
  {
  }

  /** Other handlers, the delegations, the relay and the ticks are as before. */
  ghost predicate Elsewhere(s: State, s': State, h: nat) {
    && s'.delegations == s.delegations
    && s'.pipeline == s.pipeline.(rows := s'.pipeline.rows)
    && forall g :: g != h ==> At(s', g) == At(s, g) && (g in s'.handlers <==> g in s.handlers)
  }

  lemma StepElsewhere(cfg: Config, s: State, h: nat, a: Action)
    requires HandlerOf(a) == Some(h)
    ensures Elsewhere(s, Step(cfg, s, a), h)
  {
  }

  lemma {:induction false} RunElsewhere(cfg: Config, s: State, h: nat, actions: seq<Action>)
    requires OnlyOf(h, actions)
    ensures Elsewhere(s, Run(cfg, s, actions), h)
    decreases |actions|
  {
    if actions != [] {
      StepElsewhere(cfg, s, h, actions[0]);
      RunElsewhere(cfg, Step(cfg, s, actions[0]), h, actions[1..]);
    }
  }

  lemma ArriveStep(cfg: Config, s: State, h: nat, request: CommitmentRequest)
    requires h !in s.handlers
    ensures Step(cfg, s, Arrive(h, request)) == Put(s, h, Arrived(cfg, request))
  {
  }

  lemma CheckStep(cfg: Config, s: State, h: nat)
    requires h in s.handlers
    ensures Step(cfg, s, Check(h))
         == if At(s, h).Checking? then Put(s, h, AfterCheck(s.pipeline.rows, At(s, h))) else s
  {
  }

  function AdmittedHandler(cfg: Config, rows: Rows, request: CommitmentRequest): Handler {
    match Admitted(cfg, rows, request)
    case None => Failed
    case Some(c) => Authorizing(request, c.slot, c.hash)
  }

  lemma AdmitRun(cfg: Config, s: State, h: nat, request: CommitmentRequest)
    requires h !in s.handlers
    ensures Run(cfg, s, AdmitActions(h, request)) == Put(s, h, AdmittedHandler(cfg, s.pipeline.rows, request))
  {
    var s1 := Put(s, h, Arrived(cfg, request));
    RunTwo(cfg, s, Arrive(h, request), Check(h));
    ArriveStep(cfg, s, h, request);
    CheckStep(cfg, s1, h);
    PutTwice(s, h, Arrived(cfg, request), AdmittedHandler(cfg, s.pipeline.rows, request));
    AdmittedAfterCheck(cfg, s.pipeline.rows, request);
  }

  lemma PutTwice(s: State, h: nat, x: Handler, y: Handler)
    ensures Put(Put(s, h, x), h, y) == Put(s, h, y)
  {
    assert Put(Put(s, h, x), h, y).handlers == Put(s, h, y).handlers;
  }

  lemma AdmittedAfterCheck(cfg: Config, rows: Rows, request: CommitmentRequest)
    ensures var x := Arrived(cfg, request);
      AdmittedHandler(cfg, rows, request) == if x.Checking? then AfterCheck(rows, x) else x
  {
  }

  lemma AuthorizeStep(cfg: Config, s: State, h: nat, ds: seq<SignedDelegation>)
    requires At(s, h).Authorizing? && D.IsAnswer(s.delegations, At(s, h).slot, ds)
    ensures Step(cfg, s, Authorize(h, ds)) == Put(s, h, AfterSelect(cfg, At(s, h), ds))
  {
  }

  lemma ConfirmStep(cfg: Config, s: State, h: nat, scheduled: PublicKey)
    requires h in s.handlers
    ensures Step(cfg, s, Confirm(h, scheduled))
         == if At(s, h).Confirming? then Confirmed(cfg, s, h, At(s, h), scheduled) else s
  {
  }

  lemma AbortStep(cfg: Config, s: State, h: nat)
    requires h in s.handlers && !At(s, h).Returned?
    ensures Step(cfg, s, Abort(h)) == Put(s, h, Failed)
  {
  }

  /** Only the handlers and the history of beacon answers differ. */
  ghost predicate SameTables(s: State, s': State) {
    s' == s.(handlers := s'.handlers, beacon := s'.beacon)
  }

  lemma BeaconStep(cfg: Config, s: State, h: nat, scheduled: Option<PublicKey>)
    requires h in s.handlers && (s.handlers[h].Confirming? || s.handlers[h].Failed?)
    ensures var s' := Step(cfg, s, BeaconAction(h, scheduled));
      && SameTables(s, s') && h in s'.handlers
      && At(s', h) == if At(s, h).Confirming? && scheduled.Some? then AfterBeacon(cfg, At(s, h), scheduled.value)
                      else Failed
  {
    if scheduled.Some? {
      ConfirmStep(cfg, s, h, scheduled.value);
    } else {
      AbortStep(cfg, s, h);
    }
  }

  lemma SelectAndConfirm(
      cfg: Config, x: Handler, checked: Checked, ds: seq<SignedDelegation>, scheduled: Option<PublicKey>)
    requires x.Authorizing? && x == Authorizing(x.request, checked.slot, checked.hash)
    ensures var y := AfterSelect(cfg, x, ds);
      (if y.Confirming? && scheduled.Some? then AfterBeacon(cfg, y, scheduled.value) else Failed)
      == match SignatureFor(cfg, x.request, checked, ds, scheduled)
         case None => Failed
         case Some(c) => Saving(c, x.slot)
  {
  }

  lemma AuthorityRun(
      cfg: Config, s: State, h: nat, request: CommitmentRequest, checked: Checked, ds: seq<SignedDelegation>,
      scheduled: Option<PublicKey>)
    requires h in s.handlers && s.handlers[h] == Authorizing(request, checked.slot, checked.hash)
    requires D.IsAnswer(s.delegations, checked.slot, ds)
    ensures var s' := Run(cfg, s, AuthorityActions(h, ds, scheduled));
      && SameTables(s, s') && h in s'.handlers
      && s'.handlers[h] == match SignatureFor(cfg, request, checked, ds, scheduled)
                           case None => Failed
                           case Some(c) => Saving(c, checked.slot)
  {
    var x := s.handlers[h];
    RunTwo(cfg, s, Authorize(h, ds), BeaconAction(h, scheduled));
    AuthorizeStep(cfg, s, h, ds);
    BeaconStep(cfg, Put(s, h, AfterSelect(cfg, x, ds)), h, scheduled);
    SelectAndConfirm(cfg, x, checked, ds, scheduled);
  }

  lemma SaveStep(cfg: Config, s: State, h: nat, now: int)
    requires At(s, h).Saving?
    ensures Step(cfg, s, Save(h, now)) == Recorded(cfg, s, h, At(s, h), now)
    ensures Recorded(cfg, s, h, At(s, h), now).pipeline
         == s.pipeline.(rows := Insert(s.pipeline.rows, NewEntry(cfg, h, At(s, h).signed, now)))
  {
  }

  lemma OpenStep(cfg: Config, s: State, h: nat, gasPrice: u64)
    requires h in s.handlers
    ensures Step(cfg, s, Open(h, gasPrice)) == if At(s, h).Opening? then Opened(cfg, s, h, At(s, h), gasPrice) else s
  {
  }

  lemma QuoteStep(cfg: Config, s: State, h: nat)
    requires h in s.handlers
    ensures Step(cfg, s, Quote(h)) == if At(s, h).Quoting? then Put(s, h, AfterQuote(cfg, s.slots, At(s, h))) else s
  {
  }

  lemma ApplyStep(cfg: Config, s: State, h: nat)
    requires h in s.handlers
    ensures Step(cfg, s, Apply(h, true)) == if At(s, h).Applying? then Charged(cfg, s, h, At(s, h)) else s
  {
  }

  lemma QuotedFee(cfg: Config, s: State, s1: State, h: nat, gasPrice: u64, gas: u64)
    requires At(s, h).Opening? && GasOf(cfg, At(s, h).signed.commitment) == Some(gas) && CanOpen(cfg, At(s, h).slot)
    requires s1 == Opened(cfg, s, h, At(s, h), gasPrice)
    ensures At(s1, h).Quoting?
    ensures var x := At(s, h);
      var c := QuotedFrom(cfg, s.slots, x.slot, gasPrice);
      AfterQuote(cfg, s1.slots, At(s1, h))
      == if FeeFor(cfg, c, x.slot, gasPrice, gas).Some? then Applying(x.signed, x.slot, gas, c) else Failed
  {
    C.GetAfterCreate(s.slots, At(s, h).slot, gasPrice, cfg.gasLimit, At(s, h).slot);
  }

  /** The last steps of a handler that has saved, as an outcome. */
  ghost predicate PricedAs(cfg: Config, s: State, s': State, h: nat, gasPrice: Option<u64>)
    requires At(s, h).Opening?
  {
    var x := At(s, h);
    && s'.pipeline == s.pipeline && s'.delegations == s.delegations && h in s'.handlers
    && s'.slots == SlotsAfter(cfg, s.slots, x.signed.commitment, x.slot, gasPrice)
    && s'.handlers[h] == if Prices(cfg, s.slots, x.signed.commitment, x.slot, gasPrice) then Returned(x.signed)
                         else Failed
  }

  lemma NotOpened(cfg: Config, s: State, h: nat, gasPrice: u64)
    requires At(s, h).Opening?
    requires GasOf(cfg, At(s, h).signed.commitment).None? || !CanOpen(cfg, At(s, h).slot)
    ensures PricedAs(cfg, s, Run(cfg, s, PriceActions(h, Some(gasPrice))), h, Some(gasPrice))
  {
    RunThree(cfg, s, Open(h, gasPrice), Quote(h), Apply(h, true));
    OpenStep(cfg, s, h, gasPrice);
    QuoteStep(cfg, Put(s, h, Failed), h);
    ApplyStep(cfg, Put(s, h, Failed), h);
  }

  lemma WasOpened(cfg: Config, s: State, h: nat, gasPrice: u64, gas: u64)
    requires At(s, h).Opening?
    requires GasOf(cfg, At(s, h).signed.commitment) == Some(gas) && CanOpen(cfg, At(s, h).slot)
    ensures PricedAs(cfg, s, Run(cfg, s, PriceActions(h, Some(gasPrice))), h, Some(gasPrice))
  {
    RunThree(cfg, s, Open(h, gasPrice), Quote(h), Apply(h, true));
    OpenStep(cfg, s, h, gasPrice);
    var s1 := Opened(cfg, s, h, At(s, h), gasPrice);
    QuoteStep(cfg, s1, h);
    QuotedFee(cfg, s, s1, h, gasPrice, gas);
    ApplyStep(cfg, Put(s1, h, AfterQuote(cfg, s1.slots, At(s1, h))), h);
  }

  lemma RunThree(cfg: Config, s: State, a: Action, b: Action, c: Action)
    ensures Run(cfg, s, [a, b] + [c]) == Step(cfg, Step(cfg, Step(cfg, s, a), b), c)
  {
    RunTwo(cfg, s, a, b);
    RunAppend(cfg, s, [a, b], [c]);
    RunOne(cfg, Run(cfg, s, [a, b]), c);
  }

  lemma PriceRun(cfg: Config, s: State, h: nat, gasPrice: Option<u64>)
    requires At(s, h).Opening?
    ensures PricedAs(cfg, s, Run(cfg, s, PriceActions(h, gasPrice)), h, gasPrice)
  {
    match gasPrice
    case None =>
      RunOne(cfg, s, Abort(h));
      AbortStep(cfg, s, h);
    case Some(price) =>
      match GasOf(cfg, At(s, h).signed.commitment)
      case None => NotOpened(cfg, s, h, price);
      case Some(gas) =>
        if CanOpen(cfg, At(s, h).slot) {
          WasOpened(cfg, s, h, price, gas);
        } else {
          NotOpened(cfg, s, h, price);
        }
  }

  /** From a signature on. */
  lemma SaveRun(cfg: Config, s: State, h: nat, signed: SignedCommitment, slot: u64, now: int, gasPrice: Option<u64>)
    requires h in s.handlers && s.handlers[h] == Saving(signed, slot)
    ensures var s' := Run(cfg, s, [Save(h, now)] + PriceActions(h, gasPrice));
      && s'.delegations == s.delegations
      && s'.pipeline == s.pipeline.(rows := Insert(s.pipeline.rows, NewEntry(cfg, h, signed, now)))
      && EndsIn(s', h, SignedOutcome(cfg, h, signed, slot, now, gasPrice, s.pipeline.rows, s.slots))
  {
    RunAppend(cfg, s, [Save(h, now)], PriceActions(h, gasPrice));
    RunOne(cfg, s, Save(h, now));
    SaveStep(cfg, s, h, now);
    var s1 := Step(cfg, s, Save(h, now));
    if SaveOutcome(s.pipeline.rows, signed) == Inserted {
      PriceRun(cfg, s1, h, gasPrice);
    } else {
      FailedRun(cfg, s1, h, PriceActions(h, gasPrice));
    }
  }

  /** From admission on. */
  lemma AuthorizedRun(
      cfg: Config, s: State, h: nat, request: CommitmentRequest, checked: Checked, ds: seq<SignedDelegation>,
      scheduled: Option<PublicKey>, now: int, gasPrice: Option<u64>)
    requires h in s.handlers && s.handlers[h] == Authorizing(request, checked.slot, checked.hash)
    requires D.IsAnswer(s.delegations, checked.slot, ds)
    ensures var s' := Run(cfg, s, LaterActions(h, ds, scheduled, now, gasPrice));
      EndsIn(s', h, match SignatureFor(cfg, request, checked, ds, scheduled)
                    case None => Outcome(None, s.pipeline.rows, s.slots)
                    case Some(signed) =>
                      SignedOutcome(cfg, h, signed, checked.slot, now, gasPrice, s.pipeline.rows, s.slots))
  {
    var last := [Save(h, now)] + PriceActions(h, gasPrice);
    RunAppend(cfg, s, AuthorityActions(h, ds, scheduled), last);
    AuthorityRun(cfg, s, h, request, checked, ds, scheduled);
    var s1 := Run(cfg, s, AuthorityActions(h, ds, scheduled));
    match SignatureFor(cfg, request, checked, ds, scheduled)
    case None => FailedRun(cfg, s1, h, last);
    case Some(signed) => SaveRun(cfg, s1, h, signed, checked.slot, now, gasPrice);
  }

  lemma AfterAdmission(
      cfg: Config, s: State, h: nat, request: CommitmentRequest, checked: Option<Checked>, ds: seq<SignedDelegation>,
      scheduled: Option<PublicKey>, now: int, gasPrice: Option<u64>, o: Outcome)
    requires At(s, h) == match checked
                         case None => Failed
                         case Some(c) => Authorizing(request, c.slot, c.hash)
    requires h in s.handlers && (checked.Some? ==> D.IsAnswer(s.delegations, checked.value.slot, ds))
    requires o == match checked
                  case None => Outcome(None, s.pipeline.rows, s.slots)
                  case Some(c) =>
                    match SignatureFor(cfg, request, c, ds, scheduled)
                    case None => Outcome(None, s.pipeline.rows, s.slots)
                    case Some(signed) =>
                      SignedOutcome(cfg, h, signed, c.slot, now, gasPrice, s.pipeline.rows, s.slots)
    ensures EndsIn(Run(cfg, s, LaterActions(h, ds, scheduled, now, gasPrice)), h, o)
  {
    match checked
    case None => FailedRun(cfg, s, h, LaterActions(h, ds, scheduled, now, gasPrice));
    case Some(c) => AuthorizedRun(cfg, s, h, request, c, ds, scheduled, now, gasPrice);
  }

  /** The run of a handler's steps ends in the outcome of its request. */
  lemma OutcomeOfRun(
      cfg: Config, s: State, h: nat, request: CommitmentRequest, ds: seq<SignedDelegation>,
      scheduled: Option<PublicKey>, now: int, gasPrice: Option<u64>)
    requires h !in s.handlers && Answers(cfg, s.pipeline.rows, s.delegations, request, ds)
    ensures EndsIn(Run(cfg, s, HandlerActions(h, request, ds, scheduled, now, gasPrice)), h,
                   OutcomeOf(cfg, h, request, ds, scheduled, now, gasPrice, s.pipeline.rows, s.slots))
  {
    var checked := Admitted(cfg, s.pipeline.rows, request);
    var o := OutcomeOf(cfg, h, request, ds, scheduled, now, gasPrice, s.pipeline.rows, s.slots);
    RunAppend(cfg, s, AdmitActions(h, request), LaterActions(h, ds, scheduled, now, gasPrice));
    AdmitRun(cfg, s, h, request);
    OutcomeAdmitted(cfg, h, request, ds, scheduled, now, gasPrice, s.pipeline.rows, s.slots, checked);
    var s1 := Put(s, h, AdmittedHandler(cfg, s.pipeline.rows, request));
    AfterAdmission(cfg, s1, h, request, checked, ds, scheduled, now, gasPrice, o);
  }

  /** An uninterrupted request succeeds exactly when it is valid, its hash is not known, the first match
      of its slot's delegations yields a signature, the slasher has the prefix, the oracle answers,
      the slot's record can be opened and the total cost fits; a success returns that signature. */
  lemma SucceedsExactly(
      cfg: Config, s: State, h: nat, request: CommitmentRequest, ds: seq<SignedDelegation>,
      scheduled: Option<PublicKey>, now: int, gasPrice: Option<u64>)
    requires h !in s.handlers && Answers(cfg, s.pipeline.rows, s.delegations, request, ds)
    ensures var s' := Run(cfg, s, HandlerActions(h, request, ds, scheduled, now, gasPrice));
      var checked := Validate(cfg, request);
      && (At(s', h).Returned?
          <==> && checked.Some? && !Exists(s.pipeline.rows, checked.value.hash)
               && SignatureFor(cfg, request, checked.value, ds, scheduled).Some?
               && "0x" <= request.slasher
               && Prices(cfg, s.slots, CommitmentFor(request, checked.value.hash), checked.value.slot, gasPrice))
      && (At(s', h).Returned? ==> Some(At(s', h).signed) == SignatureFor(cfg, request, checked.value, ds, scheduled))
  {
    OutcomeOfRun(cfg, s, h, request, ds, scheduled, now, gasPrice);
    var checked := Validate(cfg, request);
    if checked.Some? && !Exists(s.pipeline.rows, checked.value.hash) {
      var signed := SignatureFor(cfg, request, checked.value, ds, scheduled);
      if signed.Some? {
        SignedIsInserted(cfg, s.pipeline.rows, request, checked.value, signed.value);
      }
    }
  }

  lemma SignedIsInserted(
      cfg: Config, rows: Rows, request: CommitmentRequest, checked: Checked, signed: SignedCommitment)
    requires Validate(cfg, request) == Some(checked) && !Exists(rows, checked.hash)
    requires Sign(cfg, CommitmentFor(request, checked.hash)) == Some(signed)
    ensures signed.commitment == CommitmentFor(request, checked.hash)
    ensures SaveOutcome(rows, signed) == Inserted <==> "0x" <= request.slasher
  {
    SignedIsGenuine(cfg, request, checked.slot, checked.hash, signed);
    AcceptableExactly(cfg, signed, checked.slot);
  }

  /** After its insert a handler left alone fails exactly when the oracle fails, the slot's record cannot
      be opened or the total cost overflows; its row stays in any case. */
  lemma FailsAfterSaveExactly(cfg: Config, actions: seq<Action>, h: nat, gasPrice: Option<u64>)
    requires At(Run(cfg, INITIAL, actions), h).Opening?
    ensures var s := Run(cfg, INITIAL, actions);
      var x, s' := At(s, h), Run(cfg, s, PriceActions(h, gasPrice));
      && SavedBy(s'.pipeline.rows, h, x.signed) && s'.pipeline == s.pipeline
      && GasOf(cfg, x.signed.commitment).Some?
      && (At(s', h) == Failed
          <==> || gasPrice.None? || !CanOpen(cfg, x.slot)
               || FeeFor(cfg, QuotedFrom(cfg, s.slots, x.slot, gasPrice.value), x.slot, gasPrice.value,
                         GasOf(cfg, x.signed.commitment).value).None?)
      && (At(s', h) != Failed ==> At(s', h) == Returned(x.signed))
  {
    RunIsLawful(cfg, actions);
    var s := Run(cfg, INITIAL, actions);
    OpeningFacts(cfg, s, h);
    PriceRun(cfg, s, h, gasPrice);
  }

  lemma OpeningFacts(cfg: Config, s: State, h: nat)
    requires s in Lawful(cfg) && At(s, h).Opening?
    ensures SavedBy(s.pipeline.rows, h, At(s, h).signed)
    ensures GasOf(cfg, At(s, h).signed.commitment).Some?
  {
    assert HandlerAt(cfg, s, h);
    OpeningIsGenuine(cfg, s, h, At(s, h));
    GenuineSlot(cfg, At(s, h).signed, At(s, h).slot);
    EstimateOfInclusion(cfg.json, At(s, h).signed.commitment.payload);
  }

  lemma OpeningIsGenuine(cfg: Config, s: State, h: nat, x: Handler)
    requires x.Opening? && HandlerOk(cfg, s, h, x)
    ensures Genuine(cfg, x.signed, x.slot) && SavedBy(s.pipeline.rows, h, x.signed)
  {
  }

  lemma EstimateOfInclusion(json: Json, payload: Buffer)
    ensures EstimateGas(json, 1, payload).Some?
  {
  }

  // ---- Success, condition by condition ----

  /** The delegation is for this slot and, spelling aside, for this slasher. */
  ghost predicate IsFor(d: SignedDelegation, slasher: string, slot: u64) {
    d.message.slot == slot && Address.NormalizeAddress(d.message.committer) == Address.NormalizeAddress(slasher)
  }

  ghost predicate IsFirstFor(ds: seq<SignedDelegation>, i: int, slasher: string, slot: u64) {
    0 <= i < |ds| && IsFor(ds[i], slasher, slot) && forall j :: 0 <= j < i ==> !IsFor(ds[j], slasher, slot)
  }

  /** Type, whitelist, slot and request hash. */
  ghost predicate IsValid(cfg: Config, request: CommitmentRequest, slot: u64, hash: string) {
    && request.commitmentType == 1 && OnWhitelist(cfg, request.slasher)
    && ExtractSlot(cfg.json, 1, request.payload) == Some(slot)
    && Preimages.RequestHash(cfg.bls.keccak, request) == Some(hash)
  }

  /** The delegation carries its proposer's signature, the beacon node has named that proposer, and its
      committer is our address. */
  ghost predicate IsAuthority(cfg: Config, d: SignedDelegation, scheduled: Option<PublicKey>) {
    && D.ProposerSigned(cfg.bls, d.message, d.signature) && scheduled == Some(d.message.proposer)
    && Address.NormalizeAddress(d.message.committer) == Address.NormalizeAddress(cfg.committerAddress)
  }

  /** The oracle answers, the slot's start is a time the database can hold, and there is a fee. */
  ghost predicate IsPriced(cfg: Config, slots: C.Table, request: CommitmentRequest, slot: u64, gasPrice: Option<u64>) {
    && gasPrice.Some? && cfg.representable(AsI64(SaturatingAdd(cfg.genesisTime, SaturatingMul(slot, 12))))
    && EstimateGas(cfg.json, 1, request.payload).Some?
    && FeeFor(cfg, QuotedFrom(cfg, slots, slot, gasPrice.value), slot, gasPrice.value,
              EstimateGas(cfg.json, 1, request.payload).value).Some?
  }

  ghost predicate IsGranted(
      cfg: Config, s: State, request: CommitmentRequest, ds: seq<SignedDelegation>, scheduled: Option<PublicKey>,
      gasPrice: Option<u64>, slot: u64, hash: string, i: int)
  {
    && IsValid(cfg, request, slot, hash)
    && (forall k :: 0 <= k < |s.pipeline.rows| ==> s.pipeline.rows[k].entry.signed.commitment.requestHash != hash)
    && IsFirstFor(ds, i, request.slasher, slot) && IsAuthority(cfg, ds[i], scheduled)
    && "0x" <= request.slasher && IsPriced(cfg, s.slots, request, slot, gasPrice)
  }

  lemma ValidatesExactly(cfg: Config, request: CommitmentRequest, slot: u64, hash: string)
    ensures Validate(cfg, request) == Some(Checked(slot, hash)) <==> IsValid(cfg, request, slot, hash)
  {
    assert Whitelisted(cfg, request.slasher) <==> OnWhitelist(cfg, request.slasher) by {
      if w :| w in cfg.whitelist && Address.NormalizeAddress(w) == Address.NormalizeAddress(request.slasher) {
        var i :| 0 <= i < |cfg.whitelist| && cfg.whitelist[i] == w;
      }
      if i :| && 0 <= i < |cfg.whitelist|
              && Address.NormalizeAddress(cfg.whitelist[i]) == Address.NormalizeAddress(request.slasher) {
        assert cfg.whitelist[i] in cfg.whitelist;
      }
    }
  }

  lemma {:induction false} FirstMatchAt(ds: seq<SignedDelegation>, slasher: string, slot: u64, i: nat)
    requires IsFirstFor(ds, i, slasher, slot)
    ensures FirstMatch(ds, slasher, slot) == Some(ds[i])
    decreases i
  {
    if i > 0 {
      var rest := ds[1..];
      assert !IsFor(ds[0], slasher, slot);
      assert forall j :: 0 <= j < |rest| ==> rest[j] == ds[j + 1];
      FirstMatchAt(rest, slasher, slot, i - 1);
    }
  }

  lemma MatchIsFirst(ds: seq<SignedDelegation>, slasher: string, slot: u64) returns (i: nat)
    requires FirstMatch(ds, slasher, slot).Some?
    ensures IsFirstFor(ds, i, slasher, slot) && ds[i] == FirstMatch(ds, slasher, slot).value
  {
    var k :| IsFirstMatch(ds, slasher, slot, k) && ds[k] == FirstMatch(ds, slasher, slot).value;
    i := k;
    assert forall j :: 0 <= j < i ==> !Matches(ds[j], slasher, slot);
  }

  lemma AuthorityExactly(
      cfg: Config, request: CommitmentRequest, checked: Checked, d: SignedDelegation, proposer: PublicKey)
    requires Sign(cfg, CommitmentFor(request, checked.hash)).Some?
    ensures SignatureUnder(cfg, request, checked, d, proposer)
         == if IsAuthority(cfg, d, Some(proposer)) then Sign(cfg, CommitmentFor(request, checked.hash)) else None
  {
    D.VerifiesExactly(cfg.bls, d);
  }

  /** There is a first delegation for the slasher and slot, and it is an authority. */
  ghost predicate HasAuthority(
      cfg: Config, ds: seq<SignedDelegation>, slasher: string, slot: u64, scheduled: Option<PublicKey>)
  {
    exists i :: IsFirstFor(ds, i, slasher, slot) && IsAuthority(cfg, ds[i], scheduled)
  }

  /** The signature is given exactly then; it is ours on the request's commitment. */
  lemma SignatureExactly(
      cfg: Config, request: CommitmentRequest, checked: Checked, ds: seq<SignedDelegation>,
      scheduled: Option<PublicKey>)
    requires IsValid(cfg, request, checked.slot, checked.hash)
    ensures var signed := SignatureFor(cfg, request, checked, ds, scheduled);
      && (signed.Some? <==> HasAuthority(cfg, ds, request.slasher, checked.slot, scheduled))
      && (signed.Some? ==>
            && signed.value.commitment == Commitment(1, request.payload, checked.hash, request.slasher)
            && SignedByUs(cfg, signed.value))
  {
    SignsAny(cfg, request, checked);
    var d := FirstMatch(ds, request.slasher, checked.slot);
    if HasAuthority(cfg, ds, request.slasher, checked.slot, scheduled) {
      var i :| IsFirstFor(ds, i, request.slasher, checked.slot) && IsAuthority(cfg, ds[i], scheduled);
      FirstMatchAt(ds, request.slasher, checked.slot, i);
    }
    if d.Some? && scheduled.Some? {
      var i := MatchIsFirst(ds, request.slasher, checked.slot);
      AuthorityExactly(cfg, request, checked, d.value, scheduled.value);
    }
  }

  lemma SignsAny(cfg: Config, request: CommitmentRequest, checked: Checked)
    requires IsValid(cfg, request, checked.slot, checked.hash)
    ensures var signed := Sign(cfg, CommitmentFor(request, checked.hash));
      && signed.Some? && SignedByUs(cfg, signed.value)
      && signed.value.commitment == Commitment(1, request.payload, checked.hash, request.slasher)
  {
    var c := CommitmentFor(request, checked.hash);
    Preimages.RequestHashExactly(cfg.bls.keccak, request, checked.hash);
    assert Preimages.EncodeCommitment(c).Some?;
    Address.EncodedColumn(cfg.ecdsa(cfg.bls.keccak(Preimages.EncodeCommitment(c).value)));
  }

  /** An uninterrupted request succeeds exactly when it is granted, and then returns our signature on its
      commitment. */
  lemma RequestSucceedsExactly(
      cfg: Config, s: State, h: nat, request: CommitmentRequest, ds: seq<SignedDelegation>,
      scheduled: Option<PublicKey>, now: int, gasPrice: Option<u64>)
    requires h !in s.handlers && Answers(cfg, s.pipeline.rows, s.delegations, request, ds)
    ensures var x := At(Run(cfg, s, HandlerActions(h, request, ds, scheduled, now, gasPrice)), h);
      && (x.Returned? <==> exists slot, hash, i :: IsGranted(cfg, s, request, ds, scheduled, gasPrice, slot, hash, i))
      && (x.Returned? ==>
            && SignedByUs(cfg, x.signed) && HashesItsRequest(cfg, x.signed.commitment)
            && x.signed.commitment == Commitment(1, request.payload, x.signed.commitment.requestHash, request.slasher))
  {
    SucceedsExactly(cfg, s, h, request, ds, scheduled, now, gasPrice);
    var x := At(Run(cfg, s, HandlerActions(h, request, ds, scheduled, now, gasPrice)), h);
    if x.Returned? {
      ReturnsWhenGranted(cfg, s, request, ds, scheduled, gasPrice, x.signed);
    }
    if slot, hash, i :| IsGranted(cfg, s, request, ds, scheduled, gasPrice, slot, hash, i) {
      GrantedSigns(cfg, s, request, ds, scheduled, gasPrice, slot, hash, i);
    }
  }

  lemma GrantedSigns(
      cfg: Config, s: State, request: CommitmentRequest, ds: seq<SignedDelegation>, scheduled: Option<PublicKey>,
      gasPrice: Option<u64>, slot: u64, hash: string, i: int)
    requires IsGranted(cfg, s, request, ds, scheduled, gasPrice, slot, hash, i)
    ensures Validate(cfg, request) == Some(Checked(slot, hash)) && !Exists(s.pipeline.rows, hash)
    ensures SignatureFor(cfg, request, Checked(slot, hash), ds, scheduled).Some?
    ensures Prices(cfg, s.slots, CommitmentFor(request, hash), slot, gasPrice)
  {
    ValidatesExactly(cfg, request, slot, hash);
    SignatureExactly(cfg, request, Checked(slot, hash), ds, scheduled);
  }

  lemma ReturnsWhenGranted(
      cfg: Config, s: State, request: CommitmentRequest, ds: seq<SignedDelegation>, scheduled: Option<PublicKey>,
      gasPrice: Option<u64>, signed: SignedCommitment)
    requires Validate(cfg, request).Some?
    requires var checked := Validate(cfg, request).value;
      && !Exists(s.pipeline.rows, checked.hash) && "0x" <= request.slasher
      && SignatureFor(cfg, request, checked, ds, scheduled) == Some(signed)
      && Prices(cfg, s.slots, CommitmentFor(request, checked.hash), checked.slot, gasPrice)
    ensures exists slot, hash, i :: IsGranted(cfg, s, request, ds, scheduled, gasPrice, slot, hash, i)
    ensures SignedByUs(cfg, signed) && HashesItsRequest(cfg, signed.commitment)
    ensures signed.commitment == Commitment(1, request.payload, signed.commitment.requestHash, request.slasher)
  {
    var checked := Validate(cfg, request).value;
    ValidatesExactly(cfg, request, checked.slot, checked.hash);
    SignatureExactly(cfg, request, checked, ds, scheduled);
    Preimages.RequestHashExactly(cfg.bls.keccak, request, checked.hash);
    var i :| IsFirstFor(ds, i, request.slasher, checked.slot) && IsAuthority(cfg, ds[i], scheduled);
    IsGrantedTo(cfg, s, request, ds, scheduled, gasPrice, checked.slot, checked.hash, i);
  }

  lemma IsGrantedTo(
      cfg: Config, s: State, request: CommitmentRequest, ds: seq<SignedDelegation>, scheduled: Option<PublicKey>,
      gasPrice: Option<u64>, slot: u64, hash: string, i: int)
    requires IsValid(cfg, request, slot, hash) && !Exists(s.pipeline.rows, hash) && "0x" <= request.slasher
    requires IsFirstFor(ds, i, request.slasher, slot) && IsAuthority(cfg, ds[i], scheduled)
    requires Prices(cfg, s.slots, CommitmentFor(request, hash), slot, gasPrice)
    ensures IsGranted(cfg, s, request, ds, scheduled, gasPrice, slot, hash, i)
  {
  }

  /** What a success leaves: one row more, for the request's slot and not processed, and the slot's record,
      its own or one opened at the oracle's price, with the estimated gas added. */
  lemma SuccessLeaves(
      cfg: Config, s: State, h: nat, request: CommitmentRequest, ds: seq<SignedDelegation>,
      scheduled: Option<PublicKey>, now: int, gasPrice: Option<u64>)
    returns (slot: u64, gas: u64)
    requires h !in s.handlers && Answers(cfg, s.pipeline.rows, s.delegations, request, ds)
    requires At(Run(cfg, s, HandlerActions(h, request, ds, scheduled, now, gasPrice)), h).Returned?
    ensures ExtractSlot(cfg.json, 1, request.payload) == Some(slot) && gasPrice.Some?
    ensures EstimateGas(cfg.json, 1, request.payload) == Some(gas)
    ensures var s' := Run(cfg, s, HandlerActions(h, request, ds, scheduled, now, gasPrice));
      && s'.pipeline.rows == s.pipeline.rows + [Row(Entry(h, At(s', h).signed, TryI64(slot), now), false)]
      && C.Get(s'.slots, slot) == Some(AddGas(cfg.power, QuotedFrom(cfg, s.slots, slot, gasPrice.value), gas))
  {
    OutcomeOfRun(cfg, s, h, request, ds, scheduled, now, gasPrice);
    slot, gas := OutcomeLeaves(cfg, h, request, ds, scheduled, now, gasPrice, s.pipeline.rows, s.slots);
  }

  lemma OutcomeLeaves(
      cfg: Config, h: nat, request: CommitmentRequest, ds: seq<SignedDelegation>, scheduled: Option<PublicKey>,
      now: int, gasPrice: Option<u64>, rows: Rows, slots: C.Table)
    returns (slot: u64, gas: u64)
    requires OutcomeOf(cfg, h, request, ds, scheduled, now, gasPrice, rows, slots).answer.Some?
    ensures ExtractSlot(cfg.json, 1, request.payload) == Some(slot) && gasPrice.Some?
    ensures EstimateGas(cfg.json, 1, request.payload) == Some(gas)
    ensures var o := OutcomeOf(cfg, h, request, ds, scheduled, now, gasPrice, rows, slots);
      && o.rows == rows + [Row(Entry(h, o.answer.value, TryI64(slot), now), false)]
      && C.Get(o.slots, slot) == Some(AddGas(cfg.power, QuotedFrom(cfg, slots, slot, gasPrice.value), gas))
  {
    var checked, signed := OutcomeIsSigned(cfg, h, request, ds, scheduled, now, gasPrice, rows, slots);
    slot := checked.slot;
    gas := EstimateGas(cfg.json, 1, request.payload).value;
    SignedFits(cfg, request, checked, ds, scheduled, signed);
    SignedLeaves(cfg, h, signed, slot, now, gasPrice, rows, slots, gas);
  }

  lemma OutcomeIsSigned(
      cfg: Config, h: nat, request: CommitmentRequest, ds: seq<SignedDelegation>, scheduled: Option<PublicKey>,
      now: int, gasPrice: Option<u64>, rows: Rows, slots: C.Table)
    returns (checked: Checked, signed: SignedCommitment)
    requires OutcomeOf(cfg, h, request, ds, scheduled, now, gasPrice, rows, slots).answer.Some?
    ensures Validate(cfg, request) == Some(checked)
    ensures SignatureFor(cfg, request, checked, ds, scheduled) == Some(signed)
    ensures OutcomeOf(cfg, h, request, ds, scheduled, now, gasPrice, rows, slots)
         == SignedOutcome(cfg, h, signed, checked.slot, now, gasPrice, rows, slots)
  {
    checked := Admitted(cfg, rows, request).value;
    signed := SignatureFor(cfg, request, checked, ds, scheduled).value;
  }

  lemma SignedFits(
      cfg: Config, request: CommitmentRequest, checked: Checked, ds: seq<SignedDelegation>,
      scheduled: Option<PublicKey>, signed: SignedCommitment)
    requires Validate(cfg, request) == Some(checked)
    requires SignatureFor(cfg, request, checked, ds, scheduled) == Some(signed)
    ensures ExtractSlot(cfg.json, 1, request.payload) == Some(checked.slot)
    ensures signed.commitment.commitmentType == 1 && signed.commitment.payload == request.payload
  {
    ValidatesExactly(cfg, request, checked.slot, checked.hash);
    SignatureExactly(cfg, request, checked, ds, scheduled);
  }

  lemma SignedLeaves(
      cfg: Config, h: nat, signed: SignedCommitment, slot: u64, now: int, gasPrice: Option<u64>, rows: Rows,
      slots: C.Table, gas: u64)
    requires SignedOutcome(cfg, h, signed, slot, now, gasPrice, rows, slots).answer.Some?
    requires ExtractSlot(cfg.json, signed.commitment.commitmentType, signed.commitment.payload) == Some(slot)
    requires GasOf(cfg, signed.commitment) == Some(gas)
    ensures gasPrice.Some?
    ensures var o := SignedOutcome(cfg, h, signed, slot, now, gasPrice, rows, slots);
      && o.rows == rows + [Row(Entry(h, signed, TryI64(slot), now), false)]
      && C.Get(o.slots, slot) == Some(AddGas(cfg.power, QuotedFrom(cfg, slots, slot, gasPrice.value), gas))
  {
    C.GetAfterCreate(slots, slot, gasPrice.value, cfg.gasLimit, slot);
    C.GetAfterUpdate(C.Create(slots, slot, gasPrice.value, cfg.gasLimit), slot, gas, cfg.power, slot);
  }
}
