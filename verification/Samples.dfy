/** Inputs on which the gateway departs from what its documentation promises, as runs from its initial
    state. The oracle's price, the time of a request and other free choices are parameters. */
module Samples {
  import opened Machine
  import opened Types
  import opened Payload
  import Address
  import Preimages
  import opened Pricing
  import opened Commitments
  import opened Submission
  import C = CongestionTable
  import D = Delegations
  import P = Pipeline
  import Order
  import opened Gateway
  import opened Handlers
  import Progress

  // ---- Addresses ----

  function Fill(count: nat, b: byte): (filled: bytes)
    ensures |filled| == count && forall i :: 0 <= i < count ==> filled[i] == b
  {
    seq(count, i => b)
  }

  function Repeated(count: nat, c: char): (s: string)
    ensures |s| == count && forall i :: 0 <= i < count ==> s[i] == c
  {
    seq(count, i => c)
  }

  const ADDRESS: bytes := Fill(20, 0xAA)

  /** Three spellings of one address. */
  const BARE: string := Repeated(40, 'a')
  const LOWER: string := "0x" + Repeated(40, 'a')
  const UPPER: string := "0x" + Repeated(40, 'A')

  lemma {:induction false} EncodedAs(n: nat)
    ensures Address.EncodeHex(Fill(n, 0xAA)) == Repeated(2 * n, 'a')
  {
    if n > 0 {
      var b := Fill(n, 0xAA);
      EncodedAs(n - 1);
      assert b[1..] == Fill(n - 1, 0xAA);
      assert Address.HexDigit(10) == 'a';
    }
  }

  ghost predicate Spells(slasher: string) {
    && Address.ParseHexBytes(slasher, 20) == Some(ADDRESS)
    && Address.NormalizeAddress(slasher) == BARE
  }

  lemma Spelled(slasher: string, digits: string)
    requires slasher == digits || slasher == "0x" + digits
    requires |digits| == 40 && Address.LowerAll(digits) == BARE
    ensures Spells(slasher)
    ensures slasher != digits ==> "0x" <= slasher && Address.MatchesHexColumn(slasher, 40)
    ensures slasher == digits ==> !("0x" <= slasher)
  {
    EncodedAs(20);
    Address.DigitsParse(digits, ADDRESS);
    Address.ColumnAcceptsPrefixed(slasher);
  }

  lemma LowerRepeated(n: nat, c: char, d: char)
    requires Address.Lower(c) == d
    ensures Address.LowerAll(Repeated(n, c)) == Repeated(n, d)
  {
  }

  lemma SpellingsOfAddress()
    ensures Spells(BARE) && Spells(LOWER) && Spells(UPPER)
    ensures "0x" <= LOWER && "0x" <= UPPER && !("0x" <= BARE) && UPPER != LOWER
    ensures Address.MatchesHexColumn(LOWER, 40) && Address.MatchesHexColumn(UPPER, 40)
  {
    var upper := Repeated(40, 'A');
    LowerRepeated(40, 'a', 'a');
    LowerRepeated(40, 'A', 'a');
    Spelled(BARE, BARE);
    Spelled(LOWER, BARE);
    Spelled(UPPER, upper);
    assert LOWER[2] == 'a' && UPPER[2] == 'A';
  }

  // ---- A gateway with one delegation ----

  const KEY: PublicKey := Fill(48, 0)
  const SIGNATURE: BlsSignature := Fill(96, 0)
  const DELEGATION := SignedDelegation(DelegationMessage(KEY, KEY, LOWER, 7), SIGNATURE)

  /** The delegation verifies and is to our key and address, the address is whitelisted, the slot's record
      can be opened and the fee bounds are outside the curve. Everything else is left open. */
  predicate IsSample(cfg: Config) {
    && D.Verify(cfg.bls, DELEGATION) == D.Valid && cfg.ourKey == KEY
    && HasSigningKey(cfg, LOWER) && Whitelisted(cfg, LOWER)
    && CanOpen(cfg, 7) && cfg.lowFee <= 1.0 && cfg.highFee >= 100.0
  }

  ghost function Sampled(): iset<Config> {
    iset cfg: Config | IsSample(cfg)
  }

  function Poll(): Action {
    Delegating(D.Poll([DELEGATION], (i: nat) => Some(ValidatorInfo(true, false, 0))))
  }

  function Polled(): State {
    State(P.INITIAL, [D.Store(DELEGATION)], map[], map[], {}, [])
  }

  lemma DelegationIsValid(cfg: Config)
    requires cfg in Sampled()
    ensures D.Verify(cfg.bls, DELEGATION) == D.Valid && D.Acceptable(DELEGATION)
  {
    SpellingsOfAddress();
    DelegationIsAcceptable();
  }

  lemma DelegationIsAcceptable()
    requires Address.MatchesHexColumn(LOWER, 40)
    ensures D.Acceptable(DELEGATION)
  {
  }

  lemma PollKeeps(cfg: Config)
    requires cfg in Sampled()
    ensures D.Kept(cfg.bls, cfg.ourKey, [DELEGATION], Poll().d.status) == [DELEGATION]
  {
    DelegationIsValid(cfg);
    D.FilterAppend(D.IsOurs(cfg.ourKey), [], DELEGATION);
    D.FilterAppend(D.IsValid(cfg.bls), [], DELEGATION);
    D.EligibleAppend([], DELEGATION, Poll().d.status);
    assert [] + [DELEGATION] == [DELEGATION];
  }

  lemma InsertsFirst(d: SignedDelegation)
    ensures D.InsertAll([], [d]) == [D.Store(d)]
  {
    assert [d][..0] == [];
    assert [] + [D.Store(d)] == [D.Store(d)];
  }

  lemma PollStores(cfg: Config)
    requires cfg in Sampled()
    ensures Step(cfg, INITIAL, Poll()) == Polled()
  {
    PollKeeps(cfg);
    DelegationIsValid(cfg);
    StorableOne(cfg.bls, DELEGATION);
    InsertsFirst(DELEGATION);
    PollStep(cfg, INITIAL, Poll().d);
  }

  lemma PollStep(cfg: Config, s: State, d: D.Action)
    ensures Step(cfg, s, Delegating(d)) == s.(delegations := D.Step(cfg.bls, cfg.ourKey, s.delegations, d))
  {
  }

  lemma StorableOne(bls: D.Bls, d: SignedDelegation)
    requires D.Verify(bls, d) == D.Valid && D.Acceptable(d)
    ensures D.Storable(bls, [d])
  {
  }

  lemma AnswerIsDelegation(slot: u64)
    requires slot == 7
    ensures D.IsAnswer(Polled().delegations, slot, [DELEGATION])
  {
    assert Polled().delegations[..0] == [];
    assert D.ActiveFor(Polled().delegations, 7) == [] + [D.Load(D.Store(DELEGATION))];
  }

  // ---- Requests for the slot ----

  /** The RLP form of a payload for slot 7 whose transaction is empty or one zero byte. */
  function SamplePayload(second: bool): Buffer {
    if second then [0xC2, 7, 0] else [0xC2, 7, 0x80]
  }

  function SampleTransaction(second: bool): Buffer {
    if second then [0] else []
  }

  lemma SamplePayloadIsRlp(second: bool)
    ensures SamplePayload(second) == EncodeRlp(InclusionPayload(7, SampleTransaction(second)))
  {
    assert BigEndian.Shortest(7) == [] + [7] by {
      assert BigEndian.Shortest(0) == [];
    }
    assert RlpFields(InclusionPayload(7, SampleTransaction(second))) == [7] + (if second then [0] else [0x80] + []);
  }

  function SampleRequest(slasher: string, second: bool): CommitmentRequest {
    CommitmentRequest(1, SamplePayload(second), slasher)
  }

  lemma SampleParses(cfg: Config, second: bool)
    requires cfg in Sampled()
    ensures ParseInclusion(cfg.json, SamplePayload(second)) == Some(InclusionPayload(7, SampleTransaction(second)))
    ensures ExtractSlot(cfg.json, 1, SamplePayload(second)) == Some(7)
  {
    SamplePayloadIsRlp(second);
    RlpReadsBack(cfg.json, InclusionPayload(7, SampleTransaction(second)));
  }

  lemma SampleWhitelisted(cfg: Config, slasher: string)
    requires cfg in Sampled() && Spells(slasher)
    ensures Whitelisted(cfg, slasher) && HasSigningKey(cfg, LOWER) && Matches(DELEGATION, slasher, 7)
  {
    SpellingsOfAddress();
    var i :|
      0 <= i < |cfg.whitelist| && Address.NormalizeAddress(cfg.whitelist[i]) == Address.NormalizeAddress(LOWER);
    assert Address.NormalizeAddress(cfg.whitelist[i]) == Address.NormalizeAddress(slasher);
  }

  lemma SampleChecked(cfg: Config, slasher: string, second: bool) returns (checked: Checked)
    requires cfg in Sampled() && Spells(slasher)
    ensures Preimages.RequestHash(cfg.bls.keccak, SampleRequest(slasher, second)) == Some(checked.hash)
    ensures checked.slot == 7 && Validate(cfg, SampleRequest(slasher, second)) == Some(checked)
  {
    SampleWhitelisted(cfg, slasher);
    SampleParses(cfg, second);
    checked := Checked(7, Preimages.RequestHash(cfg.bls.keccak, SampleRequest(slasher, second)).value);
  }

  /** The gateway signs every commitment whose parts parse. */
  lemma CanSign(cfg: Config, c: Commitment, request: CommitmentRequest)
    requires Spells(c.slasher) && Preimages.RequestHash(cfg.bls.keccak, request) == Some(c.requestHash)
    ensures Sign(cfg, c).Some? && Sign(cfg, c).value.commitment == c
  {
    Address.EncodedColumn(cfg.bls.keccak(Preimages.EncodeRequest(request).value));
  }

  lemma SampleSigned(cfg: Config, slasher: string, second: bool, checked: Checked)
    returns (signed: SignedCommitment)
    requires cfg in Sampled() && Spells(slasher) && checked.slot == 7
    requires Preimages.RequestHash(cfg.bls.keccak, SampleRequest(slasher, second)) == Some(checked.hash)
    ensures SignatureFor(cfg, SampleRequest(slasher, second), checked, [DELEGATION], Some(KEY)) == Some(signed)
    ensures Sign(cfg, CommitmentFor(SampleRequest(slasher, second), checked.hash)) == Some(signed)
    ensures signed.commitment == CommitmentFor(SampleRequest(slasher, second), checked.hash)
  {
    var request := SampleRequest(slasher, second);
    SampleWhitelisted(cfg, slasher);
    DelegationIsValid(cfg);
    CanSign(cfg, CommitmentFor(request, checked.hash), request);
    signed := Sign(cfg, CommitmentFor(request, checked.hash)).value;
    assert FirstMatch([DELEGATION], slasher, 7) == Some(DELEGATION);
    SignsUnder(cfg, request, checked, DELEGATION, KEY);
  }

  lemma SignsUnder(
      cfg: Config, request: CommitmentRequest, checked: Checked, d: SignedDelegation, proposer: PublicKey)
    requires D.Verify(cfg.bls, d) == D.Valid
    requires proposer == d.message.proposer && HasSigningKey(cfg, d.message.committer)
    ensures SignatureUnder(cfg, request, checked, d, proposer) == Sign(cfg, CommitmentFor(request, checked.hash))
  {
  }

  // ---- One request ----

  ghost function HandlerActionsFor(h: nat, request: CommitmentRequest, now: int, gasPrice: Option<u64>): seq<Action> {
    HandlerActions(h, request, [DELEGATION], Some(KEY), now, gasPrice)
  }

  /** What becomes of a sample request: it is signed, saved unless the prefix is missing, and then priced. */
  ghost predicate Became(
      cfg: Config, s: State, s': State, h: nat, request: CommitmentRequest, now: int, gasPrice: Option<u64>,
      signed: SignedCommitment)
  {
    var saved := "0x" <= request.slasher;
    && signed.commitment == Commitment(1, request.payload, signed.commitment.requestHash, request.slasher)
    && s'.pipeline == s.pipeline.(rows :=
         s.pipeline.rows + (if saved then [Row(Entry(h, signed, Some(7), now), false)] else []))
    && s'.delegations == s.delegations
    && (forall g :: g != h ==> At(s', g) == At(s, g) && (g in s'.handlers <==> g in s.handlers))
    && At(s', h) == if saved && Prices(cfg, s.slots, signed.commitment, 7, gasPrice) then Returned(signed) else Failed
  }

  lemma SampleOutcome(
      cfg: Config, slasher: string, second: bool, checked: Checked, h: nat, now: int, gasPrice: Option<u64>,
      rows: Rows, slots: C.Table)
    returns (signed: SignedCommitment)
    requires cfg in Sampled() && Spells(slasher)
    requires Validate(cfg, SampleRequest(slasher, second)) == Some(checked) && !Exists(rows, checked.hash)
    requires Preimages.RequestHash(cfg.bls.keccak, SampleRequest(slasher, second)) == Some(checked.hash)
    requires checked.slot == 7
    ensures signed.commitment == CommitmentFor(SampleRequest(slasher, second), checked.hash)
    ensures OutcomeOf(cfg, h, SampleRequest(slasher, second), [DELEGATION], Some(KEY), now, gasPrice, rows, slots)
         == SampleEnd(cfg, h, slasher, now, gasPrice, signed, rows, slots)
  {
    var request := SampleRequest(slasher, second);
    signed := SampleSigned(cfg, slasher, second, checked);
    SampleAdmitted(cfg, h, request, now, gasPrice, rows, slots, checked, signed);
    SignedIsInserted(cfg, rows, request, checked, signed);
    SampleColumn(cfg, second, signed.commitment);
    SignedEnd(cfg, h, slasher, now, gasPrice, signed, rows, slots);
  }

  lemma SampleAdmitted(
      cfg: Config, h: nat, request: CommitmentRequest, now: int, gasPrice: Option<u64>, rows: Rows, slots: C.Table,
      checked: Checked, signed: SignedCommitment)
    requires Validate(cfg, request) == Some(checked) && checked.slot == 7 && !Exists(rows, checked.hash)
    requires SignatureFor(cfg, request, checked, [DELEGATION], Some(KEY)) == Some(signed)
    ensures OutcomeOf(cfg, h, request, [DELEGATION], Some(KEY), now, gasPrice, rows, slots)
         == SignedOutcome(cfg, h, signed, 7, now, gasPrice, rows, slots)
  {
    OutcomeAdmitted(cfg, h, request, [DELEGATION], Some(KEY), now, gasPrice, rows, slots, Some(checked));
  }

  lemma SignedEnd(
      cfg: Config, h: nat, slasher: string, now: int, gasPrice: Option<u64>, signed: SignedCommitment, rows: Rows,
      slots: C.Table)
    requires SaveOutcome(rows, signed) == Inserted <==> "0x" <= slasher
    requires SlotColumn(cfg.json, signed.commitment) == Some(7)
    ensures SignedOutcome(cfg, h, signed, 7, now, gasPrice, rows, slots)
         == SampleEnd(cfg, h, slasher, now, gasPrice, signed, rows, slots)
  {
  }

  lemma SampleColumn(cfg: Config, second: bool, c: Commitment)
    requires cfg in Sampled() && c.commitmentType == 1 && c.payload == SamplePayload(second)
    ensures SlotColumn(cfg.json, c) == Some(7)
  {
    SampleParses(cfg, second);
  }

  /** No row has the request's hash. */
  ghost predicate IsNew(cfg: Config, rows: Rows, request: CommitmentRequest) {
    forall i :: 0 <= i < |rows| ==> Preimages.RequestHash(cfg.bls.keccak, request) != Some(HashOf(rows[i].entry))
  }

  lemma SampleRun(
      cfg: Config, s: State, h: nat, slasher: string, second: bool, now: int, gasPrice: Option<u64>)
    returns (signed: SignedCommitment)
    requires cfg in Sampled() && Spells(slasher)
    requires h !in s.handlers && s.delegations == Polled().delegations
    requires IsNew(cfg, s.pipeline.rows, SampleRequest(slasher, second))
    ensures Preimages.RequestHash(cfg.bls.keccak, SampleRequest(slasher, second))
         == Some(signed.commitment.requestHash)
    ensures var s' := Run(cfg, s, HandlerActionsFor(h, SampleRequest(slasher, second), now, gasPrice));
      Became(cfg, s, s', h, SampleRequest(slasher, second), now, gasPrice, signed)
  {
    var request := SampleRequest(slasher, second);
    var checked := SampleChecked(cfg, slasher, second);
    signed := SampleOutcome(cfg, slasher, second, checked, h, now, gasPrice, s.pipeline.rows, s.slots);
    SampleEnds(cfg, s, h, request, checked, now, gasPrice, signed);
  }

  lemma SampleEnds(
      cfg: Config, s: State, h: nat, request: CommitmentRequest, checked: Checked, now: int, gasPrice: Option<u64>,
      signed: SignedCommitment)
    requires h !in s.handlers && s.delegations == Polled().delegations
    requires Validate(cfg, request) == Some(checked) && checked.slot == 7 && request.commitmentType == 1
    requires signed.commitment == CommitmentFor(request, checked.hash)
    requires OutcomeOf(cfg, h, request, [DELEGATION], Some(KEY), now, gasPrice, s.pipeline.rows, s.slots)
          == SampleEnd(cfg, h, request.slasher, now, gasPrice, signed, s.pipeline.rows, s.slots)
    ensures var s' := Run(cfg, s, HandlerActionsFor(h, request, now, gasPrice));
      Became(cfg, s, s', h, request, now, gasPrice, signed)
  {
    SampleAnswers(cfg, s.pipeline.rows, request, checked);
    OutcomeOfRun(cfg, s, h, request, [DELEGATION], Some(KEY), now, gasPrice);
    HandlerActionsOnly(h, request, [DELEGATION], Some(KEY), now, gasPrice);
    RunElsewhere(cfg, s, h, HandlerActions(h, request, [DELEGATION], Some(KEY), now, gasPrice));
    BecameFrom(cfg, s, Run(cfg, s, HandlerActionsFor(h, request, now, gasPrice)), h, request, now, gasPrice, signed);
  }

  /** The outcome of a sample request that has been signed. */
  function SampleEnd(
      cfg: Config, h: nat, slasher: string, now: int, gasPrice: Option<u64>, signed: SignedCommitment, rows: Rows,
      slots: C.Table)
    : Outcome
  {
    if "0x" <= slasher then
      Outcome(if Prices(cfg, slots, signed.commitment, 7, gasPrice) then Some(signed) else None,
              rows + [Row(Entry(h, signed, Some(7), now), false)],
              SlotsAfter(cfg, slots, signed.commitment, 7, gasPrice))
    else Outcome(None, rows, slots)
  }

  lemma SampleAnswers(cfg: Config, rows: Rows, request: CommitmentRequest, checked: Checked)
    requires Validate(cfg, request) == Some(checked) && checked.slot == 7
    ensures Answers(cfg, rows, Polled().delegations, request, [DELEGATION])
  {
    AnswerIsDelegation(7);
  }

  lemma BecameFrom(
      cfg: Config, s: State, s': State, h: nat, request: CommitmentRequest, now: int, gasPrice: Option<u64>,
      signed: SignedCommitment)
    requires Elsewhere(s, s', h)
    requires EndsIn(s', h, SampleEnd(cfg, h, request.slasher, now, gasPrice, signed, s.pipeline.rows, s.slots))
    requires signed.commitment == CommitmentFor(request, signed.commitment.requestHash) && request.commitmentType == 1
    ensures Became(cfg, s, s', h, request, now, gasPrice, signed)
  {
    assert s.pipeline.rows + [] == s.pipeline.rows;
  }

  lemma SampleGas(cfg: Config, second: bool, c: Commitment)
    requires cfg in Sampled() && c.commitmentType == 1 && c.payload == SamplePayload(second)
    ensures GasOf(cfg, c) == Some(SampleEstimate(second))
  {
    SampleParses(cfg, second);
    EstimateOf(cfg.json, c.payload, second);
  }

  function SampleEstimate(second: bool): u64 {
    if second then 31_016 else 31_000
  }

  lemma EstimateOf(json: Json, d: Buffer, second: bool)
    requires ParseInclusion(json, d) == Some(InclusionPayload(7, SampleTransaction(second)))
    ensures EstimateGas(json, 1, d) == Some(SampleEstimate(second))
  {
    GasIsExact(if second then 1 else 0);
  }

  lemma SampleBounds(cfg: Config)
    requires cfg in Sampled()
    ensures CanOpen(cfg, 7) && cfg.lowFee <= 1.0 && cfg.highFee >= 100.0
  {
  }

  /** The fee of a sample fits at an oracle price of 1 and overflows at the largest one. */
  lemma SamplePrices(cfg: Config, second: bool, c: Commitment, gasPrice: u64)
    requires cfg in Sampled() && c.commitmentType == 1 && c.payload == SamplePayload(second)
    ensures gasPrice == 1 ==> Prices(cfg, map[], c, 7, Some(gasPrice))
    ensures gasPrice == U64_MAX ==> !Prices(cfg, map[], c, 7, Some(gasPrice))
  {
    SampleGas(cfg, second, c);
    SampleBounds(cfg);
    SampleFee(cfg, gasPrice, SampleEstimate(second));
  }

  lemma SampleFee(cfg: Config, gasPrice: u64, gas: u64)
    requires cfg.lowFee <= 1.0 && cfg.highFee >= 100.0 && 31_000 <= gas <= 31_016
    ensures var fee := FeeFor(cfg, NewCongestion(7, gasPrice, cfg.gasLimit), 7, gasPrice, gas);
      (gasPrice == 1 ==> fee.Some?) && (gasPrice == U64_MAX ==> fee.None?)
  {
    var c := NewCongestion(7, gasPrice, cfg.gasLimit);
    SampleQuote(cfg.power, c, gas, cfg.lowFee, cfg.highFee);
    CostOf(Project(cfg.power, c, gas, cfg.lowFee, cfg.highFee).currentTxPrice, gas);
  }

  lemma CostOf(price: u64, gas: u64)
    requires 31_000 <= gas <= 31_016
    ensures price <= 100 ==> CheckedMul(price, gas).Some?
    ensures price == U64_MAX ==> CheckedMul(price, gas).None?
  {
    if price <= 100 {
      assert price * gas <= 100 * 31_016;
    }
  }

  lemma SampleQuote(power: Exponent, c: Congestion, gas: u64, low: real, high: real)
    requires Priced(power, c) && low <= 1.0 && high >= 100.0
    ensures var p := Project(power, c, gas, low, high).currentTxPrice;
      c.baseGasPrice <= p <= SaturatingMul(c.baseGasPrice, 100)
  {
    QuoteIsApplied(power, c, gas, low, high);
    AddGasGrows(power, c, gas);
    PricedBounds(power, AddGas(power, c, gas));
  }

  lemma AfterPoll(cfg: Config, actions: seq<Action>)
    requires cfg in Sampled()
    ensures Run(cfg, INITIAL, [Poll()] + actions) == Run(cfg, Polled(), actions)
  {
    PollStores(cfg);
    RunOne(cfg, INITIAL, Poll());
    RunAppend(cfg, INITIAL, [Poll()], actions);
  }

  // ---- The spelling gap ----

  /** A request whose slasher is the delegation's committer in capitals succeeds, yet no tick can
      deliver its commitment by steps of its own, whatever slots it attempts. */
  lemma RespelledIsReturnedAndStuck(cfg: Config, now: int)
    requires cfg in Sampled()
    ensures var s := Run(cfg, INITIAL, [Poll()] + HandlerActionsFor(0, SampleRequest(UPPER, false), now, Some(1)));
      && At(s, 0).Returned? && At(s, 0).signed.commitment.slasher == UPPER
      && |s.pipeline.rows| == 1 && s.pipeline.rows[0].entry.signed == At(s, 0).signed
      && !s.pipeline.rows[0].processed
      && forall t: nat, slots: seq<u64> :: !Progress.CanDeliver(cfg, s, t, 0, slots)
  {
    var actions := HandlerActionsFor(0, SampleRequest(UPPER, false), now, Some(1));
    AfterPoll(cfg, actions);
    var signed := RespelledReturns(cfg, Run(cfg, Polled(), actions), now);
    Stuck(cfg, [Poll()] + actions, Entry(0, signed, Some(7), now));
  }

  lemma RespelledReturns(cfg: Config, s: State, now: int) returns (signed: SignedCommitment)
    requires cfg in Sampled()
    requires s == Run(cfg, Polled(), HandlerActionsFor(0, SampleRequest(UPPER, false), now, Some(1)))
    ensures At(s, 0) == Returned(signed) && signed.commitment.slasher == UPPER
    ensures s.pipeline.ticks == map[] && s.delegations == Polled().delegations
    ensures s.pipeline.rows == [Row(Entry(0, signed, Some(7), now), false)]
  {
    SpellingsOfAddress();
    signed := SampleRun(cfg, Polled(), 0, UPPER, false, now, Some(1));
    BecameRow(cfg, s, SampleRequest(UPPER, false), now, Some(1), signed);
    SamplePrices(cfg, false, signed.commitment, 1);
  }

  lemma BecameRow(
      cfg: Config, s: State, request: CommitmentRequest, now: int, gasPrice: Option<u64>, signed: SignedCommitment)
    requires Became(cfg, Polled(), s, 0, request, now, gasPrice, signed)
    ensures s.pipeline.ticks == map[] && s.pipeline.relay == [] && s.delegations == Polled().delegations
    ensures s.pipeline.rows == if "0x" <= request.slasher then [Row(Entry(0, signed, Some(7), now), false)] else []
    ensures signed.commitment.slasher == request.slasher && signed.commitment.payload == request.payload
    ensures At(s, 0) == if "0x" <= request.slasher && Prices(cfg, map[], signed.commitment, 7, gasPrice)
                        then Returned(signed) else Failed
  {
  }

  lemma Stuck(cfg: Config, actions: seq<Action>, e: Entry)
    requires var s := Run(cfg, INITIAL, actions);
      && s.pipeline.ticks == map[] && s.pipeline.rows == [Row(e, false)] && s.delegations == Polled().delegations
    requires e.signed.commitment.slasher == UPPER
    ensures forall t: nat, slots: seq<u64> :: !Progress.CanDeliver(cfg, Run(cfg, INITIAL, actions), t, 0, slots)
  {
    NoneSpelledAlike(e);
    forall t: nat, slots: seq<u64>
      ensures !Progress.CanDeliver(cfg, Run(cfg, INITIAL, actions), t, 0, slots)
    {
      Progress.DeliverableIn(cfg, actions, t, 0, slots);
    }
  }

  lemma NoneSpelledAlike(e: Entry)
    requires e.signed.commitment.slasher == UPPER
    ensures forall s: State :: s.delegations == Polled().delegations ==> !Progress.HasAlike(s, e)
  {
    assert UPPER[2] != LOWER[2];
  }

  // ---- The missing prefix ----

  /** A request whose slasher has no prefix is signed... */
  lemma UnprefixedIsSigned(cfg: Config)
    requires cfg in Sampled()
    ensures var s := Run(cfg, INITIAL, [Poll()] + SignSteps(0, SampleRequest(BARE, false)));
      At(s, 0).Saving? && At(s, 0).signed.commitment.slasher == BARE
  {
    var request := SampleRequest(BARE, false);
    SpellingsOfAddress();
    AfterPoll(cfg, SignSteps(0, request));
    var checked := SampleChecked(cfg, BARE, false);
    var signed := SampleSigned(cfg, BARE, false, checked);
    SignsAfterPoll(cfg, 0, request, checked, signed);
  }

  /** The steps of a handler up to its signature, and the others. */
  ghost function SignSteps(h: nat, request: CommitmentRequest): seq<Action> {
    AdmitActions(h, request) + AuthorityActions(h, [DELEGATION], Some(KEY))
  }

  ghost function SaveSteps(h: nat, now: int, gasPrice: Option<u64>): seq<Action> {
    [Save(h, now)] + PriceActions(h, gasPrice)
  }

  lemma SignsAfterPoll(cfg: Config, h: nat, request: CommitmentRequest, checked: Checked, signed: SignedCommitment)
    requires Validate(cfg, request) == Some(checked) && checked.slot == 7
    requires SignatureFor(cfg, request, checked, [DELEGATION], Some(KEY)) == Some(signed)
    ensures var s := Run(cfg, Polled(), SignSteps(h, request));
      h in s.handlers && s.handlers[h] == Saving(signed, 7) && s.pipeline == P.INITIAL
  {
    RunAppend(cfg, Polled(), AdmitActions(h, request), AuthorityActions(h, [DELEGATION], Some(KEY)));
    AdmitRun(cfg, Polled(), h, request);
    AnswerIsDelegation(7);
    AdmittedAfterPoll(cfg, request, checked);
    var s1 := Put(Polled(), h, Authorizing(request, 7, checked.hash));
    AuthorityRun(cfg, s1, h, request, checked, [DELEGATION], Some(KEY));
  }

  lemma AdmittedAfterPoll(cfg: Config, request: CommitmentRequest, checked: Checked)
    requires Validate(cfg, request) == Some(checked)
    ensures AdmittedHandler(cfg, [], request) == Authorizing(request, checked.slot, checked.hash)
  {
  }

  /** ... and then fails without a row. */
  lemma UnprefixedIsRefused(cfg: Config, now: int, gasPrice: Option<u64>)
    requires cfg in Sampled()
    ensures var s := Run(cfg, INITIAL, [Poll()] + HandlerActionsFor(0, SampleRequest(BARE, false), now, gasPrice));
      At(s, 0) == Failed && s.pipeline.rows == []
  {
    SpellingsOfAddress();
    var actions := HandlerActionsFor(0, SampleRequest(BARE, false), now, gasPrice);
    AfterPoll(cfg, actions);
    var signed := SampleRun(cfg, Polled(), 0, BARE, false, now, gasPrice);
    BecameRow(cfg, Run(cfg, Polled(), actions), SampleRequest(BARE, false), now, gasPrice, signed);
  }

  // ---- An error after the insert ----

  /** At the largest oracle price the total cost overflows: the request fails and its row stays. */
  lemma OverflowFailsAfterSave(cfg: Config, now: int)
    requires cfg in Sampled()
    ensures var request := SampleRequest(LOWER, false);
      var s := Run(cfg, INITIAL, [Poll()] + HandlerActionsFor(0, request, now, Some(U64_MAX)));
      && At(s, 0) == Failed
      && |s.pipeline.rows| == 1 && s.pipeline.rows[0].entry.signed.commitment.payload == SamplePayload(false)
  {
    SpellingsOfAddress();
    var actions := HandlerActionsFor(0, SampleRequest(LOWER, false), now, Some(U64_MAX));
    AfterPoll(cfg, actions);
    var signed := SampleRun(cfg, Polled(), 0, LOWER, false, now, Some(U64_MAX));
    SamplePrices(cfg, false, signed.commitment, U64_MAX);
    BecameRow(cfg, Run(cfg, Polled(), actions), SampleRequest(LOWER, false), now, Some(U64_MAX), signed);
  }

  // ---- After the window ----

  /** A request that comes after the eighth second of its slot succeeds although its slasher is spelled
      like an active delegation; whatever follows, its commitment is never submitted nor marked. */
  lemma LateRequestIsReturnedAndStuck(cfg: Config, now: u64)
    requires cfg in Sampled() && now > cfg.genesisTime + 12 * 7 + 8
    ensures var s := Run(cfg, INITIAL, [Poll()] + HandlerActionsFor(0, SampleRequest(LOWER, false), now, Some(1)));
      && At(s, 0).Returned? && |s.pipeline.rows| == 1 && s.pipeline.rows[0].entry.signed == At(s, 0).signed
      && s.pipeline.rows[0].entry.createdAt == now && Progress.HasAlike(s, s.pipeline.rows[0].entry)
      && forall later :: Progress.StartsFrom(cfg, later, now) ==> NeverServed(Run(cfg, s, later))
  {
    SpellingsOfAddress();
    var actions := HandlerActionsFor(0, SampleRequest(LOWER, false), now, Some(1));
    var s := Run(cfg, Polled(), actions);
    AfterPoll(cfg, actions);
    var signed := SampleRun(cfg, Polled(), 0, LOWER, false, now, Some(1));
    BecameRow(cfg, s, SampleRequest(LOWER, false), now, Some(1), signed);
    SamplePrices(cfg, false, signed.commitment, 1);
    AlikeAfterPoll(s, Entry(0, signed, Some(7), now));
    LateIsStuck(cfg, [Poll()] + actions, now, Entry(0, signed, Some(7), now));
  }

  ghost predicate NeverServed(s: State) {
    && |s.pipeline.rows| > 0 && !s.pipeline.rows[0].processed
    && !P.Accepted(s.pipeline.relay, s.pipeline.rows[0].entry)
  }

  lemma AlikeAfterPoll(s: State, e: Entry)
    requires s.delegations == Polled().delegations
    requires e.slotNumber == Some(7) && e.signed.commitment.slasher == LOWER
    ensures Progress.HasAlike(s, e)
  {
    assert Progress.SpelledAlike(s.delegations[0], e);
  }

  lemma LateIsStuck(cfg: Config, actions: seq<Action>, now: u64, e: Entry)
    requires now > cfg.genesisTime + 12 * 7 + 8 && e.slotNumber == Some(7)
    requires var s := Run(cfg, INITIAL, actions);
      s.pipeline.ticks == map[] && s.pipeline.rows == [Row(e, false)] && s.pipeline.relay == []
    ensures forall later :: Progress.StartsFrom(cfg, later, now) ==>
      NeverServed(Run(cfg, Run(cfg, INITIAL, actions), later))
  {
    forall later | Progress.StartsFrom(cfg, later, now)
      ensures NeverServed(Run(cfg, Run(cfg, INITIAL, actions), later))
    {
      Progress.LateIsNeverSubmitted(cfg, actions, later, now, 0, 7);
    }
  }

  // ---- The late row ----

  /** No tick is at work. */
  ghost predicate Resting(ps: P.State) {
    forall t :: t in ps.ticks ==> ps.ticks[t].phase.Picking? && ps.ticks[t].queue == []
  }

  /** The steps are serial ones for the pipeline. */
  ghost predicate Serially(cfg: Config, s: State, actions: seq<Action>) {
    Order.SerialRun(s.pipeline, cfg.builders, PipelineRun(cfg, s, actions))
  }

  lemma SeriallyAppend(cfg: Config, s: State, a: seq<Action>, b: seq<Action>)
    ensures Run(cfg, s, a + b) == Run(cfg, Run(cfg, s, a), b)
    ensures Serially(cfg, s, a) && Serially(cfg, Run(cfg, s, a), b) ==> Serially(cfg, s, a + b)
  {
    RunAppend(cfg, s, a, b);
    PipelineRunAppend(cfg, s, a, b);
    RunsPipeline(cfg, s, a);
    Order.SerialRunAppend(s.pipeline, cfg.builders, PipelineRun(cfg, s, a), PipelineRun(cfg, Run(cfg, s, a), b));
  }

  /** Steps of a handler are always serial: it only inserts. */
  lemma {:induction false} HandlerIsSerial(cfg: Config, s: State, h: nat, actions: seq<Action>)
    requires OnlyOf(h, actions)
    ensures Serially(cfg, s, actions)
    decreases |actions|
  {
    if actions != [] {
      StepPipeline(cfg, s, actions[0]);
      HandlerIsSerial(cfg, Step(cfg, s, actions[0]), h, actions[1..]);
      if p :| PipelineAction(cfg, s, actions[0]) == Some(p) {
        var rest := PipelineRun(cfg, Step(cfg, s, actions[0]), actions[1..]);
        assert ([p] + rest)[1..] == rest;
      }
    }
  }

  lemma {:induction false} LiftProjects(cfg: Config, s: State, ps: seq<P.Action>)
    requires forall i :: 0 <= i < |ps| ==> !ps[i].Inserting? && !ps[i].Begin?
    ensures PipelineRun(cfg, s, Progress.Lift(ps)) == ps
    decreases |ps|
  {
    if ps != [] {
      assert Progress.Lift(ps)[1..] == Progress.Lift(ps[1..]);
      LiftProjects(cfg, PipelineStep(cfg, s, ps[0]), ps[1..]);
    }
  }

  ghost function TickSteps(e: Entry): seq<P.Action> {
    [P.Select(0, [e])] + ([P.Acknowledge(0)] + [P.MarkDone(0)])
  }

  /** Tick 0 serves the slot when this is the only pending commitment. */
  ghost function TickActions(e: Entry): seq<Action> {
    [Starting(0, 7, [DELEGATION])] + Progress.Lift(TickSteps(e))
  }

  function Started(s: State): State {
    s.(pipeline := s.pipeline.(ticks := s.pipeline.ticks[0 := P.Tick(7, [DELEGATION.message], P.Picking)]))
  }

  lemma QueueIsOne(cfg: Config, d: SignedDelegation)
    requires d.message.delegate == cfg.ourKey
    ensures Queue(cfg, [d]) == [d.message]
  {
    D.FilterAppend(D.IsOurs(cfg.ourKey), [], d);
    assert [] + [d] == [d];
  }

  lemma TickStarts(cfg: Config, s: State)
    requires Queue(cfg, [DELEGATION]) == [DELEGATION.message]
    requires s.delegations == Polled().delegations && Resting(s.pipeline)
    ensures Run(cfg, s, [Starting(0, 7, [DELEGATION])]) == Started(s)
  {
    AnswerIsDelegation(7);
    RunOne(cfg, s, Starting(0, 7, [DELEGATION]));
  }

  lemma StartIsSerial(cfg: Config, s: State)
    ensures Serially(cfg, s, [Starting(0, 7, [DELEGATION])])
  {
    var a := Starting(0, 7, [DELEGATION]);
    assert PipelineRun(cfg, Step(cfg, s, a), [a][1..]) == [];
    if p :| PipelineAction(cfg, s, a) == Some(p) {
      assert ([p] + [])[1..] == [];
    }
  }

  lemma StepsAreSerial(ps: P.State, builders: KeyList, e: Entry)
    requires forall t :: t in ps.ticks ==> ps.ticks[t].phase.Picking?
    ensures Order.SerialRun(ps, builders, TickSteps(e))
  {
    var rest := [P.Acknowledge(0)] + [P.MarkDone(0)];
    Order.SerialRunAppend(P.Step(ps, builders, P.Select(0, [e])), builders, [P.Acknowledge(0)], [P.MarkDone(0)]);
    P.RunOne(ps, builders, P.Select(0, [e]));
    Order.SerialRunAppend(ps, builders, [P.Select(0, [e])], rest);
  }

  /** What the tick leaves: the row is marked and the relay has a message with it. */
  ghost predicate Ticked(s: State, s': State, e: Entry) {
    && s' == s.(pipeline := s'.pipeline) && Resting(s'.pipeline)
    && s'.pipeline.rows == Mark(s.pipeline.rows, [HashOf(e)])
    && |s'.pipeline.relay| == |s.pipeline.relay| + 1
    && s'.pipeline.relay[..|s.pipeline.relay|] == s.pipeline.relay
    && var b := s'.pipeline.relay[|s.pipeline.relay|];
      Order.IsFor(b, 7, LOWER) && b.entries == [e]
  }

  lemma TickServes(cfg: Config, s: State, e: Entry)
    requires cfg in Sampled() && s.delegations == Polled().delegations && Resting(s.pipeline)
    requires PendingEntries(s.pipeline.rows, 7) == [e] && IsConvertible(e, LOWER)
    ensures Ticked(s, Run(cfg, s, TickActions(e)), e) && Serially(cfg, s, TickActions(e))
  {
    QueueIsOne(cfg, DELEGATION);
    TickStarts(cfg, s);
    StartIsSerial(cfg, s);
    TickEnds(cfg, s, e);
    SeriallyAppend(cfg, s, [Starting(0, 7, [DELEGATION])], Progress.Lift(TickSteps(e)));
  }

  lemma TickEnds(cfg: Config, s: State, e: Entry)
    requires Resting(s.pipeline) && PendingEntries(s.pipeline.rows, 7) == [e] && IsConvertible(e, LOWER)
    ensures Ticked(s, Run(cfg, Started(s), Progress.Lift(TickSteps(e))), e)
    ensures Serially(cfg, Started(s), Progress.Lift(TickSteps(e)))
  {
    StepsAreSerial(Started(s).pipeline, cfg.builders, e);
    LiftProjects(cfg, Started(s), TickSteps(e));
    Progress.LiftRun(cfg, Started(s), TickSteps(e));
    StepsTick(cfg, s, e);
  }

  lemma StepsTick(cfg: Config, s: State, e: Entry)
    requires Resting(s.pipeline) && PendingEntries(s.pipeline.rows, 7) == [e] && IsConvertible(e, LOWER)
    ensures Ticked(s, s.(pipeline := P.Run(Started(s).pipeline, cfg.builders, TickSteps(e))), e)
  {
    var ps := Started(s).pipeline;
    OneConverted(e);
    assert ps.ticks[0] == P.Tick(7, [DELEGATION.message], P.Picking);
    assert P.CanSelect(ps, 0, [e]);
    P.DeliverRun(ps, cfg.builders, 0, [e]);
    assert P.Advance(ps.ticks[0]) == P.Tick(7, [], P.Picking);
  }

  lemma OneConverted(e: Entry)
    requires IsConvertible(e, LOWER)
    ensures Convertible([e], LOWER) == [e] && HashesOf([e]) == [HashOf(e)]
  {
    ConvertibleAppend([], e, LOWER);
    assert [] + [e] == [e];
  }

  lemma OnlyPending(rows: Rows, e: Entry)
    requires PendingEntries(rows, 7) == [] && e.slotNumber == Some(7)
    ensures PendingEntries(rows + [Row(e, false)], 7) == [e]
  {
    PendingAppend(rows, Row(e, false), 7);
  }

  /** The handler's row has been inserted, delivered and marked. */
  ghost predicate Served(s: State, s': State, h: nat, e: Entry) {
    && s'.delegations == s.delegations
    && (forall g :: g != h ==> At(s', g) == At(s, g) && (g in s'.handlers <==> g in s.handlers))
    && Ticked(s.(pipeline := s.pipeline.(rows := s.pipeline.rows + [Row(e, false)])),
              s.(pipeline := s'.pipeline), e)
  }

  /** The handler's steps have inserted the row. */
  ghost predicate HasInserted(s: State, s': State, h: nat, e: Entry) {
    && s'.delegations == s.delegations
    && (forall g :: g != h ==> At(s', g) == At(s, g) && (g in s'.handlers <==> g in s.handlers))
    && s'.pipeline == s.pipeline.(rows := s.pipeline.rows + [Row(e, false)])
  }

  /** Steps of a handler that insert a row, and the tick after them, from a state in which nothing waits. */
  lemma InsertServed(cfg: Config, s: State, h: nat, steps: seq<Action>, e: Entry)
    requires cfg in Sampled() && s.delegations == Polled().delegations
    requires Resting(s.pipeline) && PendingEntries(s.pipeline.rows, 7) == []
    requires OnlyOf(h, steps) && HasInserted(s, Run(cfg, s, steps), h, e)
    requires e.slotNumber == Some(7) && IsConvertible(e, LOWER)
    ensures Serially(cfg, s, steps + TickActions(e)) && Served(s, Run(cfg, s, steps + TickActions(e)), h, e)
  {
    HandlerIsSerial(cfg, s, h, steps);
    OnlyPending(s.pipeline.rows, e);
    TickServes(cfg, Run(cfg, s, steps), e);
    SeriallyAppend(cfg, s, steps, TickActions(e));
  }

  /** The two requests have different hashes. */
  ghost predicate TellsApart(cfg: Config) {
    Preimages.RequestHash(cfg.bls.keccak, SampleRequest(LOWER, false))
    != Preimages.RequestHash(cfg.bls.keccak, SampleRequest(LOWER, true))
  }

  /** Two requests for one slot. The second one is signed and its insert begins at 3; the first one's
      insert begins at 5, takes effect and is served; only then the second one's takes effect. */
  ghost function Requests(early: Entry, late: Entry, gasPrice: Option<u64>): seq<Action> {
    SignSteps(1, SampleRequest(LOWER, true))
    + ((HandlerActionsFor(0, SampleRequest(LOWER, false), 5, gasPrice) + TickActions(early))
       + (SaveSteps(1, 3, gasPrice) + TickActions(late)))
  }

  /** The relay is served against the order of the creation times. */
  ghost predicate OutOfOrder(ps: P.State, early: Entry, late: Entry) {
    && ps.rows == [Row(early, true), Row(late, true)]
    && early.createdAt == 5 && late.createdAt == 3
    && Order.DeliveredTo(ps.relay, 7, LOWER) == [early, late]
    && !Order.FirstComeFirstServed(ps.rows, ps.relay, 7, LOWER)
  }

  /** Serial ticks do not make up for a row that took effect late. */
  lemma LateRowIsServedLast(cfg: Config, gasPrice: Option<u64>) returns (early: Entry, late: Entry)
    requires cfg in Sampled() && TellsApart(cfg)
    ensures Serially(cfg, INITIAL, [Poll()] + Requests(early, late, gasPrice))
    ensures OutOfOrder(Run(cfg, INITIAL, [Poll()] + Requests(early, late, gasPrice)).pipeline, early, late)
  {
    early, late := TwoRequests(cfg, gasPrice);
    AfterPoll(cfg, Requests(early, late, gasPrice));
    PollIsSerial(cfg);
    SeriallyAppend(cfg, INITIAL, [Poll()], Requests(early, late, gasPrice));
  }

  lemma PollIsSerial(cfg: Config)
    requires cfg in Sampled()
    ensures Run(cfg, INITIAL, [Poll()]) == Polled() && Serially(cfg, INITIAL, [Poll()])
  {
    PollStores(cfg);
    RunOne(cfg, INITIAL, Poll());
    PollsSerially(cfg, INITIAL, Poll().d);
  }

  lemma PollsSerially(cfg: Config, s: State, d: D.Action)
    ensures Serially(cfg, s, [Delegating(d)])
  {
    assert PipelineRun(cfg, s, [Delegating(d)]) == [];
  }

  /** After the second request is signed. */
  ghost predicate SecondIsSigned(cfg: Config, s: State, signed: SignedCommitment) {
    && s.pipeline == P.INITIAL && s.delegations == Polled().delegations && 0 !in s.handlers
    && At(s, 1) == Saving(signed, 7)
    && signed.commitment == CommitmentFor(SampleRequest(LOWER, true), signed.commitment.requestHash)
    && Preimages.RequestHash(cfg.bls.keccak, SampleRequest(LOWER, true)) == Some(signed.commitment.requestHash)
    && SaveOutcome([], signed) == Inserted
  }

  lemma SecondSigns(cfg: Config) returns (signed: SignedCommitment)
    requires cfg in Sampled()
    ensures SecondIsSigned(cfg, Run(cfg, Polled(), SignSteps(1, SampleRequest(LOWER, true))), signed)
    ensures Serially(cfg, Polled(), SignSteps(1, SampleRequest(LOWER, true)))
  {
    var request := SampleRequest(LOWER, true);
    SpellingsOfAddress();
    var checked := SampleChecked(cfg, LOWER, true);
    signed := SampleSigned(cfg, LOWER, true, checked);
    SignsAfterPoll(cfg, 1, request, checked, signed);
    SignedIsInserted(cfg, [], request, checked, signed);
    SignsAlone(cfg, Polled(), 1, request);
  }

  lemma SignsAlone(cfg: Config, s: State, h: nat, request: CommitmentRequest)
    ensures Serially(cfg, s, SignSteps(h, request))
    ensures Elsewhere(s, Run(cfg, s, SignSteps(h, request)), h)
  {
    assert OnlyOf(h, SignSteps(h, request));
    HandlerIsSerial(cfg, s, h, SignSteps(h, request));
    RunElsewhere(cfg, s, h, SignSteps(h, request));
  }

  /** After the first request is served. */
  ghost predicate FirstIsServed(s: State, early: Entry, signed: SignedCommitment) {
    && s.delegations == Polled().delegations && At(s, 1) == Saving(signed, 7) && 1 in s.handlers
    && Resting(s.pipeline)
    && s.pipeline.rows == [Row(early, true)] && PendingEntries(s.pipeline.rows, 7) == []
    && |s.pipeline.relay| == 1 && s.pipeline.relay[0].entries == [early] && Order.IsFor(s.pipeline.relay[0], 7, LOWER)
  }

  lemma FirstServes(cfg: Config, s: State, signed: SignedCommitment, gasPrice: Option<u64>)
    returns (early: Entry)
    requires cfg in Sampled() && SecondIsSigned(cfg, s, signed)
    ensures early.createdAt == 5
    ensures Preimages.RequestHash(cfg.bls.keccak, SampleRequest(LOWER, false)) == Some(HashOf(early))
    ensures var steps := HandlerActionsFor(0, SampleRequest(LOWER, false), 5, gasPrice) + TickActions(early);
      Serially(cfg, s, steps) && FirstIsServed(Run(cfg, s, steps), early, signed)
  {
    var request := SampleRequest(LOWER, false);
    SpellingsOfAddress();
    var first := SampleRun(cfg, s, 0, LOWER, false, 5, gasPrice);
    early := Entry(0, first, Some(7), 5);
    HandlerActionsOnly(0, request, [DELEGATION], Some(KEY), 5, gasPrice);
    var steps := HandlerActionsFor(0, request, 5, gasPrice);
    BecameInserted(cfg, s, Run(cfg, s, steps), 0, request, 5, gasPrice, first);
    InsertServed(cfg, s, 0, steps, early);
    AfterFirst(s, Run(cfg, s, steps + TickActions(early)), early, signed);
  }

  lemma BecameInserted(
      cfg: Config, s: State, s': State, h: nat, request: CommitmentRequest, now: int, gasPrice: Option<u64>,
      signed: SignedCommitment)
    requires Became(cfg, s, s', h, request, now, gasPrice, signed) && "0x" <= request.slasher
    ensures HasInserted(s, s', h, Entry(h, signed, Some(7), now))
    ensures request.slasher == LOWER ==> IsConvertible(Entry(h, signed, Some(7), now), LOWER)
  {
  }

  lemma AfterFirst(s: State, s': State, early: Entry, signed: SignedCommitment)
    requires s.pipeline == P.INITIAL && s.delegations == Polled().delegations && At(s, 1) == Saving(signed, 7)
    requires Served(s, s', 0, early) && early.slotNumber == Some(7)
    ensures FirstIsServed(s', early, signed)
  {
    assert [Row(early, true)][..0] == [];
  }

  lemma SecondServes(
      cfg: Config, s: State, early: Entry, signed: SignedCommitment, gasPrice: Option<u64>)
    returns (late: Entry)
    requires cfg in Sampled() && FirstIsServed(s, early, signed) && early.createdAt == 5
    requires SaveOutcome(s.pipeline.rows, signed) == Inserted
    requires signed.commitment == CommitmentFor(SampleRequest(LOWER, true), signed.commitment.requestHash)
    ensures var steps := SaveSteps(1, 3, gasPrice) + TickActions(late);
      Serially(cfg, s, steps) && OutOfOrder(Run(cfg, s, steps).pipeline, early, late)
  {
    late := Entry(1, signed, Some(7), 3);
    SampleColumn(cfg, true, signed.commitment);
    SecondSaves(cfg, s, signed, gasPrice);
    InsertServed(cfg, s, 1, SaveSteps(1, 3, gasPrice), late);
    AfterSecond(s, Run(cfg, s, SaveSteps(1, 3, gasPrice) + TickActions(late)), early, signed, late);
  }

  lemma SecondSaves(cfg: Config, s: State, signed: SignedCommitment, gasPrice: Option<u64>)
    requires 1 in s.handlers && s.handlers[1] == Saving(signed, 7)
    requires SaveOutcome(s.pipeline.rows, signed) == Inserted && SlotColumn(cfg.json, signed.commitment) == Some(7)
    ensures OnlyOf(1, SaveSteps(1, 3, gasPrice))
    ensures HasInserted(s, Run(cfg, s, SaveSteps(1, 3, gasPrice)), 1, Entry(1, signed, Some(7), 3))
  {
    SaveRun(cfg, s, 1, signed, 7, 3, gasPrice);
    SavesAlone(cfg, s, gasPrice);
  }

  lemma SavesAlone(cfg: Config, s: State, gasPrice: Option<u64>)
    ensures OnlyOf(1, SaveSteps(1, 3, gasPrice))
    ensures Elsewhere(s, Run(cfg, s, SaveSteps(1, 3, gasPrice)), 1)
  {
    assert OnlyOf(1, SaveSteps(1, 3, gasPrice));
    RunElsewhere(cfg, s, 1, SaveSteps(1, 3, gasPrice));
  }

  lemma StillNew(rows: Rows, early: Entry, signed: SignedCommitment)
    requires rows == [Row(early, true)] && SaveOutcome([], signed) == Inserted
    requires HashOf(early) != signed.commitment.requestHash
    ensures SaveOutcome(rows, signed) == Inserted
  {
  }

  lemma TwoRequests(cfg: Config, gasPrice: Option<u64>) returns (early: Entry, late: Entry)
    requires cfg in Sampled() && TellsApart(cfg)
    ensures Serially(cfg, Polled(), Requests(early, late, gasPrice))
    ensures OutOfOrder(Run(cfg, Polled(), Requests(early, late, gasPrice)).pipeline, early, late)
  {
    var a := SignSteps(1, SampleRequest(LOWER, true));
    var signed := SecondSigns(cfg);
    var s1 := Run(cfg, Polled(), a);
    early := FirstServes(cfg, s1, signed, gasPrice);
    var b := HandlerActionsFor(0, SampleRequest(LOWER, false), 5, gasPrice) + TickActions(early);
    var s2 := Run(cfg, s1, b);
    StillNew(s2.pipeline.rows, early, signed);
    late := SecondServes(cfg, s2, early, signed, gasPrice);
    SeriallyAppend(cfg, s1, b, SaveSteps(1, 3, gasPrice) + TickActions(late));
    SeriallyAppend(cfg, Polled(), a, b + (SaveSteps(1, 3, gasPrice) + TickActions(late)));
  }

  lemma AfterSecond(s: State, s': State, early: Entry, signed: SignedCommitment, late: Entry)
    requires FirstIsServed(s, early, signed) && Served(s, s', 1, late)
    requires early.createdAt == 5 && late.createdAt == 3
    ensures OutOfOrder(s'.pipeline, early, late)
  {
    assert s.pipeline.rows + [Row(late, false)] == [Row(early, true), Row(late, false)];
    TwoBatches(s'.pipeline.relay, early, late);
    assert [early, late][0].createdAt > [early, late][1].createdAt;
  }

  lemma {:induction false} TwoBatches(relay: seq<P.Batch>, early: Entry, late: Entry)
    requires |relay| == 2 && Order.IsFor(relay[0], 7, LOWER) && Order.IsFor(relay[1], 7, LOWER)
    requires relay[0].entries == [early] && relay[1].entries == [late]
    ensures Order.DeliveredTo(relay, 7, LOWER) == [early, late]
  {
    assert relay[..1][..0] == [];
    assert Order.DeliveredTo(relay[..1], 7, LOWER) == [] + [early];
    assert Order.DeliveredTo(relay, 7, LOWER) == [early] + [late];
  }

  // ---- There are such gateways ----

  /** The hash tells one text from all others, and every signature is good. */
  function SampleConfig(first: bytes): Config {
    Config(Json((d: bytes) => None, (d: bytes) => None),
           D.Bls((b: bytes) => Fill(32, if b == first then 0 else 1),
                 (k: PublicKey, root: Digest, s: BlsSignature) => D.Valid),
           (d: Digest) => Fill(65, 0), KEY, LOWER, [LOWER], [], (x: real) => x, 1.0, 100.0, 30_000_000, 0,
           (time: i64) => true)
  }

  lemma SampleExists() returns (cfg: Config)
    ensures cfg in Sampled() && TellsApart(cfg)
  {
    SpellingsOfAddress();
    var first := Preimages.EncodeRequest(SampleRequest(LOWER, false)).value;
    cfg := SampleConfig(first);
    SampleConfigIsSample(first);
    SampleConfigTellsApart(first);
  }

  lemma SampleConfigTellsApart(first: bytes)
    requires Preimages.EncodeRequest(SampleRequest(LOWER, false)) == Some(first)
    requires Preimages.EncodeRequest(SampleRequest(LOWER, true)).Some?
    ensures TellsApart(SampleConfig(first))
  {
    EncodingsDiffer(LOWER);
    assert Fill(32, 0)[0] != Fill(32, 1)[0];
    HashesDiffer(Fill(32, 0), Fill(32, 1));
  }

  lemma SampleConfigIsSample(first: bytes)
    requires Address.ParseHexBytes(LOWER, 20).Some?
    ensures SampleConfig(first) in Sampled()
  {
    assert SampleConfig(first).whitelist[0] == LOWER;
  }

  lemma HashesDiffer(a: Digest, b: Digest)
    requires a != b
    ensures "0x" + Address.EncodeHex(a) != "0x" + Address.EncodeHex(b)
  {
    Address.DecodeEncodeHex(a);
    Address.DecodeEncodeHex(b);
    assert ("0x" + Address.EncodeHex(a))[2..] == Address.EncodeHex(a);
    assert ("0x" + Address.EncodeHex(b))[2..] == Address.EncodeHex(b);
  }

  lemma EncodingsDiffer(slasher: string)
    requires Preimages.EncodeRequest(SampleRequest(slasher, false)).Some?
    requires Preimages.EncodeRequest(SampleRequest(slasher, true)).Some?
    ensures Preimages.EncodeRequest(SampleRequest(slasher, false))
         != Preimages.EncodeRequest(SampleRequest(slasher, true))
  {
    Preimages.RequestPreimageIdentifies(SampleRequest(slasher, false), SampleRequest(slasher, true));
    assert SamplePayload(false)[2] != SamplePayload(true)[2];
  }
}
