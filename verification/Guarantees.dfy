/** What holds in every run of the gateway, whatever interleaves. */
module Guarantees {
  import opened Machine
  import opened Types
  import opened Payload
  import Address
  import Preimages
  import opened Pricing
  import opened Commitments
  import C = CongestionTable
  import D = Delegations
  import P = Pipeline
  import opened Gateway

  lemma RunIsLawful(cfg: Config, actions: seq<Action>)
    ensures Run(cfg, INITIAL, actions) in Lawful(cfg)
  {
    assert INITIAL in Lawful(cfg);
    RunInv(cfg, INITIAL, actions);
  }

  // ---- Two-table authority ----

  /** The row is for this slot and to our key, and carries its proposer's signature. */
  ghost predicate Delegated(cfg: Config, row: D.DelegationRow, slot: u64) {
    && row.delegate == cfg.ourKey && row.slotNumber == slot
    && D.ProposerSigned(cfg.bls, DelegationMessage(row.proposer, row.delegate, row.committer, slot), row.signature)
  }

  lemma RowIsDelegated(cfg: Config, s: State, row: D.DelegationRow)
    requires D.TableOk(cfg.bls, cfg.ourKey, s.delegations) && row in s.delegations
    ensures row.slotNumber >= 0 && Delegated(cfg, row, row.slotNumber)
  {
    assert D.RowOk(cfg.bls, cfg.ourKey, row);
    D.VerifiesExactly(cfg.bls, D.Load(row));
  }

  /** The delegation row, active or since deactivated, under which a commitment for the slot was signed. */
  ghost predicate Authority(cfg: Config, s: State, row: D.DelegationRow, slasher: string, slot: u64) {
    && row in s.delegations && Delegated(cfg, row, slot)
    && Address.NormalizeAddress(row.committer) == Address.NormalizeAddress(slasher)
    && Address.NormalizeAddress(row.committer) == Address.NormalizeAddress(cfg.committerAddress)
    && (slot, row.proposer) in s.beacon
  }

  lemma AuthorityFor(cfg: Config, s: State, slasher: string, slot: u64) returns (row: D.DelegationRow)
    requires D.TableOk(cfg.bls, cfg.ourKey, s.delegations) && Authorized(cfg, s, slasher, slot)
    ensures Authority(cfg, s, row, slasher, slot)
  {
    var i :| 0 <= i < |s.delegations| && Grants(cfg, s.delegations[i], s.beacon, slasher, slot);
    row := s.delegations[i];
    RowIsDelegated(cfg, s, row);
  }

  /** The signature is ours on the hash of the encoded commitment. */
  ghost predicate SignedByUs(cfg: Config, signed: SignedCommitment) {
    && Preimages.EncodeCommitment(signed.commitment).Some?
    && var digest := cfg.bls.keccak(Preimages.EncodeCommitment(signed.commitment).value);
      Address.ParseHexBytes(signed.signature, 65) == Some(cfg.ecdsa(digest))
  }

  /** The request hash is the digest of the encoded request. */
  ghost predicate HashesItsRequest(cfg: Config, c: Commitment) {
    && Preimages.EncodeRequest(CommitmentRequest(c.commitmentType, c.payload, c.slasher)).Some?
    && var encoded := Preimages.EncodeRequest(CommitmentRequest(c.commitmentType, c.payload, c.slasher)).value;
      Address.ParseHexBytes(c.requestHash, 32) == Some(cfg.bls.keccak(encoded))
  }

  ghost predicate OnWhitelist(cfg: Config, slasher: string) {
    exists w :: w in cfg.whitelist && Address.NormalizeAddress(w) == Address.NormalizeAddress(slasher)
  }

  /** What a handler signs: a type-1 commitment for a whitelisted slasher with the slot of its payload. */
  ghost predicate Proper(cfg: Config, signed: SignedCommitment, slot: u64) {
    && signed.commitment.commitmentType == 1 && OnWhitelist(cfg, signed.commitment.slasher)
    && ExtractSlot(cfg.json, 1, signed.commitment.payload) == Some(slot)
    && HashesItsRequest(cfg, signed.commitment) && SignedByUs(cfg, signed)
  }

  lemma GenuineIsProper(cfg: Config, signed: SignedCommitment, slot: u64)
    requires Genuine(cfg, signed, slot)
    ensures Proper(cfg, signed, slot)
  {
    var c := signed.commitment;
    GenuineParts(cfg, signed, slot);
    var i :|
      0 <= i < |cfg.whitelist| && Address.NormalizeAddress(cfg.whitelist[i]) == Address.NormalizeAddress(c.slasher);
    assert cfg.whitelist[i] in cfg.whitelist;
    Preimages.RequestHashExactly(cfg.bls.keccak, RequestOf(c), c.requestHash);
    Address.EncodedColumn(cfg.ecdsa(cfg.bls.keccak(Preimages.EncodeCommitment(c).value)));
  }

  /** Every commitment in the table is of type 1, for a whitelisted slasher, under its request's hash
      and our signature; its slot column is its payload's slot, never NULL; and there is a delegation
      row for that slot whose signature verifies, whose delegate is our key, whose committer is the
      slasher and our signing address, and whose proposer the beacon node has named for the slot. */
  lemma SavedIsAuthorized(cfg: Config, actions: seq<Action>, i: nat) returns (slot: u64, row: D.DelegationRow)
    requires i < |Run(cfg, INITIAL, actions).pipeline.rows|
    ensures var s := Run(cfg, INITIAL, actions);
      var e := s.pipeline.rows[i].entry;
      && Proper(cfg, e.signed, slot) && e.slotNumber == Some(slot as int)
      && Authority(cfg, s, row, e.signed.commitment.slasher, slot)
  {
    RunIsLawful(cfg, actions);
    var s := Run(cfg, INITIAL, actions);
    slot := RowSlot(cfg, s, i);
    row := AuthorityFor(cfg, s, s.pipeline.rows[i].entry.signed.commitment.slasher, slot);
    GenuineIsProper(cfg, s.pipeline.rows[i].entry.signed, slot);
  }

  /** So is what a handler returns, and it is in the table. */
  lemma ReturnedIsAuthorized(cfg: Config, actions: seq<Action>, h: nat)
    returns (i: nat, slot: u64, row: D.DelegationRow)
    requires At(Run(cfg, INITIAL, actions), h).Returned?
    ensures var s := Run(cfg, INITIAL, actions);
      && i < |s.pipeline.rows| && s.pipeline.rows[i].entry.signed == At(s, h).signed
      && Proper(cfg, At(s, h).signed, slot)
      && Authority(cfg, s, row, At(s, h).signed.commitment.slasher, slot)
  {
    RunIsLawful(cfg, actions);
    i := ReturnedRow(cfg, Run(cfg, INITIAL, actions), h);
    slot, row := SavedIsAuthorized(cfg, actions, i);
  }

  lemma RowSlot(cfg: Config, s: State, i: nat) returns (slot: u64)
    requires s in Lawful(cfg) && i < |s.pipeline.rows|
    ensures s.pipeline.rows[i].entry.slotNumber == Some(slot as int)
    ensures Genuine(cfg, s.pipeline.rows[i].entry.signed, slot)
    ensures Authorized(cfg, s, s.pipeline.rows[i].entry.signed.commitment.slasher, slot)
  {
    assert RowAt(cfg, s, i);
    slot := s.pipeline.rows[i].entry.slotNumber.value;
  }

  lemma GenuineParts(cfg: Config, signed: SignedCommitment, slot: u64)
    requires Genuine(cfg, signed, slot)
    ensures var c := signed.commitment;
      && c.commitmentType == 1 && Whitelisted(cfg, c.slasher)
      && ExtractSlot(cfg.json, c.commitmentType, c.payload) == Some(slot)
      && Preimages.RequestHash(cfg.bls.keccak, RequestOf(c)) == Some(c.requestHash)
      && Sign(cfg, c) == Some(signed)
  {
  }

  /** What the beacon node has named it has named to a handler that was confirming the slot. */
  lemma {:induction false} BeaconHasNamed(cfg: Config, actions: seq<Action>, slot: u64, proposer: PublicKey)
    requires (slot, proposer) in Run(cfg, INITIAL, actions).beacon
    ensures exists i :: 0 <= i < |actions| && Names(cfg, actions, i, slot, proposer)
    decreases |actions|
  {
    if actions != [] {
      var n := |actions| - 1;
      var before := Run(cfg, INITIAL, actions[..n]);
      assert actions == actions[..n] + [actions[n]];
      RunAppend(cfg, INITIAL, actions[..n], [actions[n]]);
      RunOne(cfg, before, actions[n]);
      if (slot, proposer) in before.beacon {
        BeaconHasNamed(cfg, actions[..n], slot, proposer);
        var i :| 0 <= i < n && Names(cfg, actions[..n], i, slot, proposer);
        assert actions[..n][..i] == actions[..i];
        assert Names(cfg, actions, i, slot, proposer);
      } else {
        StepNames(cfg, before, actions[n], slot, proposer);
        assert Names(cfg, actions, n, slot, proposer);
      }
    }
  }

  ghost predicate Names(cfg: Config, actions: seq<Action>, i: nat, slot: u64, proposer: PublicKey)
    requires i < |actions|
  {
    && actions[i].Confirm? && actions[i].scheduled == proposer
    && var x := At(Run(cfg, INITIAL, actions[..i]), actions[i].h);
      x.Confirming? && x.slot == slot
  }

  lemma StepNames(cfg: Config, s: State, a: Action, slot: u64, proposer: PublicKey)
    requires (slot, proposer) in Step(cfg, s, a).beacon && (slot, proposer) !in s.beacon
    ensures a.Confirm? && a.scheduled == proposer && At(s, a.h).Confirming? && At(s, a.h).slot == slot
  {
  }

  /** A fee request opens the slot's record at the oracle's price unless it has one or its start is not a
      time the database can hold. */
  lemma AskingOpens(cfg: Config, s: State, slot: u64, gasPrice: u64)
    ensures C.Get(Step(cfg, s, Asking(slot, gasPrice)).slots, slot)
         == if C.Get(s.slots, slot).Some? then C.Get(s.slots, slot)
            else if cfg.representable(AsI64(SaturatingAdd(cfg.genesisTime, SaturatingMul(slot, 12))))
            then Some(NewCongestion(slot, gasPrice, cfg.gasLimit))
            else None
  {
    C.GetAfterCreate(s.slots, slot, gasPrice, cfg.gasLimit, slot);
  }

  // ---- What the table's CHECKs refuse ----

  /** Of what a handler signs the CHECKs refuse exactly the commitments whose slasher has no `0x`. */
  lemma AcceptableExactly(cfg: Config, signed: SignedCommitment, slot: u64)
    requires Genuine(cfg, signed, slot)
    ensures Acceptable(signed) <==> "0x" <= signed.commitment.slasher
  {
    var c := signed.commitment;
    GenuineParts(cfg, signed, slot);
    HashColumn(cfg, RequestOf(c), c.requestHash);
    SignatureColumn(cfg, signed);
    Address.ColumnAcceptsPrefixed(c.slasher);
  }

  lemma HashColumn(cfg: Config, request: CommitmentRequest, hash: string)
    requires Preimages.RequestHash(cfg.bls.keccak, request) == Some(hash)
    ensures Address.MatchesHexColumn(hash, 64)
    ensures Address.ParseHexBytes(request.slasher, 20).Some?
  {
    Address.EncodedColumn(cfg.bls.keccak(Preimages.EncodeRequest(request).value));
  }

  lemma SignatureColumn(cfg: Config, signed: SignedCommitment)
    requires Sign(cfg, signed.commitment) == Some(signed)
    ensures Address.MatchesHexColumn(signed.signature, 130)
  {
    Address.EncodedColumn(cfg.ecdsa(cfg.bls.keccak(Preimages.EncodeCommitment(signed.commitment).value)));
  }

  /** A handler about to save goes on exactly when its slasher has the prefix and its hash is new; else
      it fails, signature and all, and no row is added. */
  lemma SavesExactly(cfg: Config, actions: seq<Action>, h: nat, now: int)
    requires At(Run(cfg, INITIAL, actions), h).Saving?
    ensures var s := Run(cfg, INITIAL, actions);
      var x, s' := At(s, h), Step(cfg, s, Save(h, now));
      var goesOn := "0x" <= x.signed.commitment.slasher && !Exists(s.pipeline.rows, x.signed.commitment.requestHash);
      && At(s', h) == (if goesOn then Opening(x.signed, x.slot) else Failed)
      && s'.pipeline.rows
         == s.pipeline.rows + (if goesOn then [Row(NewEntry(cfg, h, x.signed, now), false)] else [])
  {
    RunIsLawful(cfg, actions);
    var s := Run(cfg, INITIAL, actions);
    assert HandlerAt(cfg, s, h);
    SavingIsGenuine(cfg, s, h, At(s, h));
    AcceptableExactly(cfg, At(s, h).signed, At(s, h).slot);
    SaveRecords(cfg, s, h, now);
  }

  lemma SavingIsGenuine(cfg: Config, s: State, h: nat, x: Handler)
    requires x.Saving? && HandlerOk(cfg, s, h, x)
    ensures Genuine(cfg, x.signed, x.slot)
  {
  }

  lemma SaveRecords(cfg: Config, s: State, h: nat, now: int)
    requires At(s, h).Saving?
    ensures var x, s' := At(s, h), Step(cfg, s, Save(h, now));
      var inserted := SaveOutcome(s.pipeline.rows, x.signed) == Inserted;
      && At(s', h) == (if inserted then Opening(x.signed, x.slot) else Failed)
      && s'.pipeline.rows
         == s.pipeline.rows + (if inserted then [Row(NewEntry(cfg, h, x.signed, now), false)] else [])
  {
    assert s.pipeline.rows + [] == s.pipeline.rows;
  }

  // ---- One success per request ----

  lemma ReturnedRow(cfg: Config, s: State, h: nat) returns (i: nat)
    requires s in Lawful(cfg) && At(s, h).Returned?
    ensures i < |s.pipeline.rows|
    ensures s.pipeline.rows[i].entry.id == h && s.pipeline.rows[i].entry.signed == At(s, h).signed
  {
    assert HandlerAt(cfg, s, h);
    i :| && 0 <= i < |s.pipeline.rows| && s.pipeline.rows[i].entry.id == h
         && s.pipeline.rows[i].entry.signed == At(s, h).signed;
  }

  /** Of any number of concurrent handlers for one request hash at most one returns success. */
  lemma OneSuccessPerRequest(cfg: Config, actions: seq<Action>, g: nat, h: nat)
    requires At(Run(cfg, INITIAL, actions), g).Returned? && At(Run(cfg, INITIAL, actions), h).Returned?
    requires At(Run(cfg, INITIAL, actions), g).signed.commitment.requestHash
          == At(Run(cfg, INITIAL, actions), h).signed.commitment.requestHash
    ensures g == h
  {
    RunIsLawful(cfg, actions);
    var s := Run(cfg, INITIAL, actions);
    var i := ReturnedRow(cfg, s, g);
    var j := ReturnedRow(cfg, s, h);
    UniqueIndex(s.pipeline.rows, i, j);
  }

  lemma UniqueIndex(rows: Rows, i: nat, j: nat)
    requires UniqueHashes(rows) && i < |rows| && j < |rows|
    ensures HashOf(rows[i].entry) == HashOf(rows[j].entry) <==> i == j
  {
    if i < j {
      assert HashOf(rows[i].entry) != HashOf(rows[j].entry);
    } else if j < i {
      assert HashOf(rows[j].entry) != HashOf(rows[i].entry);
    }
  }

  /** From then on every lookup of that hash returns exactly what the handler returned. */
  lemma LookupIsStable(cfg: Config, actions: seq<Action>, later: seq<Action>, h: nat)
    requires At(Run(cfg, INITIAL, actions), h).Returned?
    ensures var signed := At(Run(cfg, INITIAL, actions), h).signed;
      Lookup(Run(cfg, Run(cfg, INITIAL, actions), later).pipeline.rows, signed.commitment.requestHash) == Some(signed)
  {
    RunIsLawful(cfg, actions);
    var s := Run(cfg, INITIAL, actions);
    var i := ReturnedRow(cfg, s, h);
    RunsPipeline(cfg, s, later);
    P.RunExtends(s.pipeline, cfg.builders, PipelineRun(cfg, s, later));
    P.RunInv(s.pipeline, cfg.builders, PipelineRun(cfg, s, later));
    var s' := Run(cfg, s, later);
    assert s'.pipeline.rows[i].entry == s.pipeline.rows[i].entry;
    LookupFinds(s'.pipeline.rows, At(s, h).signed.commitment.requestHash, i);
  }

  // ---- Errors after the insert ----

  /** A handler that prices its commitment has saved it; it fails exactly when the total cost does not
      fit 64 bits, and the row stays. */
  lemma QuoteFailsExactly(cfg: Config, actions: seq<Action>, h: nat)
    requires At(Run(cfg, INITIAL, actions), h).Quoting?
    ensures var s := Run(cfg, INITIAL, actions);
      var x := At(s, h);
      var record := if x.created.Some? then x.created else C.Get(s.slots, x.slot);
      && SavedBy(s.pipeline.rows, h, x.signed)
      && record.Some?
      && (At(Step(cfg, s, Quote(h)), h).Failed?
          <==> Project(cfg.power, record.value, x.gas, cfg.lowFee, cfg.highFee).currentTxPrice * x.gas > U64_MAX)
      && Step(cfg, s, Quote(h)).pipeline.rows == s.pipeline.rows
  {
    RunIsLawful(cfg, actions);
    QuoteStep(cfg, Run(cfg, INITIAL, actions), h);
  }

  lemma QuoteStep(cfg: Config, s: State, h: nat)
    requires s in Lawful(cfg) && At(s, h).Quoting?
    ensures var x := At(s, h);
      var record := if x.created.Some? then x.created else C.Get(s.slots, x.slot);
      && SavedBy(s.pipeline.rows, h, x.signed) && record.Some?
      && (At(Step(cfg, s, Quote(h)), h).Failed?
          <==> Project(cfg.power, record.value, x.gas, cfg.lowFee, cfg.highFee).currentTxPrice * x.gas > U64_MAX)
      && Step(cfg, s, Quote(h)).pipeline.rows == s.pipeline.rows
  {
    assert HandlerAt(cfg, s, h);
    QuoteRecord(cfg, s, h, At(s, h));
    QuotePuts(cfg, s, h);
  }

  lemma QuoteRecord(cfg: Config, s: State, h: nat, x: Handler)
    requires x.Quoting? && HandlerOk(cfg, s, h, x)
    ensures SavedBy(s.pipeline.rows, h, x.signed) && C.Get(s.slots, x.slot).Some?
  {
  }

  lemma QuotePuts(cfg: Config, s: State, h: nat)
    requires At(s, h).Quoting?
    ensures Step(cfg, s, Quote(h)) == Put(s, h, AfterQuote(cfg, s.slots, At(s, h)))
  {
  }

  // ---- Gas ----

  /** The charge belongs to one saved commitment for its slot, at its estimate, which is exact
      whenever the amount fits 64 bits. */
  ghost predicate IsChargeOf(cfg: Config, c: Charge, e: Entry) {
    && e.id == c.handler
    && e.slotNumber == Some(c.slot as int)
    && (ParseInclusion(cfg.json, e.signed.commitment.payload).Some? &&
        var exact := 31_000 + 16 * |ParseInclusion(cfg.json, e.signed.commitment.payload).value.signedTx|;
        c.gas == exact <==> exact < TWO_64)
  }

  /** In every run a slot's preconfirmed gas is the capped sum of the charges for it, and no commitment
      is charged twice. */
  lemma GasIsConserved(cfg: Config, actions: seq<Action>, slot: u64)
    ensures var s := Run(cfg, INITIAL, actions);
      && OncePerHandler(s.charges)
      && (match C.Get(s.slots, slot)
          case None => ChargedGas(s.charges, slot) == 0
          case Some(c) => c.preconfirmedGas == C.Capped(ChargedGas(s.charges, slot)))
  {
    RunIsLawful(cfg, actions);
    var s := Run(cfg, INITIAL, actions);
    assert GasOk(s.slots, s.charges, slot);
  }

  lemma ChargeIsExact(cfg: Config, actions: seq<Action>, k: nat) returns (i: nat)
    requires k < |Run(cfg, INITIAL, actions).charges|
    ensures var s := Run(cfg, INITIAL, actions);
      i < |s.pipeline.rows| && IsChargeOf(cfg, s.charges[k], s.pipeline.rows[i].entry)
  {
    RunIsLawful(cfg, actions);
    var s := Run(cfg, INITIAL, actions);
    var c := s.charges[k];
    assert ChargeAt(cfg, s, k);
    i := ReturnedRow(cfg, s, c.handler);
    var signed := s.pipeline.rows[i].entry.signed;
    var slot := RowSlot(cfg, s, i);
    GenuineSlot(cfg, signed, slot);
    GenuineSlot(cfg, signed, c.slot);
    EstimateAfterSlot(cfg.json, signed.commitment.payload);
  }

  // ---- Quotes ----

  /** The fee bounds never raise the quote of this much gas above the curve of the record. */
  predicate QuoteIsSafe(cfg: Config, c: Congestion, gas: u64) {
    NeverRaises(cfg.power, gas, c.totalGasLimit, c.baseGasPrice, cfg.lowFee, cfg.highFee)
  }

  /** Then the price quoted to a handler is at most the price its own update stores, whatever other
      handlers did to the slot in between. */
  lemma QuoteHolds(cfg: Config, actions: seq<Action>, h: nat)
    requires At(Run(cfg, INITIAL, actions), h).Applying?
    requires QuoteIsSafe(cfg, At(Run(cfg, INITIAL, actions), h).quoted, At(Run(cfg, INITIAL, actions), h).gas)
    ensures var s := Run(cfg, INITIAL, actions);
      var x := At(s, h);
      var after := C.Get(Step(cfg, s, Apply(h, true)).slots, x.slot);
      && after.Some?
      && Project(cfg.power, x.quoted, x.gas, cfg.lowFee, cfg.highFee).currentTxPrice <= after.value.currentTxPrice
  {
    RunIsLawful(cfg, actions);
    var s := Run(cfg, INITIAL, actions);
    ApplyStep(cfg, s, h);
    UpdateAtLeastQuote(cfg, s.slots, At(s, h));
  }

  lemma ApplyStep(cfg: Config, s: State, h: nat)
    requires s in Lawful(cfg) && At(s, h).Applying?
    ensures RecordIs(s.slots, At(s, h).slot, Some(At(s, h).quoted))
    ensures Step(cfg, s, Apply(h, true)).slots == C.Update(s.slots, At(s, h).slot, At(s, h).gas, cfg.power)
  {
    assert HandlerAt(cfg, s, h);
    ApplyRecord(cfg, s, h, At(s, h));
    ApplyCharges(cfg, s, h);
  }

  lemma ApplyRecord(cfg: Config, s: State, h: nat, x: Handler)
    requires x.Applying? && HandlerOk(cfg, s, h, x)
    ensures RecordIs(s.slots, x.slot, Some(x.quoted))
  {
  }

  lemma ApplyCharges(cfg: Config, s: State, h: nat)
    requires At(s, h).Applying?
    ensures Step(cfg, s, Apply(h, true)) == Charged(cfg, s, h, At(s, h))
  {
  }

  lemma UpdateAtLeastQuote(cfg: Config, slots: C.Table, x: Handler)
    requires x.Applying? && RecordIs(slots, x.slot, Some(x.quoted)) && QuoteIsSafe(cfg, x.quoted, x.gas)
    ensures var after := C.Get(C.Update(slots, x.slot, x.gas, cfg.power), x.slot);
      && after.Some?
      && Project(cfg.power, x.quoted, x.gas, cfg.lowFee, cfg.highFee).currentTxPrice <= after.value.currentTxPrice
  {
    C.GetAfterUpdate(slots, x.slot, x.gas, cfg.power, x.slot);
    QuoteAtMostLaterPrice(cfg.power, x.quoted, C.Get(slots, x.slot).value, x.gas, cfg.lowFee, cfg.highFee);
  }

  /** The record is one of the gateway's with this base price, and a commitment with this payload is
      estimated at this much gas. */
  ghost predicate Quotable(cfg: Config, base: u64, c: Congestion, payload: Buffer, gas: u64) {
    && c.totalGasLimit == cfg.gasLimit && c.baseGasPrice == base
    && ParseInclusion(cfg.json, payload).Some?
    && 31_000 + 16 * |ParseInclusion(cfg.json, payload).value.signedTx| < TWO_64
    && EstimateGas(cfg.json, 1, payload) == Some(gas)
  }

  lemma LeastEstimate(cfg: Config, base: u64, c: Congestion, payload: Buffer, gas: u64)
    requires Quotable(cfg, base, c, payload, gas)
    ensures gas >= 31_000
  {
    GasIsExact(|ParseInclusion(cfg.json, payload).value.signedTx|);
  }

  /** The inclusion payload of an empty transaction. */
  lemma LeastIsEstimated(cfg: Config, base: u64, slot: u64) returns (payload: Buffer)
    requires 0 < slot < 0x80
    ensures Quotable(cfg, base, NewCongestion(slot, base, cfg.gasLimit), payload, 31_000)
  {
    payload := [0xC2, slot, 0x80];
    assert EncodeRlp(InclusionPayload(slot, [])) == payload by {
      assert BigEndian.Shortest(slot) == [] + [slot] by {
        assert BigEndian.Shortest(0) == [];
      }
      assert RlpFields(InclusionPayload(slot, [])) == [slot] + ([0x80] + []);
    }
    RlpReadsBack(cfg.json, InclusionPayload(slot, []));
    GasIsExact(0);
  }

  /** No commitment is quoted above the price its own update stores exactly when an empty transaction on
      an idle slot is not. */
  lemma CommitmentQuotesNeverExceedExactly(cfg: Config, base: u64)
    ensures (forall c: Congestion, payload: Buffer, gas: u64 :: Quotable(cfg, base, c, payload, gas)
               ==> NeverExceeds(cfg.power, c, gas, cfg.lowFee, cfg.highFee))
       <==> NeverRaises(cfg.power, 31_000, cfg.gasLimit, base, cfg.lowFee, cfg.highFee)
  {
    if NeverRaises(cfg.power, 31_000, cfg.gasLimit, base, cfg.lowFee, cfg.highFee) {
      forall c: Congestion, payload: Buffer, gas: u64 | Quotable(cfg, base, c, payload, gas)
        ensures NeverExceeds(cfg.power, c, gas, cfg.lowFee, cfg.highFee)
      {
        LeastEstimate(cfg, base, c, payload, gas);
        QuoteAtMostApplied(cfg.power, 31_000, c, gas, cfg.lowFee, cfg.highFee);
      }
    } else {
      var payload := LeastIsEstimated(cfg, base, 1);
      QuoteAboveAppliedPrice(cfg.power, 1, 31_000, cfg.gasLimit, base, cfg.lowFee, cfg.highFee);
    }
  }

  // ---- From the relay back to the tables ----

  /** Every constraint the relay ever accepted from us carries the payload of a saved, authorized
      commitment for the message's slot, in the name of a proposer whose delegation to our key
      verifies and whose committer is spelled like the commitment's slasher. */
  lemma RelayedIsAuthorized(cfg: Config, actions: seq<Action>, k: nat, j: nat)
    returns (i: nat, slot: u64, served: D.DelegationRow, granted: D.DelegationRow)
    requires k < |Run(cfg, INITIAL, actions).pipeline.relay|
    requires j < |Run(cfg, INITIAL, actions).pipeline.relay[k].message.constraints|
    ensures var s := Run(cfg, INITIAL, actions);
      var m := s.pipeline.relay[k].message;
      && i < |s.pipeline.rows|
      && var signed := s.pipeline.rows[i].entry.signed;
      && m.slot == slot && s.pipeline.rows[i].entry.slotNumber == Some(slot as int)
      && m.constraints[j] == Constraint(1, signed.commitment.payload)
      && Proper(cfg, signed, slot)
      && served in s.delegations && Delegated(cfg, served, slot)
      && served.proposer == m.proposer && served.delegate == m.delegate
      && served.committer == signed.commitment.slasher
      && Authority(cfg, s, granted, signed.commitment.slasher, slot)
  {
    RunIsLawful(cfg, actions);
    var s := Run(cfg, INITIAL, actions);
    i, served := RelayedRows(cfg, s, k, j);
    slot := RowSlot(cfg, s, i);
    GenuineIsProper(cfg, s.pipeline.rows[i].entry.signed, slot);
    granted := AuthorityFor(cfg, s, s.pipeline.rows[i].entry.signed.commitment.slasher, slot);
  }

  lemma RelayedRows(cfg: Config, s: State, k: nat, j: nat) returns (i: nat, served: D.DelegationRow)
    requires s in Lawful(cfg)
    requires k < |s.pipeline.relay| && j < |s.pipeline.relay[k].message.constraints|
    ensures i < |s.pipeline.rows|
    ensures var b, e := s.pipeline.relay[k], s.pipeline.rows[i].entry;
      && e.slotNumber == TryI64(b.message.slot) && e.signed.commitment.slasher == b.committer
      && b.message.constraints[j] == Constraint(1, e.signed.commitment.payload)
      && served in s.delegations && Delegated(cfg, served, b.message.slot)
      && served.proposer == b.message.proposer && served.delegate == b.message.delegate
      && served.committer == e.signed.commitment.slasher
  {
    var b := s.pipeline.relay[k];
    assert P.BatchOk(s.pipeline.rows, b);
    assert b.entries[j] in b.entries;
    i :| 0 <= i < b.seen <= |s.pipeline.rows| && s.pipeline.rows[i].entry == b.entries[j];
    assert RelayAt(s.delegations, s.pipeline, k);
    var d :| 0 <= d < |s.delegations| && D.Load(s.delegations[d]).message
      == DelegationMessage(b.message.proposer, b.message.delegate, b.committer, b.message.slot);
    served := s.delegations[d];
    RowIsDelegated(cfg, s, served);
  }

  /** A processed row was delivered, in the whole gateway too. */
  lemma ProcessedWasDelivered(cfg: Config, actions: seq<Action>, i: nat)
    requires var s := Run(cfg, INITIAL, actions); i < |s.pipeline.rows| && s.pipeline.rows[i].processed
    ensures var s := Run(cfg, INITIAL, actions); P.Delivered(s.pipeline.relay, s.pipeline.rows[i].entry)
  {
    RunsPipeline(cfg, INITIAL, actions);
    P.ProcessedWasDelivered(cfg.builders, PipelineRun(cfg, INITIAL, actions), i);
  }

  /** The spelling gap: the handler compares addresses normalised, the tick as they are. A saved
      commitment whose slasher is spelled like no committer of a delegation for its slot is never
      delivered nor marked, although it was authorized. */
  lemma RespelledIsNeverSubmitted(cfg: Config, actions: seq<Action>, i: nat)
    requires i < |Run(cfg, INITIAL, actions).pipeline.rows|
    requires var s := Run(cfg, INITIAL, actions);
      var e := s.pipeline.rows[i].entry;
      forall row ::
        row in s.delegations && Some(row.slotNumber) == e.slotNumber ==> row.committer != e.signed.commitment.slasher
    ensures var s := Run(cfg, INITIAL, actions);
      && !P.Delivered(s.pipeline.relay, s.pipeline.rows[i].entry)
      && !s.pipeline.rows[i].processed
  {
    RunIsLawful(cfg, actions);
    var s := Run(cfg, INITIAL, actions);
    var e := s.pipeline.rows[i].entry;
    if P.Delivered(s.pipeline.relay, e) {
      var served := DeliveredIsSpelled(cfg, s, e);
      assert false;
    }
    if s.pipeline.rows[i].processed {
      ProcessedWasDelivered(cfg, actions, i);
    }
  }

  lemma DeliveredIsSpelled(cfg: Config, s: State, e: Entry) returns (served: D.DelegationRow)
    requires s in Lawful(cfg) && P.Delivered(s.pipeline.relay, e)
    ensures served in s.delegations && Some(served.slotNumber) == e.slotNumber
    ensures served.committer == e.signed.commitment.slasher
  {
    var k, j :| 0 <= k < |s.pipeline.relay| && 0 <= j < |s.pipeline.relay[k].message.constraints|
      && e.slotNumber == TryI64(s.pipeline.relay[k].message.slot)
      && s.pipeline.relay[k].committer == e.signed.commitment.slasher
      && s.pipeline.relay[k].message.constraints[j] == Constraint(1, e.signed.commitment.payload);
    var i;
    i, served := RelayedRows(cfg, s, k, j);
  }
}
