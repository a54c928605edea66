# Preconfirmation gateway: model and proofs

A Dafny model of a gateway that takes commitment requests over JSON-RPC, checks that a proposer has
delegated a slot to it, signs and stores the commitments, prices the slot, and turns stored commitments
into constraints for a relay. `dafny verify dfyconfig.toml` checks everything.

## How it is built

| file | what it models |
|---|---|
| `Machine.dfy`, `Types.dfy` | machine integers with their wrap-around and saturation, bytes, the messages |
| `Address.dfy` | hexadecimal text, address parsing and normalisation, the columns' CHECK patterns |
| `Abi.dfy`, `Preimages.dfy` | Contract ABI encoding with a decoder, and the byte strings that are hashed and signed |
| `Layout.dfy` | where each byte of an encoding stands, by the Contract ABI standard, and the preimages position by position |
| `Payload.dfy` | RLP, the JSON-first payload parser, slot extraction, gas estimates |
| `Pricing.dfy`, `CongestionTable.dfy` | the fee curve, a slot's record, and the `slot_congestion` table over runs of statements |
| `Commitments.dfy` | the `commitments` table, its statements and a store that executes them |
| `Pipeline.dfy`, `Order.dfy` | any number of submission ticks and inserts as interleaved steps; safety, exactly-once and order |
| `Ticks.dfy` | the submission service's loops on the stores, as runs of the pipeline |
| `Delegations.dfy` | the `delegations` table, polls and cleanups |
| `Gateway.dfy`, `Guarantees.dfy` | request handlers, polls and ticks together as one step machine, and what holds in every run |
| `Handlers.dfy` | the request handler as it runs on the stores, as a run of the gateway, and when it succeeds |
| `Progress.dfy` | which saved commitments a tick can still deliver, and which nothing delivers any more |
| `Samples.dfy` | concrete runs of the gateway in which its documentation's promises fail |
| `Relay.dfy`, `StatusCache.dfy`, `SlotClock.dfy` | the retry loop, the validator-status cache, the slot clock |
| `Deadline.dfy` | when the POSTs of a slot leave |

Every SQL statement or transaction, and every answer of the relay, the beacon node and the gas oracle, is
one step, and steps interleave freely. The object-like parts of the source (stores, the congestion
record, the RLP stream, the status cache) are classes whose methods are proved against specification
functions; the properties are lemmas about those functions and about runs of the step machines.

Parameters: Keccak, the BLS check and the ECDSA signature are functions of which nothing is assumed; the
JSON readers are functions that accept only texts starting like JSON (section 2 of RFC 8259); the fee
exponent is any function that is 0 at 0, 1 at 1 and strictly increasing between (every natural power is
one); the beacon node, the relay, the gas oracle, clocks and database failures are arbitrary answers;
which second counts a timestamp column can hold is a predicate.

## Where the code and its documentation differ

* The repository's README.md (line 101) promises first come, first served. Commitments are served by
  `created_at`, which is the time a transaction starts, not the order in which inserts take effect.
  `Samples.LateRowIsServedLast` is a run without overlapping ticks in which an insert begun at 3 takes effect
  after a row created at 5 was delivered, and is delivered behind it. `Order.OrderExactlyWithoutLateRows`
  gives the exact condition.
* Handlers compare addresses normalised, ticks compare spellings, and handlers do not look at the clock.
  `Progress.DeliverableExactly` says which saved commitments a tick can deliver: those with an active
  delegation for the slot that is spelled like the slasher, whose slot is in the window of the tick's clock.
  `Samples.RespelledIsReturnedAndStuck` is a request that succeeds and fails the first half
  (`Guarantees.RespelledIsNeverSubmitted`). `Samples.LateRequestIsReturnedAndStuck` is one that comes after
  the eighth second of its slot, succeeds and fails the second half (`Progress.LateIsNeverSubmitted`),
  although src/rpc/handlers.rs:262-264 announces its submission within the deadline.
* The repository's README.md (line 106) speaks of 8-second submission windows, but the deadline is read once
  for a slot, before its submissions run one after the other. `Deadline.PostsInTimeExactly` says when all
  POSTs are sure to leave in time; `Deadline.AcceptedAfterDeadline` is a message accepted 81 seconds late.
* A handler may return an error after its commitment is saved, exactly when the oracle fails, the slot's
  record cannot be opened or the total cost overflows (`Handlers.FailsAfterSaveExactly`);
  `Samples.OverflowFailsAfterSave` is such a run.
* A request whose slasher has no `0x` prefix passes validation, is signed (`Samples.UnprefixedIsSigned`), and
  is then refused by the table's CHECK (`Samples.UnprefixedIsRefused`). `Guarantees.SavesExactly` gives the
  outcome of every insert.
* A quote may exceed the price stored afterwards, exactly when both configured fee bounds are so far above
  the multiplier of the smallest estimate, 31,000 gas on an idle slot, that the rounded prices differ
  (`Guarantees.CommitmentQuotesNeverExceedExactly`).
* Before genesis a tick attempts slots 0 to 3 (`SlotClock.BeforeGenesis`).

## Model

| member | source | states |
|---|---|---|
| `Address.ParsesExactly` | src/crypto/mod.rs:222-231 | a text parses to given bytes if and only if, without one `0x` and in lower case, it is their encoding and their number is the expected one |
| `Address.SameBytesSameLower` | src/crypto/mod.rs:222-231 | two hexadecimal texts decode to the same bytes if and only if they differ in letter case only |
| `Address.NormalFormIsIdentity` | src/utils/address.rs:8-12 | for texts that parse as addresses, equal normal forms mean the same 20 bytes and conversely |
| `Address.UpperPrefixNeverParses` | src/utils/address.rs:8-12 | a text with the prefix `0X` never parses, though it normalises like the one with `0x` |
| `Address.ColumnAcceptsPrefixed` | migrations/001_create_commitments_table.sql:22-25 | a text that parses as an address passes the column's CHECK if and only if it starts with `0x` |
| `Address.EncodedColumn` | src/crypto/mod.rs:43-52 | text made by prefixing encoded bytes passes its column's CHECK and parses back to those bytes |
| `Address.EncodedDigits` | src/crypto/mod.rs:43-52 | each byte is written as two lower-case digits, the high one first |
| `Address.NormalizesExactly` | src/utils/address.rs:8-12 | one prefix `0x` or `0X` is dropped, capital letters become small ones, nothing else changes |
| `Address.MatchesExactly` | migrations/001_create_commitments_table.sql:22-24 | a text meets a column's pattern if and only if it is `0x` and that many characters out of 0-9, a-f and A-F |
| `Abi.DecodeEncode` | src/crypto/bls.rs:131-179 | every typed value, nested dynamic arrays and tuples included, is read back from its encoding whatever follows it |
| `Abi.EncodeAllInjective` | src/crypto/bls.rs:131-179 | parameter lists of one type have equal encodings if and only if they are equal |
| `Layout.BytesLayout` | src/crypto/bls.rs:131-179 | a byte string is its length, its bytes, and fewer than 32 zeros up to a whole number of words |
| `Layout.AddressLayout` | src/crypto/mod.rs:67-75 | an address is 12 zero bytes and its 20 bytes |
| `Layout.ValuesLayout` | src/crypto/bls.rs:131-179 | of any parameter list the heads stand in order, then the tails, without gaps: static values in their heads, for dynamic ones the position of their encoding |
| `Layout.WholeWords` | src/crypto/bls.rs:131-179 | every encoding is a whole number of 32-byte words |
| `Layout.StandardExample` | src/crypto/bls.rs:131-179 | the standard's own example of a byte string, a number and an array has the bytes the standard prints |
| `Layout.EncodableExactly` | src/crypto/mod.rs:67-96 | requests, commitments and delegations are encoded if and only if their addresses and hashes parse |
| `Layout.RequestLayout` | src/crypto/mod.rs:67-75 | the bytes of a request: type, offset 96, slasher behind zeros, and the payload with length and filling |
| `Layout.CommitmentLayout` | src/crypto/mod.rs:87-96 | the bytes of a commitment: type, offset 128, request hash, slasher behind zeros, and the payload |
| `Layout.DelegationLayout` | src/crypto/bls.rs:131-140 | the 320 bytes of a delegation: offsets 128 and 224, committer, slot, proposer, delegate |
| `Layout.ConstraintsLayout` | src/crypto/bls.rs:157-179 | the bytes of a constraints message: both keys, the slot, every constraint with type and payload and every receiver, in order, each where its offset says |
| `Preimages.RequestPreimageIdentifies` | src/crypto/mod.rs:43-75 | two encodable requests have one preimage if and only if type and payload agree and the slashers normalise alike |
| `Preimages.RequestHashExactly` | src/crypto/mod.rs:43-52 | a request has a hash if and only if its slasher is an address; it is `0x` and the lower-case digest of the encoded request |
| `Preimages.CommitmentPreimageIdentifies` | src/crypto/mod.rs:87-96 | likewise for commitments, request hashes compared as bytes |
| `Preimages.DelegationPreimageIdentifies` | src/crypto/bls.rs:131-140 | two delegation messages have one preimage if and only if all fields agree, the committers up to spelling |
| `Preimages.DecodeEncodeConstraints` | src/crypto/bls.rs:157-179 | a constraints message is read back from its encoding, for all field lengths |
| `Preimages.CalculateSigningRoot` | src/crypto/bls.rs:187-194 | the root is the hash of the four domain bytes followed by the message |
| `Preimages.ConstraintsPreimageIdentifies` | src/crypto/bls.rs:157-194 | two constraints preimages agree if and only if domain and message agree |
| `Preimages.ConstraintsAreNotDelegations` | src/crypto/bls.rs:81-194 | no constraints preimage equals a delegation preimage, whatever domain is configured |
| `Payload.EncodeInclusionPayloadRlp` | src/types/payload.rs:173-181 | appending two items to a stream gives the RLP form, which reads back as the payload |
| `Rlp.StringLayout` | src/types/payload.rs:173-181 | a byte below 0x80 stands for itself; other strings have a header of one byte from 0x80 on, or from 56 bytes on the size of the length and the shortest length |
| `Rlp.ListLayout` | src/types/payload.rs:173-181 | a list has such a header from 0xc0 on |
| `Rlp.KnownStrings` | src/types/payload.rs:173-181 | the well-known encodings of "dog", ["cat", "dog"], the empty string, 15 and 1024 |
| `Payload.RlpStream.AppendString` | src/types/payload.rs:173-181 | one item more in the list's payload, one fewer missing |
| `Payload.RlpStream.AppendInteger` | src/types/payload.rs:173-181 | an integer is appended as its shortest big-endian bytes |
| `Payload.ParseEncodeRlp` | src/types/payload.rs:139-181 | parsing the RLP form returns the payload, for every slot and transaction |
| `Payload.EncodeParseRlp` | src/types/payload.rs:139-181 | whatever the Appendix B reader parses is the RLP form of what it parses to |
| `Payload.RlpReadsBack` | src/types/payload.rs:63-86 | through the JSON-first parser too: no RLP form is taken for JSON, and its slot is extracted |
| `Payload.ParsedIsJsonOrRlp` | src/types/payload.rs:78-86 | with the Appendix B reader, bytes parse to a payload if and only if JSON reads them so or they are its RLP form |
| `Payload.ExtractsExactly` | src/types/payload.rs:63-125 | a slot is extracted if and only if it is that of a type-1 payload's JSON or RLP form or of a type-2 payload's JSON form |
| `Payload.EstimatesExactly` | src/services/fee_pricing.rs:183-227 | 31,000 and 16 per byte modulo 2^64 for type-1 payloads that read, else 50,000; 100,000 for type 2; nothing for other types |
| `Payload.EstimateAfterSlot` | src/services/fee_pricing.rs:183-227 | once a slot was extracted the fallback is out of reach and the estimate is 31,000 + 16 per byte if and only if that fits 64 bits |
| `Pricing.NaturalExponent` | src/db/slot_congestion_ops.rs:95-99 | every positive natural exponent is a curve the other results apply to |
| `Pricing.MultiplierIsCap` | src/db/slot_congestion_ops.rs:92-106 | with a positive limit the multiplier is 100 if and only if usage is at or over the limit or its power is at least 0.99 |
| `Pricing.MultiplierBelowCap` | src/db/slot_congestion_ops.rs:92-106 | below 100 it is the uncapped curve |
| `Pricing.MultiplierMonotone` | src/db/slot_congestion_ops.rs:64-119 | it never falls with gas, and rises strictly below the cap |
| `Pricing.MultiplierInExponent` | src/db/slot_congestion_ops.rs:64-119 | at fixed usage a larger exponent never charges more |
| `Pricing.PriceIsLeast` | src/db/slot_congestion_ops.rs:108-119 | the price is the least whole number not below base times multiplier, or the largest 64-bit one |
| `Pricing.SlotCongestion.New` | src/db/slot_congestion_ops.rs:38-52 | a new record has no gas, multiplier 1 and the base price |
| `Pricing.SlotCongestion.AddGasUsage` | src/db/slot_congestion_ops.rs:64-119 | the in-place update, every early return included, leaves exactly the curve's record for the saturated gas |
| `Pricing.AddGasGrows` | src/db/slot_congestion_ops.rs:64-119 | an update keeps slot, limit and base, never lowers gas or price, and keeps the record on the curve |
| `Pricing.AddGasTwice` | src/db/slot_congestion_ops.rs:64-119 | two updates are one with the saturated sum |
| `Pricing.PricedBounds` | src/db/slot_congestion_ops.rs:38-119 | the price of every such record is between the base and 100 times the base, saturated |
| `Pricing.RecordsExactly` | src/db/slot_congestion_ops.rs:38-119 | every field of a fresh record and of an updated one; the usage ratio times the limit is the gas |
| `Pricing.CalculateProjectedCongestion` | src/services/fee_pricing.rs:230-252 | the quote is the update of a copy, held within the configured bounds |
| `Pricing.BoundedExactly` | src/services/fee_pricing.rs:230-252 | a multiplier within the bounds stays, one below becomes the lower bound, one above the upper one, which wins when the bounds cross |
| `Pricing.ProjectsExactly` | src/services/fee_pricing.rs:230-252 | a quote is the updated record with the bounded multiplier and its price, and differs in nothing else |
| `Pricing.QuoteIsApplied` | src/services/fee_pricing.rs:230-252 | with bounds at most 1 and at least 100 the quote is exactly what the update stores |
| `Pricing.QuoteAtMostLaterPrice` | src/services/fee_pricing.rs:230-252 | unless the bounds raise this much gas above the curve, a quote from an earlier record is at most the price its own update stores |
| `Pricing.QuoteNeverExceedsExactly` | src/services/fee_pricing.rs:230-252 | for records of one limit and base and gas of at least any given amount, no quote exceeds the price its own update stores if and only if a fee bound is at most the multiplier of that amount, or rounding gives one price |
| `Pricing.QuoteAboveAppliedPrice` | src/services/fee_pricing.rs:230-252 | else that amount itself on an idle slot is quoted above what its update stores |
| `Pricing.BoundOfOneNeverRaises` | src/services/fee_pricing.rs:230-252 | a fee bound of at most 1 meets the condition for every amount, limit and base |
| `Guarantees.CommitmentQuotesNeverExceedExactly` | src/services/fee_pricing.rs:66-252 | no commitment of the gateway is quoted above what its update stores if and only if the condition holds at 31,000 gas, the estimate of an empty transaction |
| `CongestionTable.LoadStored` | src/db/slot_congestion_ops.rs:138-192 | nothing is lost by storing 64-bit values in signed columns |
| `CongestionTable.CongestionStore.GetOrCreate` | src/db/slot_congestion_ops.rs:138-192 | an existing row is returned unchanged, else a fresh one is inserted; an unrepresentable start time changes nothing |
| `CongestionTable.CongestionStore.UpdateGasUsage` | src/db/slot_congestion_ops.rs:258-330 | the row is replaced by its update, or nothing happens without a row |
| `CongestionTable.PriceNeverFalls` | src/db/slot_congestion_ops.rs:138-330 | over every run a row keeps base and limit, its price never falls and stays within its bounds |
| `CongestionTable.GasIsConserved` | src/db/slot_congestion_ops.rs:258-330 | after every run the gas is the capped sum of all updates of the slot |
| `CongestionTable.UpdatedGasUnordered` | src/db/slot_congestion_ops.rs:258-330 | that sum does not depend on the order of the updates |
| `CongestionTable.QuoteHoldsInEveryRun` | src/services/fee_pricing.rs:66-118 | unless the bounds raise it, a quote is at most the price finally stored, under every interleaving in between |
| `Commitments.CommitmentStore.SaveCommitment` | src/db/operations.rs:27-88 | inserts unless the hash is known or a CHECK refuses, and tells the three apart |
| `Commitments.CommitmentStore.CommitmentExists` | src/db/operations.rs:147-154 | true if and only if a row has the hash |
| `Commitments.CommitmentStore.GetCommitmentByHash` | src/db/operations.rs:101-137 | the commitment of the row with the hash, and one is found if and only if the existence check says so |
| `Commitments.CommitmentStore.GetUnprocessedForSlot` | src/db/operations.rs:203-239 | exactly the unprocessed rows of the slot in creation order, or an error for a slot beyond BIGINT |
| `Commitments.CommitmentStore.MarkProcessed` | src/db/operations.rs:248-266 | marks exactly the rows with one of the hashes and counts them |
| `Commitments.LookupFinds` | src/db/operations.rs:101-137 | with unique hashes a lookup returns the row's own commitment |
| `Commitments.LookupExists` | src/db/operations.rs:101-154 | a lookup finds a commitment if and only if the existence check finds the hash |
| `Commitments.SelectionMembers` | src/db/operations.rs:203-239 | a selection contains an entry if and only if it is that of an unprocessed row of the slot, and is in order of creation |
| `Commitments.ChecksExactly` | migrations/001_create_commitments_table.sql:21-25 | what the CHECKs accept: a positive type and three texts of their patterns |
| `Commitments.InsertsExactly` | src/db/operations.rs:27-88 | a row is added, not processed, if and only if the CHECKs hold and no row has the request hash; a failing CHECK is an error before that |
| `Commitments.SlotColumnExactly` | src/db/operations.rs:34-58 | the slot column is the payload's slot if there is one within BIGINT, else NULL |
| `Commitments.MarksExactly` | src/db/operations.rs:248-266 | an update marks exactly the rows with one of the request hashes and changes nothing else |
| `Commitments.HitsExactly` | src/db/operations.rs:248-266 | what is counted are the rows with one of the request hashes, processed before or not |
| `Submission.CreateConstraints` | src/services/constraint_submission.rs:475-530 | constraints and hashes of exactly the type-1 commitments whose slasher is spelled like the committer, in order |
| `Pipeline.RunInv` | src/services/constraint_submission.rs:296-352 | hashes stay unique, every batch holds selected rows of its slot and committer, and every processed row was accepted |
| `Pipeline.ProcessedWasDelivered` | src/services/constraint_submission.rs:296-352 | in every interleaving of overlapping ticks a processed row's payload was accepted for its slot |
| `Pipeline.UnprocessedIsSelectable` | src/services/constraint_submission.rs:475-530 | in every reachable state an unprocessed row is in any selection of its slot, and in the message made of it if and only if type and spelling match |
| `Pipeline.LateRowIsNotMarked` | src/db/operations.rs:248-266 | a row inserted after a tick's SELECT is never marked by that tick's UPDATE |
| `Order.ExactlyOnce` | src/services/constraint_submission.rs:296-352 | without overlap and with successful marks every delivered commitment is delivered once, and processed means delivered |
| `Order.OrderExactlyWithoutLateRows` | src/db/operations.rs:203-239 | such a run serves first come, first served, if and only if no row took effect late |
| `Order.MonotoneClockServesInOrder` | src/db/operations.rs:203-239 | it does whenever the creation times of the slot's and committer's rows are in insert order |
| `Order.DeliveredIsPrefixOfSaved` | src/services/constraint_submission.rs:296-352 | if besides no two of those times are equal, the delivered commitments are a prefix of the saved ones, whatever submissions failed between |
| `Order.ProcessedExactly` | src/services/constraint_submission.rs:296-352 | in every serial state a row is processed if and only if an accepted message other than the one being marked has carried it |
| `Order.ProcessedIsPrefixOfSaved` | src/services/constraint_submission.rs:296-352 | under the same condition the processed rows of a slot and committer are the first ones saved, in every serial state |
| `Samples.LateRowIsServedLast` | migrations/001_create_commitments_table.sql:1-30 | a gateway run of two requests for one slot, without overlapping ticks, in which the insert that began first takes effect and is delivered last |
| `Samples.SampleExists` | src/rpc/handlers.rs:157-276 | there is a gateway of the kind all the sample runs are about |
| `Ticks.Post` | src/api/constraints.rs:136-275 | it succeeds if and only if a 200 or 202 comes in time; the relay gets exactly the POSTs of its batch that it kept and the accepted one |
| `Ticks.ReceivedCopies` | src/api/constraints.rs:150-275 | what it gets are copies of the one batch, as many as it kept and one for an accepted POST |
| `Ticks.ParsesKeys` | src/services/constraint_submission.rs:174-185 | the builder keys are read if and only if each text is 48 bytes, each to its own key in the configured order |
| `Ticks.ProcessDelegationConstraints` | src/services/constraint_submission.rs:296-352 | it succeeds if and only if the SELECT does and either nothing waits or keys, signature, submission and update all work; exactly then its rows become processed; the relay gets nothing unless something waits and is signed, else exactly the kept POSTs of one message with the waiting rows |
| `Ticks.ProcessConstraintsForSlot` | src/services/constraint_submission.rs:239-278 | exactly the rows of the committers whose submission worked become processed; the relay gets exactly what it gets for the active delegations to our key, one after the other |
| `Ticks.ProcessPendingConstraints` | src/services/constraint_submission.rs:195-225 | the attempted slots are those of the clock; over the tick exactly the rows served in one of them become processed, and the relay gets exactly what it gets for those that are read, nothing for other slots |
| `Delegations.RespelledVerifies` | src/crypto/bls.rs:81-99 | a delegation verifies just as well with its committer spelled otherwise |
| `Delegations.VerifiesExactly` | src/crypto/bls.rs:81-99 | a delegation verifies if and only if the proposer's key passes the check on the hash of 0x0044656c and the encoded message |
| `Delegations.AcceptableExactly` | migrations/003_create_delegations_table.sql:22-29 | what verifies passes the CHECKs if and only if its slot fits a BIGINT and its committer starts with `0x` |
| `Delegations.DelegationStore.SaveDelegationsBatch` | src/db/delegation_ops.rs:396-461 | one bad signature or refused row keeps the whole batch out; else the keys returned are those of the new rows |
| `Delegations.DelegationStore.GetDelegationsForSlot` | src/db/delegation_ops.rs:83-136 | the active delegations of the slot, each once, read back as stored |
| `Delegations.DelegationStore.DeactivateExpired` | src/db/delegation_ops.rs:313-327 | deactivates exactly the active rows of earlier slots and counts them |
| `Delegations.FilterEligible` | src/services/delegation_polling.rs:219-272 | keeps those whose validator is known to be active and not slashed, and counts the others |
| `Delegations.DelegationStore.PollDelegationsForSlot` | src/services/delegation_polling.rs:275-364 | saves what is ours, verifies and is eligible, and returns how many rows are new |
| `Delegations.KeptNext` | src/services/delegation_polling.rs:219-364 | of a relay's answer exactly those are kept that are to our key, carry their proposer's signature, and whose own lookup finds the validator active and not slashed |
| `Delegations.PollsExactly` | src/services/delegation_polling.rs:275-364 | if all kept ones have a slot within BIGINT and a prefixed committer, the new rows hold kept delegations column by column and each kept one has a row with its proposer and slot; else nothing changes |
| `Delegations.ExpiresExactly` | src/db/delegation_ops.rs:313-327 | exactly the rows of slots before the current one become inactive |
| `Delegations.ExpiredExactly` | src/db/delegation_ops.rs:313-327 | what is counted are the rows that become inactive |
| `Delegations.DeactivatesExactly` | src/services/delegation_polling.rs:367-460 | exactly the rows of one proposer and slot become inactive |
| `Delegations.CleansExactly` | src/services/delegation_polling.rs:367-460 | a row stays active if and only if its slot is not past and its proposer is not known to be slashed or inactive |
| `Delegations.DelegationStore.CleanupExpiredDelegations` | src/services/delegation_polling.rs:367-460 | deactivates expired rows and those of validators known to be slashed or inactive, and no others |
| `Delegations.FirstWins` | src/db/delegation_ops.rs:396-461 | after a batch each key has its old row, else the batch's first delegation with that key |
| `Delegations.FirstForExactly` | src/db/delegation_ops.rs:396-461 | that delegation is the first of the batch with the proposer and slot |
| `Delegations.InsertsNothingExactly` | src/db/delegation_ops.rs:396-461 | a batch adds nothing if and only if every key is taken |
| `Delegations.RunSettles` | src/services/delegation_polling.rs:275-460 | over all runs: one row per proposer and slot, all verified for our key, contents fixed, deactivation final |
| `Delegations.RepollInsertsNothing` | src/services/delegation_polling.rs:275-364 | the same answer polled again inserts nothing unless a validator became eligible |
| `Delegations.AnswerIsSound` | src/db/delegation_ops.rs:83-136 | whatever is returned for a slot verifies, is ours and is for that slot, which fits a BIGINT |
| `Delegations.AnswersExactly` | src/db/delegation_ops.rs:83-136 | what is returned for a slot are the delegations whose columns an active row of the slot holds, each once |
| `Delegations.RowsAreSound` | src/services/delegation_polling.rs:275-460 | in every run each row is to our key, within BIGINT, and carries its own proposer's signature, and no two rows share proposer and slot |
| `Gateway.FirstMatch` | src/rpc/handlers.rs:51-69 | the first of the delegations that matches the slasher's normal form and the slot, or none if none matches |
| `Gateway.RunsPipeline` | src/rpc/handlers.rs:157-276 | a run of the gateway is a run of the pipeline, so its results hold with handlers and polls interleaved |
| `Gateway.RunInv` | src/rpc/handlers.rs:157-276 | the invariant of handlers, tables, charges and ticks holds in every reachable state |
| `Guarantees.SavedIsAuthorized` | src/rpc/handlers.rs:46-236 | every saved commitment is of type 1 for a whitelisted slasher, its hash is the digest of its encoded request, its signature is ours on the digest of the encoded commitment, its column is its payload's slot, and a delegation row for that slot to our key and address carries the signature of a proposer the beacon node has named |
| `Guarantees.ReturnedIsAuthorized` | src/rpc/handlers.rs:157-276 | so is every commitment a handler returns, and it is in the table |
| `Guarantees.BeaconHasNamed` | src/rpc/handlers.rs:91-133 | a proposer counts as named for a slot only if the beacon node's answer to a handler confirming that slot named it |
| `Guarantees.OneSuccessPerRequest` | src/rpc/handlers.rs:189-243 | of concurrent handlers with one request hash at most one succeeds |
| `Guarantees.LookupIsStable` | src/rpc/handlers.rs:279-302 | ever after, a lookup returns exactly what that handler returned |
| `Guarantees.AcceptableExactly` | migrations/001_create_commitments_table.sql:21-25 | what a handler signs passes the table's CHECKs if and only if its slasher starts with `0x` |
| `Guarantees.SavesExactly` | src/rpc/handlers.rs:232-243 | a signed commitment is inserted if and only if its slasher has the prefix and its hash is new; else the handler fails and no row is added |
| `Guarantees.QuoteFailsExactly` | src/services/fee_pricing.rs:66-118 | the quote step of a handler whose record is open fails if and only if the total cost overflows, and its row is already saved |
| `Guarantees.GasIsConserved` | src/rpc/handlers.rs:245-260 | a slot's gas is the capped sum of its charges, with at most one charge per handler |
| `Guarantees.ChargeIsExact` | src/services/fee_pricing.rs:136-227 | every charge belongs to a saved commitment of its slot and is 31,000 + 16 per byte if and only if that fits 64 bits |
| `Guarantees.QuoteHolds` | src/services/fee_pricing.rs:66-150 | unless the bounds raise it, the price quoted to a handler is at most the one its update stores, whatever others do in between |
| `Guarantees.RelayedIsAuthorized` | src/services/constraint_submission.rs:239-352 | every constraint the relay accepted carries the payload of a saved, authorized commitment, under a delegation row of the message's proposer, delegate and slot with that proposer's signature |
| `Guarantees.RespelledIsNeverSubmitted` | src/services/constraint_submission.rs:498-510 | a saved commitment whose slasher is spelled like no committer for its slot is never delivered nor marked |
| `Progress.DeliverableExactly` | src/services/constraint_submission.rs:195-352 | in every reachable state a free tick can deliver and mark a waiting commitment by its own steps if and only if an active delegation for its slot is spelled like its slasher and the slot is at most three ahead and eight seconds old by the tick's clock |
| `Progress.LateIsNeverSubmitted` | src/services/constraint_submission.rs:203-222 | a commitment no tick is at work on after the eighth second of its slot is never submitted nor marked, whatever requests, polls and ticks follow |
| `Samples.RespelledIsReturnedAndStuck` | src/rpc/handlers.rs:55-60 | a gateway run in which a request with a respelled slasher succeeds and no tick can deliver its commitment, whatever slots it attempts |
| `Samples.LateRequestIsReturnedAndStuck` | src/rpc/handlers.rs:157-276 | a gateway run in which a request comes after its slot's eighth second, is spelled like an active delegation and succeeds, and is never submitted in any continuation |
| `Samples.UnprefixedIsSigned` | src/rpc/handlers.rs:203-230 | a gateway run in which a commitment whose slasher has no prefix is signed |
| `Samples.UnprefixedIsRefused` | src/rpc/handlers.rs:232-236 | the same request left alone fails without a row |
| `Samples.OverflowFailsAfterSave` | src/rpc/handlers.rs:245-254 | a gateway run in which the total cost overflows, the request fails and its row stays |
| `Handlers.FindMatch` | src/rpc/handlers.rs:57-60 | the search returns the first match |
| `Handlers.CalculateFeeForCommitment` | src/services/fee_pricing.rs:66-118 | opens the slot's record and quotes from the stored base price, with an error for an overflowing total |
| `Handlers.FeeIsExact` | src/services/fee_pricing.rs:81-106 | there is a fee if and only if final price times gas fits 64 bits; its cost is that product, its base price the oracle's, its final price that of the bounded multiplier on the record's base |
| `Handlers.OracleOnlyOpens` | src/services/fee_pricing.rs:73-106 | once a slot has a record, another oracle price changes the reported base and nothing else |
| `Handlers.FeeIsStored` | src/services/fee_pricing.rs:66-150 | with bounds outside the curve the final price is at least the stored base and is what the slot's next update with this gas stores |
| `Guarantees.AskingOpens` | src/rpc/handlers.rs:344-403 | a fee request opens the slot's record at the oracle's price unless it has one or its start is not a time the database can hold |
| `Handlers.VerifyDelegationAuthority` | src/rpc/handlers.rs:46-154 | for an answer of the SELECT it signs if and only if the first match verifies, its proposer is the scheduled one and its committer is our address; the signature is that of the request's commitment |
| `Handlers.CommitmentRequestHandler` | src/rpc/handlers.rs:157-276 | for an answer of its SELECT, its own answer and the tables it leaves are the request's outcome and the end of the fixed run of its steps in the gateway |
| `Handlers.OutcomeOfRun` | src/rpc/handlers.rs:157-276 | from every state the fixed run of a handler's steps ends in that outcome, other handlers, ticks and relay aside |
| `Handlers.SucceedsExactly` | src/rpc/handlers.rs:157-276 | an uninterrupted request succeeds if and only if it is valid, its hash is unknown, the first match yields a signature, the slasher has its prefix, the oracle answers, the record opens and the cost fits; it returns that signature |
| `Handlers.SignatureExactly` | src/rpc/handlers.rs:46-223 | the handler signs if and only if the first delegation for the slasher and slot carries its proposer's signature, names the scheduled proposer and has our address; the signature is ours on the request's commitment |
| `Handlers.RequestSucceedsExactly` | src/rpc/handlers.rs:157-276 | an uninterrupted request succeeds if and only if every one of the handler's conditions holds, each written out, and returns our signature on its commitment |
| `Handlers.SuccessLeaves` | src/rpc/handlers.rs:232-276 | a success leaves one row more, for its slot and unprocessed, and the slot's record with the estimated gas added |
| `Handlers.FailsAfterSaveExactly` | src/rpc/handlers.rs:245-276 | after its insert a handler left alone fails if and only if the oracle fails, the record cannot be opened or the total cost overflows; its row stays |
| `Relay.SubmitConstraints` | src/api/constraints.rs:136-275 | posts until the first outcome that is not retryable or the attempts are used up; the answer is that of the last POST |
| `Relay.AcceptedExactly` | src/api/constraints.rs:150-275 | it is accepted if and only if a 200 or 202 comes within the attempts after retryable outcomes only |
| `Relay.AcceptedByStatus` | src/api/constraints.rs:150-275 | it is accepted if and only if one of the attempts, at least one, ends in 200 or 202 and every earlier one in no answer or a status that is neither of these nor a client error other than 408 and 429 |
| `Relay.ReactsExactly` | src/api/constraints.rs:168-265 | which statuses end a submission well, which end it, and which are slept on: no answer, 429, and server errors but 504 |
| `Relay.SleepsExactly` | src/api/constraints.rs:182-255 | each attempt slept on adds its delay and no other does: 200 ms, doubled up to the eighth attempt, 30 seconds from the ninth on |
| `Relay.SleepIsBounded` | src/api/constraints.rs:62-82 | a client that the constructor accepts sleeps at most 111,000 ms, a bound that is reached |
| `Deadline.LastPostBounded` | src/api/constraints.rs:136-275 | of any number of submissions one after the other no POST leaves later than the bound made of timeouts and all delays |
| `Deadline.LatestOfTenAttempts` | src/api/constraints.rs:62-82 | with ten attempts that bound is 111 seconds of sleep for each submission but the last and 81 for the last, besides timeouts and preparation |
| `Deadline.PostsInTimeExactly` | src/services/constraint_submission.rs:203-222 | every POST of a slot is sure to leave within its window if and only if the check came so early that a POST at the bound would |
| `Deadline.AcceptedAfterDeadline` | src/services/constraint_submission.rs:203-222 | a slot checked in the last second of its window whose message the relay accepts 81 seconds after the deadline |
| `StatusCache.ValidatorStatusCache.GetStatus` | src/services/validator_status_cache.rs:52-65 | a lookup as a run of the cache's steps; a failed one leaves the cache unchanged |
| `StatusCache.LooksExactly` | src/services/validator_status_cache.rs:52-65 | a lookup is answered from the cache if and only if an entry was stored less than the lifetime ago, else it fetches |
| `StatusCache.FillsExactly` | src/services/validator_status_cache.rs:52-65 | a fetched answer is what the node reported, is returned, and replaces the key's entry |
| `StatusCache.AnswersAreCurrent` | src/services/validator_status_cache.rs:34-65 | for every beacon history and interleaving an answer was reported no longer ago than the lifetime plus its fetch |
| `StatusCache.CollectBatch` | src/services/validator_status_cache.rs:80-103 | a batch succeeds if and only if all lookups do, with exactly the input keys and their own results |
| `StatusCache.BatchIsCurrent` | src/services/validator_status_cache.rs:80-103 | each status of a batch is current in that sense |
| `SlotClock.AttemptedExactly` | src/services/constraint_submission.rs:203-222 | with a clock that moves during the tick, which slots are attempted |
| `SlotClock.AttemptedAscends` | src/services/constraint_submission.rs:203-222 | a tick attempts its slots in ascending order and none twice |
| `SlotClock.WindowIsExact` | src/types/beacon.rs:155-215 | with one clock value from genesis on, slot s is attempted if and only if it lies from 36 seconds before to 8 seconds after the slot's start |
| `SlotClock.TicksOfSlot` | src/services/constraint_submission.rs:72-84 | every slot from the third on is attempted by 22 or 23 consecutive two-second ticks and no others |
| `SlotClock.BeforeGenesis` | src/types/beacon.rs:155-163 | before genesis the first four slots are attempted |
| `SlotClock.DeadlineExactly` | src/types/beacon.rs:193-195 | the deadline is eight seconds into the slot, modulo 2^64 |

## Left out

- Floating point: prices are exact reals, so rounding of f64 is not modelled and the `is_finite` guards have no counterpart; a price need not agree bit for bit.
- HTTP, the JSON-RPC server, scheduling, logging, metrics and Postgres connectivity: their outcomes are parameters.
- Keccak, BLS and ECDSA: parameters without assumptions; injectivity is claimed of preimages only.
- JSON beyond the first byte, and TOML configuration and its validation.
- Payload.EncodeParseRlp: the library's reader may accept inputs that the Appendix B reader refuses, such as bytes after the list.
- Payload.ParsedIsJsonOrRlp: likewise, for the half that says what parses is an encoding.
- Handlers.CommitmentRequestHandler: errors of the database are not among its cases; in the gateway they are the steps that abort a handler or skip its gas update.
- Progress.DeliverableExactly: for tables of at most 2^63 - 1 rows, which is all a vector can hold, and clocks that do not go back within a tick nor overflow; the clock bounds what a tick starts, while `Gateway.Starting` by itself may come at any time, so that the safety results hold without a clock.
- Handlers.CalculateFeeForCommitment: the gas oracle's price clamping and the logging of the fee are not part of this model.
- CongestionTable.CongestionStore.GetOrCreate: insert and read-back are one step, and the time of the last update is not modelled.
- Commitments.CommitmentStore.SaveCommitment: the row's UUID is a number chosen by the caller; in the gateway it is the handler's.
- Deadline.PostsInTimeExactly: the time of statements and signatures is one number for each submission, and only the POSTs of one slot are timed.
- StatusCache.CollectBatch: the lookups of a batch are steps of the state machine; the joining of futures itself is not modelled.
- Ticks.ProcessPendingConstraints: one tick without interruption; overlapping ticks are the steps of `Pipeline`.
- The fee handler's payload encoding and answer; that it opens the slot's record is the step `Asking` of the gateway.
- `slots_handler`, `submit_constraint_now`, statistics queries, `save_delegation` for single delegations and the delegation queries no service uses.
- Deleting old `slot_congestion` rows: the price and gas results are about rows that are not deleted.
- The poll's loop over slots, endpoint fallback in src/api/beacon.rs, the retry in src/api/reth.rs and epoch helpers.
- The tables of migrations 004 and 005, test fixtures, mock services and scripts.
