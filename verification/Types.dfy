/** The gateway's messages (src/types/rpc.rs, src/types/delegation.rs, src/types/payload.rs). */
module Types {
  import opened Machine

  type PublicKey = k: bytes | |k| == 48 witness seq(48, i => 0)
  type BlsSignature = s: bytes | |s| == 96 witness seq(96, i => 0)
  type Digest = d: bytes | |d| == 32 witness seq(32, i => 0)
  type Domain = d: bytes | |d| == 4 witness [0, 0, 0, 0]

  datatype CommitmentRequest = CommitmentRequest(commitmentType: u64, payload: Buffer, slasher: string)

  datatype Commitment = Commitment(commitmentType: u64, payload: Buffer, requestHash: string, slasher: string)

  datatype SignedCommitment = SignedCommitment(commitment: Commitment, signature: string)

  datatype DelegationMessage = DelegationMessage(proposer: PublicKey, delegate: PublicKey, committer: string, slot: u64)

  datatype SignedDelegation = SignedDelegation(message: DelegationMessage, signature: BlsSignature)

  datatype Constraint = Constraint(constraintType: u64, payload: Buffer)

  type ConstraintList = s: seq<Constraint> | |s| <= 0x7FFF_FFFF_FFFF_FFFF
  type KeyList = s: seq<PublicKey> | |s| <= 0x7FFF_FFFF_FFFF_FFFF

  datatype ConstraintsMessage = ConstraintsMessage(
    proposer: PublicKey, delegate: PublicKey, slot: u64, constraints: ConstraintList, receivers: KeyList)

  datatype InclusionPayload = InclusionPayload(slot: u64, signedTx: Buffer)

  datatype ValidatorInfo = ValidatorInfo(isActive: bool, isSlashed: bool, validatorIndex: u64)
}
