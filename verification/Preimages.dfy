/** The byte strings the gateway hashes and signs (src/crypto/mod.rs, src/crypto/bls.rs).
    Keccak is a parameter: everything here is about its input. */
module Preimages {
  import opened Machine
  import opened Types
  import Address
  import opened Abi

  const DELEGATION_DOMAIN: Domain := [0x00, 0x44, 0x65, 0x6c]

  const REQUEST_TYPES := [UintType, BytesType, AddressType]
  const COMMITMENT_TYPES := [UintType, BytesType, FixedBytesType, AddressType]
  const DELEGATION_TYPES := [BytesType, BytesType, AddressType, UintType]
  const CONSTRAINT_TYPE := TupleType([UintType, BytesType])
  const CONSTRAINTS_TYPES := [BytesType, BytesType, UintType, ArrayType(CONSTRAINT_TYPE), ArrayType(BytesType)]

  // ---- Commitment requests and commitments ----

  function RequestTokens(request: CommitmentRequest, slasher: bytes): (ts: seq<Token>)
    requires |slasher| == 20
    ensures HaveTypes(ts, REQUEST_TYPES)
  {
    [Uint(request.commitmentType), Bytes(request.payload), Token.Address(slasher)]
  }

  function CommitmentTokens(commitment: Commitment, hash: bytes, slasher: bytes): (ts: seq<Token>)
    requires |hash| == 32 && |slasher| == 20
    ensures HaveTypes(ts, COMMITMENT_TYPES)
  {
    [Uint(commitment.commitmentType), Bytes(commitment.payload), FixedBytes(hash), Token.Address(slasher)]
  }

  function EncodeRequest(request: CommitmentRequest): Option<bytes> {
    var slasher :- Address.ParseHexBytes(request.slasher, 20);
    Some(EncodeAll(RequestTokens(request, slasher), REQUEST_TYPES))
  }

  function EncodeCommitment(commitment: Commitment): Option<bytes> {
    var hash :- Address.ParseHexBytes(commitment.requestHash, 32);
    var slasher :- Address.ParseHexBytes(commitment.slasher, 20);
    Some(EncodeAll(CommitmentTokens(commitment, hash, slasher), COMMITMENT_TYPES))
  }

  /** `0x` and the lower-case digest of the encoded request. */
  function RequestHash(keccak: bytes -> Digest, request: CommitmentRequest): Option<string> {
    var encoded :- EncodeRequest(request);
    Some("0x" + Address.EncodeHex(keccak(encoded)))
  }

  /** A request has a hash exactly when its slasher is an address: the prefix and, in lower case, the digest
      of its encoding. */
  lemma RequestHashExactly(keccak: bytes -> Digest, request: CommitmentRequest, hash: string)
    ensures RequestHash(keccak, request) == Some(hash)
       <==> && Address.ParseHexBytes(request.slasher, 20).Some? && EncodeRequest(request).Some?
            && "0x" <= hash && Address.LowerAll(hash[2..]) == hash[2..]
            && Address.ParseHexBytes(hash, 32) == Some(keccak(EncodeRequest(request).value))
  {
    if EncodeRequest(request).Some? {
      var digest := keccak(EncodeRequest(request).value);
      Address.ParsesExactly(hash, 32, digest);
      Address.EncodedIsLower(digest);
      assert ("0x" + Address.EncodeHex(digest))[2..] == Address.EncodeHex(digest);
      if "0x" <= hash {
        assert hash == "0x" + hash[2..];
      }
    }
  }

  /** No Rust byte string makes an encoding too long for its offsets. */
  lemma BytesSize(b: Buffer)
    ensures |Encode(Bytes(b), BytesType)| <= TWO_64
  {
  }

  lemma RequestFits(request: CommitmentRequest, slasher: bytes)
    requires |slasher| == 20
    ensures |EncodeAll(RequestTokens(request, slasher), REQUEST_TYPES)| < LIMIT
  {
    BytesSize(request.payload);
    FlatBound(RequestTokens(request, slasher), REQUEST_TYPES, TWO_64);
  }

  /** Equal preimages mean equal requests, up to how the slasher's address is spelled. */
  lemma RequestPreimageIdentifies(a: CommitmentRequest, b: CommitmentRequest)
    requires EncodeRequest(a).Some? && EncodeRequest(b).Some?
    ensures EncodeRequest(a) == EncodeRequest(b)
       <==> && a.commitmentType == b.commitmentType
            && a.payload == b.payload
            && Address.NormalizeAddress(a.slasher) == Address.NormalizeAddress(b.slasher)
  {
    var x, y := Address.ParseHexBytes(a.slasher, 20).value, Address.ParseHexBytes(b.slasher, 20).value;
    Address.NormalFormIsIdentity(a.slasher, b.slasher);
    RequestFits(a, x);
    EncodeAllInjective(RequestTokens(a, x), RequestTokens(b, y), REQUEST_TYPES);
    assert RequestTokens(a, x)[1] == Bytes(a.payload) && RequestTokens(b, y)[1] == Bytes(b.payload);
    assert RequestTokens(a, x)[2] == Token.Address(x) && RequestTokens(b, y)[2] == Token.Address(y);
  }

  lemma CommitmentFits(commitment: Commitment, hash: bytes, slasher: bytes)
    requires |hash| == 32 && |slasher| == 20
    ensures |EncodeAll(CommitmentTokens(commitment, hash, slasher), COMMITMENT_TYPES)| < LIMIT
  {
    BytesSize(commitment.payload);
    FlatBound(CommitmentTokens(commitment, hash, slasher), COMMITMENT_TYPES, TWO_64);
  }

  lemma CommitmentPreimageIdentifies(a: Commitment, b: Commitment)
    requires EncodeCommitment(a).Some? && EncodeCommitment(b).Some?
    ensures EncodeCommitment(a) == EncodeCommitment(b)
       <==> && a.commitmentType == b.commitmentType
            && a.payload == b.payload
            && Address.ParseHexBytes(a.requestHash, 32) == Address.ParseHexBytes(b.requestHash, 32)
            && Address.NormalizeAddress(a.slasher) == Address.NormalizeAddress(b.slasher)
  {
    var x, y := Address.ParseHexBytes(a.slasher, 20).value, Address.ParseHexBytes(b.slasher, 20).value;
    var h, k := Address.ParseHexBytes(a.requestHash, 32).value, Address.ParseHexBytes(b.requestHash, 32).value;
    var ts, us := CommitmentTokens(a, h, x), CommitmentTokens(b, k, y);
    Address.NormalFormIsIdentity(a.slasher, b.slasher);
    CommitmentFits(a, h, x);
    EncodeAllInjective(ts, us, COMMITMENT_TYPES);
    assert ts[1] == Bytes(a.payload) && us[1] == Bytes(b.payload);
    assert ts[2] == FixedBytes(h) && us[2] == FixedBytes(k);
    assert ts[3] == Token.Address(x) && us[3] == Token.Address(y);
  }

  // ---- Delegations ----

  function EncodeDelegation(message: DelegationMessage): Option<bytes> {
    var committer :- Address.ParseHexBytes(message.committer, 20);
    Some(EncodeAll(DelegationTokens(message, committer), DELEGATION_TYPES))
  }

  function DelegationTokens(message: DelegationMessage, committer: bytes): (ts: seq<Token>)
    requires |committer| == 20
    ensures HaveTypes(ts, DELEGATION_TYPES)
  {
    [Bytes(message.proposer), Bytes(message.delegate), Token.Address(committer), Uint(message.slot)]
  }

  lemma DelegationFits(message: DelegationMessage, committer: bytes)
    requires |committer| == 20
    ensures |EncodeAll(DelegationTokens(message, committer), DELEGATION_TYPES)| < LIMIT
  {
    BytesSize(message.proposer);
    BytesSize(message.delegate);
    FlatBound(DelegationTokens(message, committer), DELEGATION_TYPES, TWO_64);
  }

  lemma DelegationPreimageIdentifies(a: DelegationMessage, b: DelegationMessage)
    requires EncodeDelegation(a).Some? && EncodeDelegation(b).Some?
    ensures EncodeDelegation(a) == EncodeDelegation(b)
       <==> && a.proposer == b.proposer
            && a.delegate == b.delegate
            && a.slot == b.slot
            && Address.NormalizeAddress(a.committer) == Address.NormalizeAddress(b.committer)
  {
    var x, y := Address.ParseHexBytes(a.committer, 20).value, Address.ParseHexBytes(b.committer, 20).value;
    var ts, us := DelegationTokens(a, x), DelegationTokens(b, y);
    Address.NormalFormIsIdentity(a.committer, b.committer);
    DelegationFits(a, x);
    EncodeAllInjective(ts, us, DELEGATION_TYPES);
    assert ts[1] == Bytes(a.delegate) && us[1] == Bytes(b.delegate);
    assert ts[2] == Token.Address(x) && us[2] == Token.Address(y);
    assert ts[3] == Uint(a.slot) && us[3] == Uint(b.slot);
  }

  // ---- Constraints ----

  function ConstraintToken(c: Constraint): Token {
    Tuple([Uint(c.constraintType), Bytes(c.payload)])
  }

  function ConstraintItems(constraints: ConstraintList): seq<Token> {
    seq(|constraints|, i requires 0 <= i < |constraints| => ConstraintToken(constraints[i]))
  }

  function KeyItems(keys: KeyList): seq<Token> {
    seq(|keys|, i requires 0 <= i < |keys| => Bytes(keys[i]))
  }

  function ConstraintsTokens(message: ConstraintsMessage): (ts: seq<Token>)
    ensures HaveTypes(ts, CONSTRAINTS_TYPES)
  {
    ConstraintItemsTyped(message.constraints);
    KeyItemsTyped(message.receivers);
    [Bytes(message.proposer), Bytes(message.delegate), Uint(message.slot),
     Array(ConstraintItems(message.constraints)), Array(KeyItems(message.receivers))]
  }

  lemma ConstraintItemsTyped(constraints: ConstraintList)
    ensures HasType(Array(ConstraintItems(constraints)), ArrayType(CONSTRAINT_TYPE))
  {
    forall c: Constraint
      ensures HasType(ConstraintToken(c), CONSTRAINT_TYPE)
    {
      assert HaveTypes([Uint(c.constraintType), Bytes(c.payload)], [UintType, BytesType]);
    }
  }

  lemma KeyItemsTyped(keys: KeyList)
    ensures HasType(Array(KeyItems(keys)), ArrayType(BytesType))
  {
  }

  function EncodeConstraints(message: ConstraintsMessage): bytes {
    EncodeAll(ConstraintsTokens(message), CONSTRAINTS_TYPES)
  }

  /** What a constraint or a receiver token stands for; `None` for tokens no message produces. */
  function ConstraintOf(t: Token): Option<Constraint> {
    if t.Tuple? && |t.fields| == 2 && t.fields[0].Uint? && t.fields[0].value < TWO_64
       && t.fields[1].Bytes? && |t.fields[1].data| <= 0x7FFF_FFFF_FFFF_FFFF
    then Some(Constraint(t.fields[0].value, t.fields[1].data))
    else None
  }

  function ConstraintsOf(ts: seq<Token>): Option<seq<Constraint>> {
    if ts == [] then Some([])
    else
      var first :- ConstraintOf(ts[0]);
      var rest :- ConstraintsOf(ts[1..]);
      Some([first] + rest)
  }

  function KeysOf(ts: seq<Token>): Option<seq<PublicKey>> {
    if ts == [] then Some([])
    else if ts[0].Bytes? && |ts[0].data| == 48 then
      var rest :- KeysOf(ts[1..]);
      Some([ts[0].data] + rest)
    else None
  }

  /** The left inverse of `EncodeConstraints`. */
  function DecodeConstraints(d: bytes): Option<ConstraintsMessage> {
    var ts :- DecodeAll(CONSTRAINTS_TYPES, MaxDepth(CONSTRAINTS_TYPES), d, 0);
    if |ts| != 5 || !ts[0].Bytes? || !ts[1].Bytes? || !ts[2].Uint? || !ts[3].Array? || !ts[4].Array? then None
    else
      var constraints :- ConstraintsOf(ts[3].items);
      var receivers :- KeysOf(ts[4].items);
      if |ts[0].data| == 48 && |ts[1].data| == 48 && ts[2].value < TWO_64
         && |constraints| <= 0x7FFF_FFFF_FFFF_FFFF && |receivers| <= 0x7FFF_FFFF_FFFF_FFFF
      then Some(ConstraintsMessage(ts[0].data, ts[1].data, ts[2].value, constraints, receivers))
      else None
  }

  lemma {:induction false} ConstraintsOfTokens(ts: seq<Token>, cs: seq<Constraint>)
    requires |ts| == |cs| && forall i :: 0 <= i < |cs| ==> ts[i] == ConstraintToken(cs[i])
    ensures ConstraintsOf(ts) == Some(cs)
  {
    if cs != [] {
      ConstraintsOfTokens(ts[1..], cs[1..]);
      assert cs == [cs[0]] + cs[1..];
    }
  }

  lemma {:induction false} KeysOfTokens(ts: seq<Token>, keys: seq<PublicKey>)
    requires |ts| == |keys| && forall i :: 0 <= i < |keys| ==> ts[i] == Bytes(keys[i])
    ensures KeysOf(ts) == Some(keys)
  {
    if keys != [] {
      KeysOfTokens(ts[1..], keys[1..]);
      assert keys == [keys[0]] + keys[1..];
    }
  }

  lemma ConstraintSize(c: Constraint)
    ensures HasType(ConstraintToken(c), CONSTRAINT_TYPE)
    ensures |Encode(ConstraintToken(c), CONSTRAINT_TYPE)| <= 4 * TWO_64
  {
    BytesSize(c.payload);
    FlatBound([Uint(c.constraintType), Bytes(c.payload)], CONSTRAINT_TYPE.parts, TWO_64);
  }

  /** Far above the size of any array of byte strings, far below the limit of the offsets. */
  const BIG: nat := 0x1_0000_0000_0000_0000_0000_0000_0000_0000_0000_0000

  lemma ProductBound(x: nat, y: nat, a: nat, b: nat)
    requires x <= a && y <= b
    ensures x * y <= a * b
  {
    assert x * y <= a * y;
    assert a * y <= a * b;
  }

  lemma ArraySize(items: seq<Token>, element: Type)
    requires |items| <= 0x7FFF_FFFF_FFFF_FFFF
    requires HeadSize(element) == WORD && HaveTypes(items, Repeat(element, |items|))
    requires forall i :: 0 <= i < |items| ==> |Encode(items[i], element)| <= 4 * TWO_64
    ensures |Encode(Array(items), ArrayType(element))| <= BIG
  {
    FlatBound(items, Repeat(element, |items|), 4 * TWO_64);
    ProductBound(|items|, WORD + 4 * TWO_64, TWO_64, 5 * TWO_64);
  }

  lemma ConstraintItemsSize(constraints: ConstraintList)
    ensures HasType(Array(ConstraintItems(constraints)), ArrayType(CONSTRAINT_TYPE))
    ensures |Encode(Array(ConstraintItems(constraints)), ArrayType(CONSTRAINT_TYPE))| <= BIG
  {
    var items := ConstraintItems(constraints);
    ConstraintItemsTyped(constraints);
    forall i | 0 <= i < |items|
      ensures |Encode(items[i], CONSTRAINT_TYPE)| <= 4 * TWO_64
    {
      ConstraintSize(constraints[i]);
    }
    ArraySize(items, CONSTRAINT_TYPE);
  }

  lemma KeyItemsSize(keys: KeyList)
    ensures HasType(Array(KeyItems(keys)), ArrayType(BytesType))
    ensures |Encode(Array(KeyItems(keys)), ArrayType(BytesType))| <= BIG
  {
    KeyItemsTyped(keys);
    ArraySize(KeyItems(keys), BytesType);
  }

  lemma ConstraintsFit(message: ConstraintsMessage)
    ensures |EncodeConstraints(message)| < LIMIT
  {
    ConstraintItemsSize(message.constraints);
    KeyItemsSize(message.receivers);
    BytesSize(message.proposer);
    BytesSize(message.delegate);
    FlatBound(ConstraintsTokens(message), CONSTRAINTS_TYPES, BIG);
  }

  /** The encoding of a constraints message can be read back, for every message. */
  lemma DecodeEncodeConstraints(message: ConstraintsMessage)
    ensures DecodeConstraints(EncodeConstraints(message)) == Some(message)
  {
    var ts := ConstraintsTokens(message);
    ConstraintsFit(message);
    DecodeEncodeAll(ts, CONSTRAINTS_TYPES, MaxDepth(CONSTRAINTS_TYPES), []);
    assert EncodeConstraints(message) + [] == EncodeConstraints(message);
    ConstraintsOfTokens(ts[3].items, message.constraints);
    KeysOfTokens(ts[4].items, message.receivers);
  }

  // ---- Signing roots ----

  /** What is hashed into a signing root. */
  function SigningPreimage(domain: Domain, message: bytes): bytes {
    domain + message
  }

  method CalculateSigningRoot(keccak: bytes -> Digest, message: bytes, domain: Domain) returns (root: Digest)
    ensures root == keccak(domain + message)
  {
    var combined: bytes := [];
    combined := combined + domain;
    combined := combined + message;
    assert combined == domain + message;
    root := keccak(combined);
  }

  /** Two constraints preimages agree only for the same domain and the same message. */
  lemma ConstraintsPreimageIdentifies(d: Domain, e: Domain, a: ConstraintsMessage, b: ConstraintsMessage)
    ensures SigningPreimage(d, EncodeConstraints(a)) == SigningPreimage(e, EncodeConstraints(b)) <==> d == e && a == b
  {
    SplitAppend(d, EncodeConstraints(a), e, EncodeConstraints(b));
    DecodeEncodeConstraints(a);
    DecodeEncodeConstraints(b);
  }

  /** No constraints preimage is a delegation preimage, whichever domain the gateway is configured
      with: besides the domain, the first offset tells five parameters from four. */
  lemma ConstraintsAreNotDelegations(d: Domain, a: ConstraintsMessage, m: DelegationMessage)
    requires EncodeDelegation(m).Some?
    ensures SigningPreimage(d, EncodeConstraints(a)) != SigningPreimage(DELEGATION_DOMAIN, EncodeDelegation(m).value)
  {
    var committer := Address.ParseHexBytes(m.committer, 20).value;
    SplitAppend(d, EncodeConstraints(a), DELEGATION_DOMAIN, EncodeDelegation(m).value);
    FirstOffset(ConstraintsTokens(a), CONSTRAINTS_TYPES);
    FirstOffset(DelegationTokens(m, committer), DELEGATION_TYPES);
  }
}
