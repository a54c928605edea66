/** Recursive-length prefix of byte strings and of lists of them (Yellow Paper, Appendix B). */
module Rlp {
  import opened Machine
  import opened BigEndian

  /** One byte for up to 55 bytes of data, else the length of the length and the length. */
  function Header(base: nat, length: nat): (h: bytes)
    requires base == 0x80 || base == 0xC0
    requires length < TWO_64
  {
    if length <= 55 then [base + length]
    else
      LengthWidth(length);
      [base + 55 + |Shortest(length)|] + Shortest(length)
  }

  function Prefixed(base: nat, data: bytes): bytes
    requires base == 0x80 || base == 0xC0
    requires |data| < TWO_64
  {
    Header(base, |data|) + data
  }

  lemma LengthWidth(n: nat)
    requires n < TWO_64
    ensures |Shortest(n)| <= 8
  {
    Pow256Of8();
    ShortestWidth(n, 8);
  }

  function EncodeString(data: bytes): bytes
    requires |data| < TWO_64
  {
    if |data| == 1 && data[0] < 0x80 then data else Prefixed(0x80, data)
  }

  function EncodeList(payload: bytes): bytes
    requires |payload| < TWO_64
  {
    Prefixed(0xC0, payload)
  }

  /** Size of the header at the start of `d` and length it announces; only shortest headers count. */
  function ReadHeader(base: nat, d: bytes): Option<(nat, nat)>
    requires base == 0x80 || base == 0xC0
  {
    if d == [] || !(base <= d[0] < base + 64) then None
    else if d[0] <= base + 55 then Some((1, d[0] - base))
    else
      var size := 1 + d[0] - base - 55;
      if |d| < size || d[1] == 0 || FromBytes(d[1..size]) <= 55 then None
      else Some((size, FromBytes(d[1..size])))
  }

  /** The data after a header of the given kind, and what follows it. */
  function ReadPrefixed(base: nat, d: bytes): Option<(bytes, bytes)>
    requires base == 0x80 || base == 0xC0
  {
    var (size, length) :- ReadHeader(base, d);
    if |d| < size + length then None else Some((d[size..size + length], d[size + length..]))
  }

  function ReadString(d: bytes): Option<(bytes, bytes)> {
    if d != [] && d[0] < 0x80 then Some((d[..1], d[1..]))
    else
      var (data, rest) :- ReadPrefixed(0x80, d);
      if |data| == 1 && data[0] < 0x80 then None else Some((data, rest))
  }

  function ReadList(d: bytes): Option<(bytes, bytes)> {
    ReadPrefixed(0xC0, d)
  }

  lemma ReadHeaderOf(base: nat, length: nat, rest: bytes)
    requires base == 0x80 || base == 0xC0
    requires length < TWO_64
    ensures ReadHeader(base, Header(base, length) + rest) == Some((|Header(base, length)|, length))
  {
    var header := Header(base, length);
    var d := header + rest;
    assert d[0] == header[0];
    if length > 55 {
      LengthWidth(length);
      FromShortest(length);
      assert d[1] == header[1];
      assert d[1..|header|] == Shortest(length);
    }
  }

  lemma ReadPrefixedOf(base: nat, data: bytes, rest: bytes)
    requires base == 0x80 || base == 0xC0
    requires |data| < TWO_64
    ensures ReadPrefixed(base, Prefixed(base, data) + rest) == Some((data, rest))
  {
    var header := Header(base, |data|);
    var d := header + data + rest;
    ReadHeaderOf(base, |data|, data + rest);
    assert d == header + (data + rest);
    assert d[|header|..|header| + |data|] == data && d[|header| + |data|..] == rest;
  }

  lemma HeaderOfRead(base: nat, d: bytes)
    requires base == 0x80 || base == 0xC0
    requires ReadHeader(base, d).Some?
    ensures var (size, length) := ReadHeader(base, d).value;
      length < TWO_64 && size <= |d| && Header(base, length) == d[..size]
  {
    var (size, length) := ReadHeader(base, d).value;
    if d[0] <= base + 55 {
      assert d[..1] == [d[0]];
    } else {
      ShortestFrom(d[1..size]);
      Pow256Of8();
      ShortestWidth(length, 8);
      assert d[..size] == [d[0]] + d[1..size];
    }
  }

  /** The reader takes nothing but what the writer makes. */
  lemma PrefixedOfRead(base: nat, d: bytes)
    requires base == 0x80 || base == 0xC0
    requires ReadPrefixed(base, d).Some?
    ensures var (data, rest) := ReadPrefixed(base, d).value; |data| < TWO_64 && Prefixed(base, data) + rest == d
  {
    var (size, length) := ReadHeader(base, d).value;
    HeaderOfRead(base, d);
    assert d == d[..size] + d[size..size + length] + d[size + length..];
  }

  lemma ReadStringOf(data: bytes, rest: bytes)
    requires |data| < TWO_64
    ensures ReadString(EncodeString(data) + rest) == Some((data, rest))
  {
    var d := EncodeString(data) + rest;
    if |data| == 1 && data[0] < 0x80 {
      assert d[..1] == data && d[1..] == rest;
    } else {
      ReadPrefixedOf(0x80, data, rest);
      assert d[0] >= 0x80;
    }
  }

  lemma StringOfRead(d: bytes)
    requires ReadString(d).Some?
    ensures var (data, rest) := ReadString(d).value; |data| < TWO_64 && EncodeString(data) + rest == d
  {
    if d != [] && d[0] < 0x80 {
      assert d == d[..1] + d[1..];
    } else {
      PrefixedOfRead(0x80, d);
    }
  }

  // ---- The bytes ----

  /** The data behind a header of this kind: one byte up to 55, else the size of the length and the length,
      most significant byte first. */
  ghost predicate IsPrefixed(e: bytes, base: nat, data: bytes) {
    if |data| <= 55 then e == [base + |data|] + data
    else
      && |e| > 1 + |data| && e[1] != 0 && e[|e| - |data|..] == data
      && e[0] == base + 55 + (|e| - |data| - 1) && FromBytes(e[1..|e| - |data|]) == |data|
  }

  lemma PrefixedLayout(base: nat, data: bytes)
    requires base == 0x80 || base == 0xC0
    requires |data| < TWO_64
    ensures IsPrefixed(Prefixed(base, data), base, data)
  {
    var header, e := Header(base, |data|), Prefixed(base, data);
    assert e == header + data && e[|header|..] == data;
    if |data| > 55 {
      FromShortest(|data|);
      assert e[1] == header[1] && e[1..|header|] == Shortest(|data|);
    }
  }

  /** A byte below 0x80 stands for itself, other strings have a header from 0x80 on. */
  lemma StringLayout(data: bytes)
    requires |data| < TWO_64
    ensures if |data| == 1 && data[0] < 0x80 then EncodeString(data) == data
            else IsPrefixed(EncodeString(data), 0x80, data)
  {
    PrefixedLayout(0x80, data);
  }

  lemma ListLayout(payload: bytes)
    requires |payload| < TWO_64
    ensures IsPrefixed(EncodeList(payload), 0xC0, payload)
  {
    PrefixedLayout(0xC0, payload);
  }

  /** Examples of the Yellow Paper's scheme: "dog", ["cat", "dog"], the empty string, 15 and 1024. */
  lemma KnownStrings()
    ensures EncodeString([0x64, 0x6f, 0x67]) == [0x83, 0x64, 0x6f, 0x67]
    ensures EncodeList([0x83, 0x63, 0x61, 0x74, 0x83, 0x64, 0x6f, 0x67])
         == [0xc8, 0x83, 0x63, 0x61, 0x74, 0x83, 0x64, 0x6f, 0x67]
    ensures EncodeString([]) == [0x80] && EncodeString(Shortest(15)) == [0x0f]
    ensures EncodeString(Shortest(1024)) == [0x82, 0x04, 0x00]
  {
    assert Shortest(0) == [] && Shortest(4) == [4] && Shortest(15) == [15] && Shortest(1024) == [4, 0];
  }
}

/** Commitment payloads (src/types/payload.rs). The JSON reader is a parameter of which only the
    first byte of what it accepts is used. */
module Payload {
  import opened Machine
  import opened BigEndian
  import opened Types
  import Rlp

  /** Bytes a JSON text can start with (RFC 8259, section 2): white space, or the first byte of
      an object, array, string, number, `true`, `false` or `null`. */
  predicate StartsJson(b: byte) {
    b in {0x20, 0x09, 0x0A, 0x0D, 0x7B, 0x5B, 0x22, 0x2D, 0x74, 0x66, 0x6E} || 0x30 <= b <= 0x39
  }

  /** A reader of payloads of type `T` in JSON: some bytes give a payload, and those are JSON texts. */
  type JsonReader<!T> = f: bytes -> Option<T> | forall d :: f(d).Some? ==> d != [] && StartsJson(d[0])
    witness (d: bytes) => None

  datatype ExecutionPayload = ExecutionPayload(slot: u64, transaction: Buffer, expectedStateRoot: Digest)

  /** The two JSON readers the parser tries. */
  datatype Json = Json(inclusion: JsonReader<InclusionPayload>, execution: JsonReader<ExecutionPayload>)

  // ---- RLP form ----

  function RlpFields(payload: InclusionPayload): (fields: bytes)
    ensures |fields| < TWO_64
  {
    FieldSizes(payload);
    Rlp.EncodeString(Shortest(payload.slot)) + Rlp.EncodeString(payload.signedTx)
  }

  function EncodeRlp(payload: InclusionPayload): bytes {
    Rlp.EncodeList(RlpFields(payload))
  }

  /** A two-element list of an integer below 2^64 in shortest form and a byte string. */
  function ParseRlp(d: bytes): Option<InclusionPayload> {
    var (fields, after) :- Rlp.ReadList(d);
    var (slot, others) :- Rlp.ReadString(fields);
    var (signedTx, end) :- Rlp.ReadString(others);
    if after == [] && end == [] && |slot| <= 8 && (slot == [] || slot[0] != 0) && |signedTx| <= 0x7FFF_FFFF_FFFF_FFFF
    then
      SlotFits(slot);
      Some(InclusionPayload(FromBytes(slot), signedTx))
    else None
  }

  lemma FieldSizes(payload: InclusionPayload)
    ensures |Shortest(payload.slot)| <= 8
    ensures |Rlp.EncodeString(Shortest(payload.slot))| + |Rlp.EncodeString(payload.signedTx)| < TWO_64
  {
    Rlp.LengthWidth(payload.slot);
    Rlp.LengthWidth(|payload.signedTx|);
  }

  lemma SlotFits(slot: bytes)
    requires |slot| <= 8 && (slot == [] || slot[0] != 0)
    ensures FromBytes(slot) < TWO_64
  {
    ShortestFrom(slot);
    Pow256Of8();
    ShortestWidth(FromBytes(slot), 8);
  }

  lemma ParseEncodeRlp(payload: InclusionPayload)
    ensures ParseRlp(EncodeRlp(payload)) == Some(payload)
  {
    FieldSizes(payload);
    FromShortest(payload.slot);
    ParseParts(Shortest(payload.slot), Rlp.EncodeString(payload.signedTx), payload.signedTx);
  }

  lemma ParseParts(slot: bytes, last: bytes, signedTx: Buffer)
    requires |slot| <= 8 && (slot == [] || slot[0] != 0)
    requires last == Rlp.EncodeString(signedTx) && |Rlp.EncodeString(slot) + last| < TWO_64
    ensures FromBytes(slot) < TWO_64
    ensures ParseRlp(Rlp.EncodeList(Rlp.EncodeString(slot) + last)) == Some(InclusionPayload(FromBytes(slot), signedTx))
  {
    var fields := Rlp.EncodeString(slot) + last;
    var d := Rlp.EncodeList(fields);
    Rlp.ReadStringOf(slot, last);
    assert last + [] == last by { Append(last); }
    Rlp.ReadStringOf(signedTx, []);
    assert d + [] == d by { Append(d); }
    Rlp.ReadPrefixedOf(0xC0, fields, []);
    ParseSteps(d, fields, slot, last, signedTx);
  }

  lemma Append(b: bytes)
    ensures b + [] == b
  {
  }

  lemma ParseSteps(d: bytes, fields: bytes, slot: bytes, last: bytes, signedTx: Buffer)
    requires Rlp.ReadList(d) == Some((fields, []))
    requires Rlp.ReadString(fields) == Some((slot, last))
    requires Rlp.ReadString(last) == Some((signedTx, []))
    requires |slot| <= 8 && (slot == [] || slot[0] != 0)
    ensures FromBytes(slot) < TWO_64
    ensures ParseRlp(d) == Some(InclusionPayload(FromBytes(slot), signedTx))
  {
    SlotFits(slot);
  }

  lemma EncodeParseRlp(d: bytes)
    requires ParseRlp(d).Some?
    ensures EncodeRlp(ParseRlp(d).value) == d
  {
    var (fields, after) := Rlp.ReadList(d).value;
    var (slot, others) := Rlp.ReadString(fields).value;
    var (signedTx, end) := Rlp.ReadString(others).value;
    Rlp.PrefixedOfRead(0xC0, d);
    Rlp.StringOfRead(fields);
    Rlp.StringOfRead(others);
    ShortestFrom(slot);
    var payload := ParseRlp(d).value;
    assert others == Rlp.EncodeString(signedTx) + [] == Rlp.EncodeString(signedTx);
    assert RlpFields(payload) == fields;
    assert d == Rlp.EncodeList(fields) + [] == Rlp.EncodeList(fields);
  }

  /** `RlpStream`: a list of a declared number of items, appended one at a time. */
  class RlpStream {
    var payload: bytes
    var missing: nat

    constructor NewList(count: nat)
      ensures payload == [] && missing == count
    {
      payload := [];
      missing := count;
    }

    method AppendString(data: bytes)
      requires missing > 0 && |data| < TWO_64
      modifies this
      ensures payload == old(payload) + Rlp.EncodeString(data)
      ensures missing == old(missing) - 1
    {
      payload := payload + Rlp.EncodeString(data);
      missing := missing - 1;
    }

    method AppendInteger(n: u64)
      requires missing > 0
      modifies this
      ensures |Shortest(n)| < TWO_64
      ensures payload == old(payload) + Rlp.EncodeString(Shortest(n))
      ensures missing == old(missing) - 1
    {
      Rlp.LengthWidth(n);
      AppendString(Shortest(n));
    }

    method Out() returns (out: bytes)
      requires missing == 0 && |payload| < TWO_64
      ensures out == Rlp.EncodeList(payload)
    {
      out := Rlp.EncodeList(payload);
    }
  }

  method EncodeInclusionPayloadRlp(payload: InclusionPayload) returns (out: bytes)
    ensures out == EncodeRlp(payload)
    ensures ParseRlp(out) == Some(payload)
  {
    ParseEncodeRlp(payload);
    ghost var first := Rlp.EncodeString(Shortest(payload.slot));
    var stream := new RlpStream.NewList(2);
    stream.AppendInteger(payload.slot);
    assert stream.payload == [] + first == first;
    stream.AppendString(payload.signedTx);
    assert stream.payload == RlpFields(payload);
    out := stream.Out();
  }

  // ---- Dispatch ----

  /** JSON first, then RLP. */
  function ParseInclusion(json: Json, d: bytes): Option<InclusionPayload> {
    if json.inclusion(d).Some? then json.inclusion(d) else ParseRlp(d)
  }

  function ExtractSlot(json: Json, commitmentType: u64, d: bytes): Option<u64> {
    if commitmentType == 1 then
      var payload :- ParseInclusion(json, d);
      Some(payload.slot)
    else if commitmentType == 2 then
      var payload :- json.execution(d);
      Some(payload.slot)
    else None
  }

  /** An RLP payload is never mistaken for JSON: it reads back through the parser unchanged. */
  lemma RlpReadsBack(json: Json, payload: InclusionPayload)
    ensures ParseInclusion(json, EncodeRlp(payload)) == Some(payload)
    ensures ExtractSlot(json, 1, EncodeRlp(payload)) == Some(payload.slot)
  {
    ParseEncodeRlp(payload);
    assert EncodeRlp(payload)[0] >= 0xC0;
  }

  /** No two readings: what JSON does not take is read as a payload exactly when it is that
      payload's RLP form. */
  lemma ParsedIsJsonOrRlp(json: Json, d: bytes, payload: InclusionPayload)
    ensures ParseInclusion(json, d) == Some(payload) <==> json.inclusion(d) == Some(payload) || d == EncodeRlp(payload)
  {
    RlpReadsBack(json, payload);
    ParseEncodeRlp(payload);
    if json.inclusion(d).None? && ParseRlp(d).Some? {
      EncodeParseRlp(d);
    }
  }

  /** The slot of a type-1 payload is that of its JSON or RLP form, that of a type-2 payload that of its JSON
      form; nothing else has a slot. */
  lemma ExtractsExactly(json: Json, commitmentType: u64, d: bytes, slot: u64)
    ensures ExtractSlot(json, commitmentType, d) == Some(slot)
       <==> || (commitmentType == 1
                && exists tx: Buffer :: json.inclusion(d) == Some(InclusionPayload(slot, tx))
                                        || d == EncodeRlp(InclusionPayload(slot, tx)))
            || (commitmentType == 2 && json.execution(d).Some? && json.execution(d).value.slot == slot)
  {
    if p :| commitmentType == 1 && ParseInclusion(json, d) == Some(p) {
      ParsedIsJsonOrRlp(json, d, p);
    }
    forall tx: Buffer
      ensures ParseInclusion(json, d) == Some(InclusionPayload(slot, tx))
         <==> json.inclusion(d) == Some(InclusionPayload(slot, tx)) || d == EncodeRlp(InclusionPayload(slot, tx))
    {
      ParsedIsJsonOrRlp(json, d, InclusionPayload(slot, tx));
    }
  }

  // ---- Gas ----

  /** 21,000 base gas, 16 per byte of the transaction and 10,000 overhead; release builds wrap. */
  function TransactionGas(length: nat): u64 {
    (31_000 + length * 16) % TWO_64
  }

  /** 50,000 when the payload does not parse; 100,000 for type 2; other types have no estimate. */
  function EstimateGas(json: Json, commitmentType: u64, d: bytes): Option<u64> {
    if commitmentType == 1 then
      match ParseInclusion(json, d)
      case Some(payload) => Some(TransactionGas(|payload.signedTx|))
      case None => Some(50_000)
    else if commitmentType == 2 then Some(100_000)
    else None
  }

  lemma GasIsExact(length: nat)
    ensures TransactionGas(length) == 31_000 + 16 * length <==> 31_000 + 16 * length < TWO_64
  {
    var exact := 31_000 + length * 16;
    assert exact < TWO_64 ==> exact % TWO_64 == exact;
    assert 0 <= exact % TWO_64 < TWO_64;
  }

  /** Once a slot was extracted the fallback is out of reach, and the estimate is exact exactly
      when the true amount fits 64 bits. */
  lemma EstimateAfterSlot(json: Json, d: bytes)
    requires ExtractSlot(json, 1, d).Some?
    ensures ParseInclusion(json, d).Some?
    ensures var exact := 31_000 + 16 * |ParseInclusion(json, d).value.signedTx|;
      EstimateGas(json, 1, d) == Some(exact) <==> exact < TWO_64
  {
    GasIsExact(|ParseInclusion(json, d).value.signedTx|);
  }

  /** Type 1 costs 31,000 and 16 per byte modulo 2^64, or 50,000 when it is neither JSON nor RLP; type 2
      costs 100,000 whatever it is; other types have no estimate. */
  lemma EstimatesExactly(json: Json, commitmentType: u64, d: bytes)
    ensures EstimateGas(json, commitmentType, d).Some? <==> commitmentType == 1 || commitmentType == 2
    ensures commitmentType == 2 ==> EstimateGas(json, 2, d) == Some(100_000)
    ensures forall p :: json.inclusion(d) == Some(p) || d == EncodeRlp(p) ==>
              EstimateGas(json, 1, d).Some? && IsRemainder(EstimateGas(json, 1, d).value, 31_000 + 16 * |p.signedTx|)
    ensures json.inclusion(d).None? && (forall p :: d != EncodeRlp(p)) ==> EstimateGas(json, 1, d) == Some(50_000)
  {
    forall p
      ensures ParseInclusion(json, d) == Some(p) <==> json.inclusion(d) == Some(p) || d == EncodeRlp(p)
      ensures IsRemainder(TransactionGas(|p.signedTx|), 31_000 + 16 * |p.signedTx|)
    {
      ParsedIsJsonOrRlp(json, d, p);
      RemainderOf(31_000 + |p.signedTx| * 16);
    }
  }

  /** The two numbers agree modulo 2^64. */
  ghost predicate IsRemainder(r: u64, n: nat) {
    exists k: nat :: n == k * TWO_64 + r
  }

  lemma RemainderOf(n: nat)
    ensures IsRemainder(n % TWO_64, n)
  {
    assert n == (n / TWO_64) * TWO_64 + n % TWO_64;
  }
}
