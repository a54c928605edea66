/** Contract ABI encoding ("Formal Specification of the Encoding", Solidity Contract ABI
    Specification) of the tokens the gateway uses, and a decoder proved to be its left inverse. */
module Abi {
  import opened Machine
  import opened BigEndian

  datatype Type =
    | UintType
    | AddressType
    | FixedBytesType
    | BytesType
    | ArrayType(element: Type)
    | TupleType(parts: seq<Type>)

  datatype Token =
    | Uint(value: nat)
    | Address(address: bytes)
    | FixedBytes(fixed: bytes)
    | Bytes(data: bytes)
    | Array(items: seq<Token>)
    | Tuple(fields: seq<Token>)

  const WORD := 32

  /** Every offset and length of an encoding below this size fits a word. */
  const LIMIT: nat := 0x1_0000_0000_0000_0000_0000_0000_0000_0000_0000_0000_0000_0000_0000_0000_0000_0000

  ghost predicate HasType(t: Token, ty: Type) {
    match (t, ty)
    case (Uint(n), UintType) => n < LIMIT
    case (Address(b), AddressType) => |b| == 20
    case (FixedBytes(b), FixedBytesType) => |b| == WORD
    case (Bytes(b), BytesType) => true
    case (Array(items), ArrayType(element)) => HaveTypes(items, Repeat(element, |items|))
    case (Tuple(fields), TupleType(parts)) => parts != [] && HaveTypes(fields, parts)
    case _ => false
  }

  ghost predicate HaveTypes(ts: seq<Token>, tys: seq<Type>) {
    && |ts| == |tys|
    && forall i :: 0 <= i < |ts| ==> HasType(ts[i], tys[i])
  }

  function Repeat(ty: Type, count: nat): (tys: seq<Type>)
    ensures |tys| == count
    ensures forall i :: 0 <= i < count ==> tys[i] == ty
  {
    seq(count, i => ty)
  }

  predicate Dynamic(ty: Type) {
    match ty
    case BytesType => true
    case ArrayType(_) => true
    case TupleType(parts) => exists i :: 0 <= i < |parts| && Dynamic(parts[i])
    case _ => false
  }

  /** Bytes a component takes in the head: an offset when dynamic, else its whole encoding. */
  function HeadSize(ty: Type): nat {
    if Dynamic(ty) then WORD
    else match ty
      case TupleType(parts) => HeadsSize(parts)
      case _ => WORD
  }

  function HeadsSize(tys: seq<Type>): nat {
    if tys == [] then 0 else HeadSize(tys[0]) + HeadsSize(tys[1..])
  }

  function Word(n: nat): (w: bytes)
    ensures |w| == WORD
  {
    ToBytes(n, WORD)
  }

  lemma FromWord(n: nat)
    requires n < LIMIT
    ensures FromBytes(Word(n)) == n
  {
    assert Pow256(8) == 0x1_0000_0000_0000_0000;
    assert Pow256(16) == 0x1_0000_0000_0000_0000_0000_0000_0000_0000;
    assert Pow256(24) == 0x1_0000_0000_0000_0000_0000_0000_0000_0000_0000_0000_0000_0000;
    assert Pow256(32) == LIMIT;
    FromToBytes(n, WORD);
  }

  function Zeros(count: nat): (z: bytes)
    ensures |z| == count
  {
    seq(count, i => 0)
  }

  /** Zero bytes that fill the last word of a byte string. */
  function Padding(length: nat): bytes {
    Zeros((WORD - length % WORD) % WORD)
  }

  function Encode(t: Token, ty: Type): bytes
    requires HasType(t, ty)
    decreases t, 1
  {
    match t
    case Uint(n) => Word(n)
    case Address(b) => Zeros(12) + b
    case FixedBytes(b) => b
    case Bytes(b) => Word(|b|) + b + Padding(|b|)
    case Array(items) => Word(|items|) + EncodeAll(items, Repeat(ty.element, |items|))
    case Tuple(fields) => EncodeAll(fields, ty.parts)
  }

  /** Heads followed by tails; offsets count from the first head. */
  function EncodeAll(ts: seq<Token>, tys: seq<Type>): bytes
    requires HaveTypes(ts, tys)
    decreases ts, 1
  {
    Heads(ts, tys, HeadsSize(tys)) + Tails(ts, tys)
  }

  function Heads(ts: seq<Token>, tys: seq<Type>, offset: nat): bytes
    requires HaveTypes(ts, tys)
    decreases ts, 0
  {
    if ts == [] then []
    else if Dynamic(tys[0]) then
      Word(offset) + Heads(ts[1..], tys[1..], offset + |Encode(ts[0], tys[0])|)
    else
      Encode(ts[0], tys[0]) + Heads(ts[1..], tys[1..], offset)
  }

  function Tails(ts: seq<Token>, tys: seq<Type>): bytes
    requires HaveTypes(ts, tys)
    decreases ts, 0
  {
    if ts == [] then []
    else (if Dynamic(tys[0]) then Encode(ts[0], tys[0]) else []) + Tails(ts[1..], tys[1..])
  }

  // ---- Decoding ----

  function Depth(ty: Type): nat {
    match ty
    case ArrayType(element) => 1 + Depth(element)
    case TupleType(parts) => 1 + MaxDepth(parts)
    case _ => 0
  }

  /** All types nest at most this deep. */
  predicate Shallow(tys: seq<Type>, depth: nat) {
    forall i :: 0 <= i < |tys| ==> Depth(tys[i]) <= depth
  }

  function MaxDepth(tys: seq<Type>): (d: nat)
    ensures Shallow(tys, d)
  {
    if tys == [] then 0
    else
      var rest := MaxDepth(tys[1..]);
      assert forall i :: 0 < i < |tys| ==> tys[i] == tys[1..][i - 1];
      if Depth(tys[0]) > rest then Depth(tys[0]) else rest
  }

  /** Reads one value of type `ty` at the start of `d`; whatever follows it is ignored. */
  function Decode(ty: Type, d: bytes): Option<Token>
    decreases Depth(ty), 0
  {
    if ty.TupleType? then
      var fields :- DecodeAll(ty.parts, MaxDepth(ty.parts), d, 0);
      Some(Tuple(fields))
    else if |d| < WORD then None
    else if ty.UintType? then Some(Uint(FromBytes(d[..WORD])))
    else if ty.AddressType? then Some(Address(d[12..WORD]))
    else if ty.FixedBytesType? then Some(FixedBytes(d[..WORD]))
    else if ty.BytesType? then
      var length := FromBytes(d[..WORD]);
      if |d| < WORD + length then None else Some(Bytes(d[WORD..WORD + length]))
    else
      var items :- DecodeAll(Repeat(ty.element, FromBytes(d[..WORD])), Depth(ty.element), d[WORD..], 0);
      Some(Array(items))
  }

  /** Reads the components whose heads start at `pos` of `d`. */
  function DecodeAll(tys: seq<Type>, depth: nat, d: bytes, pos: nat): Option<seq<Token>>
    requires Shallow(tys, depth)
    decreases depth, |tys| + 1
  {
    if tys == [] then Some([])
    else if |d| < pos + HeadSize(tys[0]) then None
    else if !Dynamic(tys[0]) then
      var first :- Decode(tys[0], d[pos..]);
      var rest :- DecodeAll(tys[1..], depth, d, pos + HeadSize(tys[0]));
      Some([first] + rest)
    else
      var offset := FromBytes(d[pos..pos + WORD]);
      if |d| < offset then None
      else
        var first :- Decode(tys[0], d[offset..]);
        var rest :- DecodeAll(tys[1..], depth, d, pos + WORD);
        Some([first] + rest)
  }

  // ---- The decoder inverts the encoder ----

  /** `part` stands in `d` at `pos`. */
  ghost predicate Stands(part: bytes, d: bytes, pos: nat) {
    pos + |part| <= |d| && d[pos..pos + |part|] == part
  }

  lemma StandsSplit(a: bytes, b: bytes, d: bytes, pos: nat)
    requires Stands(a + b, d, pos)
    ensures Stands(a, d, pos) && Stands(b, d, pos + |a|)
  {
    var whole := d[pos..pos + |a + b|];
    assert d[pos..pos + |a|] == whole[..|a|] == (a + b)[..|a|] == a;
    assert d[pos + |a|..pos + |a| + |b|] == whole[|a|..] == (a + b)[|a|..] == b;
  }

  lemma StandsRest(part: bytes, d: bytes, pos: nat)
    requires Stands(part, d, pos)
    ensures d[pos..] == part + d[pos + |part|..]
  {
    assert d[pos..] == d[pos..pos + |part|] + d[pos + |part|..];
  }

  lemma {:induction false} HeadsLength(ts: seq<Token>, tys: seq<Type>, offset: nat)
    requires HaveTypes(ts, tys)
    ensures |Heads(ts, tys, offset)| == HeadsSize(tys)
    decreases ts, 0
  {
    if ts != [] {
      if Dynamic(tys[0]) {
        HeadsLength(ts[1..], tys[1..], offset + |Encode(ts[0], tys[0])|);
      } else {
        StaticLength(ts[0], tys[0]);
        HeadsLength(ts[1..], tys[1..], offset);
      }
    }
  }

  lemma {:induction false} StaticLength(t: Token, ty: Type)
    requires HasType(t, ty) && !Dynamic(ty)
    ensures |Encode(t, ty)| == HeadSize(ty)
    decreases t, 1
  {
    if t.Tuple? {
      HeadsLength(t.fields, ty.parts, HeadsSize(ty.parts));
      NoTails(t.fields, ty.parts);
    }
  }

  lemma {:induction false} NoTails(ts: seq<Token>, tys: seq<Type>)
    requires HaveTypes(ts, tys)
    requires forall i :: 0 <= i < |tys| ==> !Dynamic(tys[i])
    ensures Tails(ts, tys) == []
  {
    if ts != [] {
      NoTails(ts[1..], tys[1..]);
    }
  }

  lemma {:induction false} HeadPositive(t: Token, ty: Type)
    requires HasType(t, ty)
    ensures HeadSize(ty) >= WORD
    decreases t
  {
    if t.Tuple? && !Dynamic(ty) {
      HeadPositive(t.fields[0], ty.parts[0]);
    }
  }

  /** An array has no more items than its encoding has bytes, so their number fits a word. */
  lemma {:induction false} CountFits(items: seq<Token>, tys: seq<Type>)
    requires HaveTypes(items, tys)
    ensures |items| <= HeadsSize(tys)
  {
    if items != [] {
      HeadPositive(items[0], tys[0]);
      CountFits(items[1..], tys[1..]);
    }
  }

  lemma WordPrefix(n: nat, tail: bytes, rest: bytes)
    requires n < LIMIT
    ensures var d := Word(n) + tail + rest;
      FromBytes(d[..WORD]) == n && d[WORD..] == tail + rest
  {
    var word := Word(n);
    var d := word + tail + rest;
    assert d[..WORD] == word;
    FromWord(n);
  }

  lemma DecodeBytes(b: bytes, rest: bytes)
    requires |Encode(Bytes(b), BytesType)| < LIMIT
    ensures Decode(BytesType, Encode(Bytes(b), BytesType) + rest) == Some(Bytes(b))
  {
    WordPrefix(|b|, b + Padding(|b|), rest);
    var d := Encode(Bytes(b), BytesType) + rest;
    assert d == Word(|b|) + (b + Padding(|b|)) + rest;
    assert d[WORD..WORD + |b|] == b;
  }

  /** Reading back an encoded value, whatever follows it. */
  lemma {:induction false} DecodeEncode(t: Token, ty: Type, rest: bytes)
    requires HasType(t, ty)
    requires |Encode(t, ty)| < LIMIT
    ensures Decode(ty, Encode(t, ty) + rest) == Some(t)
    decreases t, 1
  {
    match t
    case Uint(n) =>
      WordPrefix(n, [], rest);
      assert Word(n) + [] == Word(n);
    case Address(b) =>
      assert (Zeros(12) + b + rest)[12..WORD] == b;
    case FixedBytes(b) =>
      assert (b + rest)[..WORD] == b;
    case Bytes(b) =>
      DecodeBytes(b, rest);
    case Array(items) =>
      var tys := Repeat(ty.element, |items|);
      HeadsLength(items, tys, HeadsSize(tys));
      CountFits(items, tys);
      WordPrefix(|items|, EncodeAll(items, tys), rest);
      DecodeEncodeAll(items, tys, Depth(ty.element), rest);
    case Tuple(fields) =>
      DecodeEncodeAll(fields, ty.parts, MaxDepth(ty.parts), rest);
  }

  lemma {:induction false} DecodeEncodeAll(ts: seq<Token>, tys: seq<Type>, depth: nat, rest: bytes)
    requires HaveTypes(ts, tys)
    requires |EncodeAll(ts, tys)| < LIMIT
    requires Shallow(tys, depth)
    ensures DecodeAll(tys, depth, EncodeAll(ts, tys) + rest, 0) == Some(ts)
    decreases ts, 1
  {
    var heads, tails := Heads(ts, tys, HeadsSize(tys)), Tails(ts, tys);
    var d := heads + tails + rest;
    HeadsLength(ts, tys, HeadsSize(tys));
    assert d == EncodeAll(ts, tys) + rest;
    assert Stands(heads, d, 0);
    assert Stands(tails, d, |heads|);
    DecodeStanding(ts, tys, depth, d, 0, |heads|);
  }

  /** The heads from the first pending component on stand at `pos`, their tails at `offset`. */
  lemma {:induction false} DecodeStanding(
      ts: seq<Token>, tys: seq<Type>, depth: nat, d: bytes, pos: nat, offset: nat)
    requires HaveTypes(ts, tys)
    requires Shallow(tys, depth)
    requires Stands(Heads(ts, tys, offset), d, pos) && pos + |Heads(ts, tys, offset)| < LIMIT
    requires Stands(Tails(ts, tys), d, offset) && offset + |Tails(ts, tys)| < LIMIT
    ensures DecodeAll(tys, depth, d, pos) == Some(ts)
    decreases ts, 0, 2
  {
    if ts != [] {
      if Dynamic(tys[0]) {
        DecodeDynamic(ts, tys, depth, d, pos, offset);
      } else {
        DecodeStatic(ts, tys, depth, d, pos, offset);
      }
    }
  }

  /** The first component, read where its encoding stands. */
  lemma {:induction false} DecodeFirst(ts: seq<Token>, tys: seq<Type>, d: bytes, at: nat)
    requires HaveTypes(ts, tys) && ts != []
    requires var part := Encode(ts[0], tys[0]);
      |part| < LIMIT && at + |part| <= |d| && d[at..] == part + d[at + |part|..]
    ensures Decode(tys[0], d[at..]) == Some(ts[0])
    decreases ts, 0, 0
  {
    DecodeEncode(ts[0], tys[0], d[at + |Encode(ts[0], tys[0])|..]);
  }

  lemma {:induction false} DecodeDynamic(
      ts: seq<Token>, tys: seq<Type>, depth: nat, d: bytes, pos: nat, offset: nat)
    requires HaveTypes(ts, tys) && ts != [] && Dynamic(tys[0]) && Shallow(tys, depth)
    requires Stands(Heads(ts, tys, offset), d, pos) && pos + |Heads(ts, tys, offset)| < LIMIT
    requires Stands(Tails(ts, tys), d, offset) && offset + |Tails(ts, tys)| < LIMIT
    ensures DecodeAll(tys, depth, d, pos) == Some(ts)
    decreases ts, 0, 1
  {
    SplitDynamic(ts, tys, d, pos, offset);
    SplitTails(ts, tys, d, offset);
    DecodeFirst(ts, tys, d, offset);
    DecodeDynamicRest(ts[1..], tys[1..], depth, d, pos, offset, |Encode(ts[0], tys[0])|);
    DecodeDynamicStep(ts, tys, depth, d, pos, offset);
  }

  /** The other components, once the first one and its head are read. */
  lemma {:induction false} DecodeDynamicRest(
      ts: seq<Token>, tys: seq<Type>, depth: nat, d: bytes, pos: nat, offset: nat, size: nat)
    requires HaveTypes(ts, tys) && Shallow(tys, depth)
    requires Stands(Heads(ts, tys, offset + size), d, pos + WORD)
    requires pos + WORD + |Heads(ts, tys, offset + size)| < LIMIT
    requires Stands(Tails(ts, tys), d, offset + size) && offset + size + |Tails(ts, tys)| < LIMIT
    ensures DecodeAll(tys, depth, d, pos + WORD) == Some(ts)
    decreases ts, 0, 3
  {
    DecodeStanding(ts, tys, depth, d, pos + WORD, offset + size);
  }

  lemma {:induction false} DecodeStatic(
      ts: seq<Token>, tys: seq<Type>, depth: nat, d: bytes, pos: nat, offset: nat)
    requires HaveTypes(ts, tys) && ts != [] && !Dynamic(tys[0])
    requires Shallow(tys, depth)
    requires Stands(Heads(ts, tys, offset), d, pos) && pos + |Heads(ts, tys, offset)| < LIMIT
    requires Stands(Tails(ts, tys), d, offset) && offset + |Tails(ts, tys)| < LIMIT
    ensures DecodeAll(tys, depth, d, pos) == Some(ts)
    decreases ts, 0, 1
  {
    var size := |Encode(ts[0], tys[0])|;
    SplitStatic(ts, tys, d, pos, offset);
    DecodeFirst(ts, tys, d, pos);
    DecodeStanding(ts[1..], tys[1..], depth, d, pos + size, offset);
    DecodeStaticStep(ts, tys, depth, d, pos);
  }

  lemma DecodeDynamicStep(ts: seq<Token>, tys: seq<Type>, depth: nat, d: bytes, pos: nat, offset: nat)
    requires Shallow(tys, depth)
    requires |ts| == |tys| > 0 && Dynamic(tys[0])
    requires pos + WORD <= |d| && FromBytes(d[pos..pos + WORD]) == offset <= |d|
    requires Decode(tys[0], d[offset..]) == Some(ts[0])
    requires DecodeAll(tys[1..], depth, d, pos + WORD) == Some(ts[1..])
    ensures DecodeAll(tys, depth, d, pos) == Some(ts)
  {
    assert ts == [ts[0]] + ts[1..];
  }

  lemma DecodeStaticStep(ts: seq<Token>, tys: seq<Type>, depth: nat, d: bytes, pos: nat)
    requires Shallow(tys, depth)
    requires |ts| == |tys| > 0 && !Dynamic(tys[0])
    requires pos + HeadSize(tys[0]) <= |d|
    requires Decode(tys[0], d[pos..]) == Some(ts[0])
    requires DecodeAll(tys[1..], depth, d, pos + HeadSize(tys[0])) == Some(ts[1..])
    ensures DecodeAll(tys, depth, d, pos) == Some(ts)
  {
    assert ts == [ts[0]] + ts[1..];
  }

  lemma SplitDynamic(ts: seq<Token>, tys: seq<Type>, d: bytes, pos: nat, offset: nat)
    requires HaveTypes(ts, tys) && ts != [] && Dynamic(tys[0])
    requires Stands(Heads(ts, tys, offset), d, pos) && pos + |Heads(ts, tys, offset)| < LIMIT
    requires Stands(Tails(ts, tys), d, offset) && offset + |Tails(ts, tys)| < LIMIT
    ensures HaveTypes(ts[1..], tys[1..])
    ensures var size := |Encode(ts[0], tys[0])|;
      && pos + WORD <= |d| && FromBytes(d[pos..pos + WORD]) == offset
      && Stands(Heads(ts[1..], tys[1..], offset + size), d, pos + WORD)
      && pos + WORD + |Heads(ts[1..], tys[1..], offset + size)| < LIMIT
  {
    var part := Encode(ts[0], tys[0]);
    StandsSplit(Word(offset), Heads(ts[1..], tys[1..], offset + |part|), d, pos);
    FromWord(offset);
  }

  lemma SplitTails(ts: seq<Token>, tys: seq<Type>, d: bytes, offset: nat)
    requires HaveTypes(ts, tys) && ts != [] && Dynamic(tys[0])
    requires Stands(Tails(ts, tys), d, offset) && offset + |Tails(ts, tys)| < LIMIT
    ensures HaveTypes(ts[1..], tys[1..])
    ensures var part := Encode(ts[0], tys[0]);
      && |part| < LIMIT
      && Stands(Tails(ts[1..], tys[1..]), d, offset + |part|)
      && offset + |part| + |Tails(ts[1..], tys[1..])| < LIMIT
      && d[offset..] == part + d[offset + |part|..]
  {
    var part := Encode(ts[0], tys[0]);
    StandsSplit(part, Tails(ts[1..], tys[1..]), d, offset);
    StandsRest(part, d, offset);
  }

  lemma SplitStatic(ts: seq<Token>, tys: seq<Type>, d: bytes, pos: nat, offset: nat)
    requires HaveTypes(ts, tys) && ts != [] && !Dynamic(tys[0])
    requires Stands(Heads(ts, tys, offset), d, pos) && pos + |Heads(ts, tys, offset)| < LIMIT
    requires Stands(Tails(ts, tys), d, offset)
    ensures HaveTypes(ts[1..], tys[1..])
    ensures var part := Encode(ts[0], tys[0]);
      && |part| == HeadSize(tys[0]) && |part| < LIMIT
      && pos + |part| + |Heads(ts[1..], tys[1..], offset)| < LIMIT
      && Stands(Heads(ts[1..], tys[1..], offset), d, pos + |part|)
      && Tails(ts, tys) == Tails(ts[1..], tys[1..])
      && pos + |part| <= |d|
      && d[pos..] == part + d[pos + |part|..]
  {
    var part := Encode(ts[0], tys[0]);
    StaticLength(ts[0], tys[0]);
    StandsSplit(part, Heads(ts[1..], tys[1..], offset), d, pos);
    assert Tails(ts, tys) == Tails(ts[1..], tys[1..]);
    StandsRest(part, d, pos);
  }

  /** Hence values of one type with equal encodings are equal. */
  lemma EncodeAllInjective(ts: seq<Token>, us: seq<Token>, tys: seq<Type>)
    requires HaveTypes(ts, tys) && HaveTypes(us, tys)
    requires |EncodeAll(ts, tys)| < LIMIT
    ensures EncodeAll(ts, tys) == EncodeAll(us, tys) <==> ts == us
  {
    if EncodeAll(ts, tys) == EncodeAll(us, tys) {
      DecodeEncodeAll(ts, tys, MaxDepth(tys), []);
      DecodeEncodeAll(us, tys, MaxDepth(tys), []);
    }
  }

  // ---- Sizes ----

  /** Parameters that are each one word in the head. */
  ghost predicate Flat(tys: seq<Type>) {
    forall i :: 0 <= i < |tys| ==> HeadSize(tys[i]) == WORD
  }

  lemma {:induction false} FlatHeads(tys: seq<Type>)
    requires Flat(tys)
    ensures HeadsSize(tys) == WORD * |tys|
  {
    if tys != [] {
      FlatHeads(tys[1..]);
    }
  }

  lemma OneMore(n: nat, bound: nat)
    ensures (n + 1) * bound == n * bound + bound
  {
  }

  lemma {:induction false} TailsBound(ts: seq<Token>, tys: seq<Type>, bound: nat)
    requires HaveTypes(ts, tys)
    requires forall i :: 0 <= i < |ts| ==> |Encode(ts[i], tys[i])| <= bound
    ensures |Tails(ts, tys)| <= |ts| * bound
  {
    if ts != [] {
      TailsBound(ts[1..], tys[1..], bound);
      OneMore(|ts| - 1, bound);
    }
  }

  lemma FlatBound(ts: seq<Token>, tys: seq<Type>, bound: nat)
    requires HaveTypes(ts, tys) && Flat(tys)
    requires forall i :: 0 <= i < |ts| ==> |Encode(ts[i], tys[i])| <= bound
    ensures |EncodeAll(ts, tys)| <= |ts| * (WORD + bound)
  {
    FlatHeads(tys);
    HeadsLength(ts, tys, HeadsSize(tys));
    TailsBound(ts, tys, bound);
  }

  /** A leading dynamic parameter shows how many words the head has. */
  lemma FirstOffset(ts: seq<Token>, tys: seq<Type>)
    requires HaveTypes(ts, tys) && Flat(tys)
    requires ts != [] && Dynamic(tys[0]) && WORD * |tys| < LIMIT
    ensures |EncodeAll(ts, tys)| >= WORD
    ensures FromBytes(EncodeAll(ts, tys)[..WORD]) == WORD * |tys|
  {
    FlatHeads(tys);
    var size := HeadsSize(tys);
    var tail := Heads(ts[1..], tys[1..], size + |Encode(ts[0], tys[0])|);
    WordPrefix(size, tail, Tails(ts, tys));
  }
}
