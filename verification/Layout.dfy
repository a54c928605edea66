/** Where each byte of an encoding stands ("Formal Specification of the Encoding", Solidity Contract ABI
    Specification), and the bytes of the gateway's own preimages, position by position. */
module Layout {
  import opened Machine
  import opened BigEndian
  import opened Types
  import Addresses = Address
  import opened Abi
  import opened Preimages

  // ---- Reading positions ----

  /** The number in the word at a position. */
  predicate NumberAt(d: bytes, pos: nat, n: nat) {
    pos + 32 <= |d| && FromBytes(d[pos..pos + 32]) == n
  }

  predicate BytesAt(d: bytes, pos: nat, b: bytes) {
    pos + |b| <= |d| && d[pos..pos + |b|] == b
  }

  predicate ZerosAt(d: bytes, pos: nat, end: nat) {
    end <= |d| && forall i :: pos <= i < end ==> d[i] == 0
  }

  /** A number is read digit by digit, the most significant first. */
  lemma {:induction false} FromBytesPlace(a: bytes, x: byte)
    ensures FromBytes([]) == 0 && FromBytes(a + [x]) == 256 * FromBytes(a) + x
  {
    assert (a + [x])[..|a|] == a;
  }

  // ---- Single values ----

  lemma {:induction false} UintLayout(n: nat)
    requires n < LIMIT
    ensures var e := Encode(Uint(n), UintType);
      |e| == 32 && NumberAt(e, 0, n)
  {
    FromWord(n);
    assert Word(n)[0..32] == Word(n);
  }

  /** 20 bytes behind 12 zeros. */
  lemma {:induction false} AddressLayout(b: bytes)
    requires |b| == 20
    ensures var e := Encode(Token.Address(b), AddressType);
      |e| == 32 && ZerosAt(e, 0, 12) && BytesAt(e, 12, b)
  {
    assert (Zeros(12) + b)[12..32] == b;
  }

  lemma {:induction false} FixedBytesLayout(b: bytes)
    requires |b| == 32
    ensures Encode(FixedBytes(b), FixedBytesType) == b
  {
  }

  /** The length, the bytes, and zeros up to a whole number of words. */
  lemma {:induction false} BytesLayout(b: bytes)
    requires |b| < LIMIT
    ensures var e := Encode(Bytes(b), BytesType);
      && |e| % 32 == 0 && 32 + |b| <= |e| < 32 + |b| + 32
      && NumberAt(e, 0, |b|) && BytesAt(e, 32, b) && ZerosAt(e, 32 + |b|, |e|)
  {
    FromWord(|b|);
    FillsWord(|b|);
    ThreeParts(Word(|b|), b, Padding(|b|));
  }

  lemma {:induction false} ThreeParts(w: bytes, b: bytes, z: bytes)
    requires |w| == 32 && forall i :: 0 <= i < |z| ==> z[i] == 0
    ensures var e := w + b + z;
      e[0..32] == w && BytesAt(e, 32, b) && ZerosAt(e, 32 + |b|, |e|)
  {
    var e := w + b + z;
    assert e[32..32 + |b|] == b;
  }

  lemma {:induction false} FillsWord(length: nat)
    ensures (length + |Padding(length)|) % 32 == 0 && |Padding(length)| < 32
    ensures forall i :: 0 <= i < |Padding(length)| ==> Padding(length)[i] == 0
  {
  }

  lemma {:induction false} ArrayLayout(items: seq<Token>, element: Type)
    requires HasType(Array(items), ArrayType(element)) && |items| < LIMIT
    ensures var e := Encode(Array(items), ArrayType(element));
      |e| >= 32 && NumberAt(e, 0, |items|) && e[32..] == EncodeAll(items, Repeat(element, |items|))
  {
    FromWord(|items|);
    assert Encode(Array(items), ArrayType(element))[0..32] == Word(|items|);
  }

  // ---- Sequences of values ----

  /** A dynamic value has an offset in the head, a static one its encoding. */
  function HeadWidth(t: Token, ty: Type): nat
    requires HasType(t, ty)
  {
    if Dynamic(ty) then 32 else |Encode(t, ty)|
  }

  function TailWidth(t: Token, ty: Type): nat
    requires HasType(t, ty)
  {
    if Dynamic(ty) then |Encode(t, ty)| else 0
  }

  /** What the first `i` values take in the head, and in the tail. */
  function HeadUpTo(ts: seq<Token>, tys: seq<Type>, i: nat): nat
    requires HaveTypes(ts, tys) && i <= |ts|
  {
    if i == 0 then 0 else HeadWidth(ts[0], tys[0]) + HeadUpTo(ts[1..], tys[1..], i - 1)
  }

  function TailUpTo(ts: seq<Token>, tys: seq<Type>, i: nat): nat
    requires HaveTypes(ts, tys) && i <= |ts|
  {
    if i == 0 then 0 else TailWidth(ts[0], tys[0]) + TailUpTo(ts[1..], tys[1..], i - 1)
  }

  lemma {:induction false} StandsBehind(part: bytes, front: bytes, back: bytes, pos: nat)
    requires Stands(part, back, pos)
    ensures Stands(part, front + back, |front| + pos)
  {
    assert (front + back)[|front| + pos..|front| + pos + |part|] == back[pos..pos + |part|];
  }

  lemma {:induction false} StandsBefore(part: bytes, front: bytes, back: bytes, pos: nat)
    requires Stands(part, front, pos)
    ensures Stands(part, front + back, pos)
  {
    assert (front + back)[pos..pos + |part|] == front[pos..pos + |part|];
  }

  lemma {:induction false} PartSizes(ts: seq<Token>, tys: seq<Type>, offset: nat)
    requires HaveTypes(ts, tys)
    ensures |Heads(ts, tys, offset)| == HeadUpTo(ts, tys, |ts|) && |Tails(ts, tys)| == TailUpTo(ts, tys, |ts|)
  {
    if ts != [] {
      PartSizes(ts[1..], tys[1..], if Dynamic(tys[0]) then offset + |Encode(ts[0], tys[0])| else offset);
    }
  }

  function HeadPart(ts: seq<Token>, tys: seq<Type>, offset: nat, i: nat): bytes
    requires HaveTypes(ts, tys) && i < |ts|
  {
    if Dynamic(tys[i]) then Word(offset + TailUpTo(ts, tys, i)) else Encode(ts[i], tys[i])
  }

  /** The offset of the next dynamic value. */
  function NextOffset(ts: seq<Token>, tys: seq<Type>, offset: nat): nat
    requires HaveTypes(ts, tys) && ts != []
  {
    if Dynamic(tys[0]) then offset + |Encode(ts[0], tys[0])| else offset
  }

  lemma {:induction false} HeadsStep(ts: seq<Token>, tys: seq<Type>, offset: nat)
    requires HaveTypes(ts, tys) && ts != []
    ensures Heads(ts, tys, offset)
         == HeadPart(ts, tys, offset, 0) + Heads(ts[1..], tys[1..], NextOffset(ts, tys, offset))
    ensures |HeadPart(ts, tys, offset, 0)| == HeadWidth(ts[0], tys[0])
  {
  }

  lemma {:induction false} HeadStands(ts: seq<Token>, tys: seq<Type>, offset: nat, i: nat)
    requires HaveTypes(ts, tys) && i < |ts|
    ensures Stands(HeadPart(ts, tys, offset, i), Heads(ts, tys, offset), HeadUpTo(ts, tys, i))
    decreases i
  {
    var first, rest := HeadPart(ts, tys, offset, 0), Heads(ts[1..], tys[1..], NextOffset(ts, tys, offset));
    HeadsStep(ts, tys, offset);
    if i == 0 {
      assert (first + rest)[0..|first|] == first;
    } else {
      HeadStands(ts[1..], tys[1..], NextOffset(ts, tys, offset), i - 1);
      NextHeadPart(ts, tys, offset, i);
      StandsBehind(HeadPart(ts, tys, offset, i), first, rest, HeadUpTo(ts[1..], tys[1..], i - 1));
    }
  }

  lemma {:induction false} NextTail(ts: seq<Token>, tys: seq<Type>, offset: nat, i: nat)
    requires HaveTypes(ts, tys) && 0 < i < |ts|
    ensures NextOffset(ts, tys, offset) + TailUpTo(ts[1..], tys[1..], i - 1) == offset + TailUpTo(ts, tys, i)
  {
  }

  lemma {:induction false} NextHeadPart(ts: seq<Token>, tys: seq<Type>, offset: nat, i: nat)
    requires HaveTypes(ts, tys) && 0 < i < |ts|
    ensures HeadPart(ts[1..], tys[1..], NextOffset(ts, tys, offset), i - 1) == HeadPart(ts, tys, offset, i)
  {
    NextTail(ts, tys, offset, i);
    assert ts[1..][i - 1] == ts[i] && tys[1..][i - 1] == tys[i];
  }

  lemma {:induction false} TailStands(ts: seq<Token>, tys: seq<Type>, i: nat)
    requires HaveTypes(ts, tys) && i < |ts| && Dynamic(tys[i])
    ensures Stands(Encode(ts[i], tys[i]), Tails(ts, tys), TailUpTo(ts, tys, i))
    decreases i
  {
    var first := if Dynamic(tys[0]) then Encode(ts[0], tys[0]) else [];
    var rest := Tails(ts[1..], tys[1..]);
    assert Tails(ts, tys) == first + rest;
    if i == 0 {
      assert (first + rest)[0..|first|] == first;
    } else {
      TailStands(ts[1..], tys[1..], i - 1);
      StandsBehind(Encode(ts[i], tys[i]), first, rest, TailUpTo(ts[1..], tys[1..], i - 1));
    }
  }

  /** The heads stand one after the other, then the tails, without gaps; a static value stands in its
      head, the head of a dynamic one tells where its value stands. */
  lemma {:induction false} ValuesLayout(ts: seq<Token>, tys: seq<Type>, i: nat)
    requires HaveTypes(ts, tys) && i < |ts| && |EncodeAll(ts, tys)| < LIMIT
    ensures var d, head := EncodeAll(ts, tys), HeadUpTo(ts, tys, |ts|);
      && |d| == head + TailUpTo(ts, tys, |ts|)
      && if Dynamic(tys[i])
         then && NumberAt(d, HeadUpTo(ts, tys, i), head + TailUpTo(ts, tys, i))
              && BytesAt(d, head + TailUpTo(ts, tys, i), Encode(ts[i], tys[i]))
         else BytesAt(d, HeadUpTo(ts, tys, i), Encode(ts[i], tys[i]))
  {
    SizeLayout(ts, tys);
    HeadLayout(ts, tys, i);
    if Dynamic(tys[i]) {
      DynamicLayout(ts, tys, i);
    }
  }

  lemma {:induction false} DynamicLayout(ts: seq<Token>, tys: seq<Type>, i: nat)
    requires HaveTypes(ts, tys) && i < |ts| && |EncodeAll(ts, tys)| < LIMIT && Dynamic(tys[i])
    ensures var d, at := EncodeAll(ts, tys), HeadUpTo(ts, tys, |ts|) + TailUpTo(ts, tys, i);
      NumberAt(d, HeadUpTo(ts, tys, i), at) && BytesAt(d, at, Encode(ts[i], tys[i]))
  {
    var at := HeadsSize(tys) + TailUpTo(ts, tys, i);
    SizeLayout(ts, tys);
    HeadLayout(ts, tys, i);
    TailLayout(ts, tys, i);
    OffsetStands(EncodeAll(ts, tys), HeadUpTo(ts, tys, i), at);
  }

  lemma {:induction false} SizeLayout(ts: seq<Token>, tys: seq<Type>)
    requires HaveTypes(ts, tys)
    ensures |EncodeAll(ts, tys)| == HeadUpTo(ts, tys, |ts|) + TailUpTo(ts, tys, |ts|)
    ensures HeadsSize(tys) == HeadUpTo(ts, tys, |ts|)
  {
    HeadsLength(ts, tys, HeadsSize(tys));
    PartSizes(ts, tys, HeadsSize(tys));
  }

  lemma {:induction false} HeadLayout(ts: seq<Token>, tys: seq<Type>, i: nat)
    requires HaveTypes(ts, tys) && i < |ts|
    ensures BytesAt(EncodeAll(ts, tys), HeadUpTo(ts, tys, i), HeadPart(ts, tys, HeadsSize(tys), i))
  {
    var size := HeadsSize(tys);
    HeadStands(ts, tys, size, i);
    StandsBefore(HeadPart(ts, tys, size, i), Heads(ts, tys, size), Tails(ts, tys), HeadUpTo(ts, tys, i));
  }

  lemma {:induction false} TailLayout(ts: seq<Token>, tys: seq<Type>, i: nat)
    requires HaveTypes(ts, tys) && i < |ts| && Dynamic(tys[i])
    ensures BytesAt(EncodeAll(ts, tys), HeadsSize(tys) + TailUpTo(ts, tys, i), Encode(ts[i], tys[i]))
  {
    HeadsLength(ts, tys, HeadsSize(tys));
    TailStands(ts, tys, i);
    StandsBehind(Encode(ts[i], tys[i]), Heads(ts, tys, HeadsSize(tys)), Tails(ts, tys), TailUpTo(ts, tys, i));
  }

  lemma {:induction false} OffsetStands(d: bytes, pos: nat, offset: nat)
    requires BytesAt(d, pos, Word(offset)) && offset <= |d| < LIMIT
    ensures NumberAt(d, pos, offset)
  {
    FromWord(offset);
  }

  // ---- Whole words ----

  lemma {:induction false} SumOfWords(a: nat, b: nat)
    requires a % 32 == 0 && b % 32 == 0
    ensures (a + b) % 32 == 0
  {
  }

  /** Every encoding is a whole number of words. */
  lemma {:induction false} WholeWords(t: Token, ty: Type)
    requires HasType(t, ty)
    ensures |Encode(t, ty)| % 32 == 0
    decreases t, 1
  {
    match t
    case Bytes(b) => BytesWholeWords(b);
    case Array(items) =>
      AllWholeWords(items, Repeat(ty.element, |items|));
      ArrayWholeWords(items, ty.element);
    case Tuple(fields) => AllWholeWords(fields, ty.parts);
    case _ =>
  }

  lemma {:induction false} BytesWholeWords(b: bytes)
    ensures |Encode(Bytes(b), BytesType)| % 32 == 0
  {
    FillsWord(|b|);
    SumOfWords(32, |b| + |Padding(|b|)|);
  }

  lemma {:induction false} ArrayWholeWords(items: seq<Token>, element: Type)
    requires HaveTypes(items, Repeat(element, |items|))
    requires |EncodeAll(items, Repeat(element, |items|))| % 32 == 0
    ensures |Encode(Array(items), ArrayType(element))| % 32 == 0
  {
    SumOfWords(32, |EncodeAll(items, Repeat(element, |items|))|);
  }

  lemma {:induction false} AllWholeWords(ts: seq<Token>, tys: seq<Type>)
    requires HaveTypes(ts, tys)
    ensures |EncodeAll(ts, tys)| % 32 == 0
    decreases ts, 1
  {
    PartsWholeWords(ts, tys, HeadsSize(tys));
    SumOfWords(|Heads(ts, tys, HeadsSize(tys))|, |Tails(ts, tys)|);
  }

  lemma {:induction false} PartsWholeWords(ts: seq<Token>, tys: seq<Type>, offset: nat)
    requires HaveTypes(ts, tys)
    ensures |Heads(ts, tys, offset)| % 32 == 0 && |Tails(ts, tys)| % 32 == 0
    decreases ts, 0
  {
    if ts != [] {
      var size := |Encode(ts[0], tys[0])|;
      var after := if Dynamic(tys[0]) then offset + size else offset;
      WholeWords(ts[0], tys[0]);
      PartsWholeWords(ts[1..], tys[1..], after);
      SumOfWords(size, |Tails(ts[1..], tys[1..])|);
      SumOfWords(if Dynamic(tys[0]) then 32 else size, |Heads(ts[1..], tys[1..], after)|);
    }
  }

  // ---- Which values are dynamic ----

  lemma {:induction false} DynamicTypes(element: Type, parts: seq<Type>)
    ensures Dynamic(BytesType) && Dynamic(ArrayType(element))
    ensures !Dynamic(UintType) && !Dynamic(AddressType) && !Dynamic(FixedBytesType)
    ensures Dynamic(TupleType(parts)) <==> exists i :: 0 <= i < |parts| && Dynamic(parts[i])
  {
  }

  // ---- An example of the standard ----

  const DAVE: bytes := [0x64, 0x61, 0x76, 0x65]

  function SmallWord(n: byte): bytes {
    Zeros(31) + [n]
  }

  lemma {:induction false} SmallWords(n: byte)
    ensures Word(n) == SmallWord(n)
  {
    ZerosOf(31);
  }

  lemma {:induction false} ZerosOf(width: nat)
    ensures ToBytes(0, width) == Zeros(width)
  {
    if width > 0 {
      ZerosOf(width - 1);
    }
  }

  const NUMBERS: seq<Token> := [Uint(1), Uint(2), Uint(3)]

  lemma {:induction false} NumbersEncoded()
    ensures HaveTypes(NUMBERS, Repeat(UintType, 3))
    ensures Encode(Array(NUMBERS), ArrayType(UintType))
         == SmallWord(3) + (SmallWord(1) + SmallWord(2) + SmallWord(3))
  {
    var tys := [UintType, UintType, UintType];
    assert Repeat(UintType, 3) == tys;
    SmallWords(3);
    NoTails(NUMBERS, tys);
    NumberHeads(HeadsSize(tys));
  }

  lemma {:induction false} NumberHeads(offset: nat)
    ensures Heads(NUMBERS, [UintType, UintType, UintType], offset) == SmallWord(1) + SmallWord(2) + SmallWord(3)
  {
    SmallWords(1);
    SmallWords(2);
    SmallWords(3);
    var two, one := [Uint(2), Uint(3)], [Uint(3)];
    assert NUMBERS[1..] == two && two[1..] == one && one[1..] == [];
    assert [UintType, UintType, UintType][1..] == [UintType, UintType];
    assert Heads(one, [UintType], offset) == Word(3) + [];
    assert Heads(two, [UintType, UintType], offset) == Word(2) + Word(3);
  }

  lemma {:induction false} DynamicHead(t: Token, ty: Type, ts: seq<Token>, tys: seq<Type>, offset: nat)
    requires HasType(t, ty) && HaveTypes(ts, tys) && Dynamic(ty)
    ensures Heads([t] + ts, [ty] + tys, offset) == Word(offset) + Heads(ts, tys, offset + |Encode(t, ty)|)
  {
    assert ([t] + ts)[1..] == ts && ([ty] + tys)[1..] == tys;
  }

  lemma {:induction false} StaticHead(t: Token, ty: Type, ts: seq<Token>, tys: seq<Type>, offset: nat)
    requires HasType(t, ty) && HaveTypes(ts, tys) && !Dynamic(ty)
    ensures Heads([t] + ts, [ty] + tys, offset) == Encode(t, ty) + Heads(ts, tys, offset)
  {
    assert ([t] + ts)[1..] == ts && ([ty] + tys)[1..] == tys;
  }

  lemma {:induction false} ThreeHeads(a: Token, b: Token, c: Token, x: Type, y: Type, z: Type)
    requires HasType(a, x) && HasType(b, y) && HasType(c, z)
    requires Dynamic(x) && !Dynamic(y) && Dynamic(z)
    ensures Heads([a, b, c], [x, y, z], 96) == Word(96) + Encode(b, y) + Word(96 + |Encode(a, x)|)
  {
    var end := 96 + |Encode(a, x)|;
    DynamicHead(a, x, [b, c], [y, z], 96);
    StaticHead(b, y, [c], [z], end);
    DynamicHead(c, z, [], [], end);
    assert [a, b, c] == [a] + [b, c] && [b, c] == [b] + [c] && [c] == [c] + [];
    assert [x, y, z] == [x] + [y, z] && [y, z] == [y] + [z] && [z] == [z] + [];
  }

  lemma {:induction false} TailStep(t: Token, ty: Type, ts: seq<Token>, tys: seq<Type>)
    requires HasType(t, ty) && HaveTypes(ts, tys)
    ensures Tails([t] + ts, [ty] + tys) == (if Dynamic(ty) then Encode(t, ty) else []) + Tails(ts, tys)
  {
    assert ([t] + ts)[1..] == ts && ([ty] + tys)[1..] == tys;
  }

  lemma {:induction false} ThreeTails(a: Token, b: Token, c: Token, x: Type, y: Type, z: Type)
    requires HasType(a, x) && HasType(b, y) && HasType(c, z)
    requires Dynamic(x) && !Dynamic(y) && Dynamic(z)
    ensures Tails([a, b, c], [x, y, z]) == Encode(a, x) + Encode(c, z)
  {
    TwoTails(b, c, y, z);
    TailStep(a, x, [b, c], [y, z]);
    assert [a, b, c] == [a] + [b, c] && [x, y, z] == [x] + [y, z];
  }

  lemma {:induction false} TwoTails(b: Token, c: Token, y: Type, z: Type)
    requires HasType(b, y) && HasType(c, z) && !Dynamic(y) && Dynamic(z)
    ensures Tails([b, c], [y, z]) == Encode(c, z)
  {
    TailStep(b, y, [c], [z]);
    TailStep(c, z, [], []);
    assert [b, c] == [b] + [c] && [c] == [c] + [];
    assert [y, z] == [y] + [z] && [z] == [z] + [];
  }

  lemma {:induction false} ThreeParams(a: Token, b: Token, c: Token, x: Type, y: Type, z: Type)
    requires HasType(a, x) && HasType(b, y) && HasType(c, z)
    requires Dynamic(x) && !Dynamic(y) && Dynamic(z) && HeadSize(y) == 32
    ensures EncodeAll([a, b, c], [x, y, z])
         == Word(96) + Encode(b, y) + Word(96 + |Encode(a, x)|) + Encode(a, x) + Encode(c, z)
  {
    FlatHeads([x, y, z]);
    ThreeHeads(a, b, c, x, y, z);
    ThreeTails(a, b, c, x, y, z);
  }

  lemma {:induction false} DaveEncoded()
    ensures Encode(Bytes(DAVE), BytesType) == SmallWord(4) + DAVE + Zeros(28)
    ensures |Encode(Bytes(DAVE), BytesType)| == 64
  {
    SmallWords(4);
  }

  /** The arguments of the standard's `sam("dave", true, [1, 2, 3])`. */
  lemma {:induction false} StandardExample()
    ensures EncodeAll([Bytes(DAVE), Uint(1), Array(NUMBERS)], [BytesType, UintType, ArrayType(UintType)])
         == SmallWord(0x60) + SmallWord(1) + SmallWord(0xa0) + (SmallWord(4) + DAVE + Zeros(28))
            + (SmallWord(3) + (SmallWord(1) + SmallWord(2) + SmallWord(3)))
  {
    NumbersEncoded();
    DaveEncoded();
    SmallWords(0x60);
    SmallWords(1);
    SmallWords(0xa0);
    ThreeParams(Bytes(DAVE), Uint(1), Array(NUMBERS), BytesType, UintType, ArrayType(UintType));
  }

  // ---- Values inside an encoding ----

  /** An address in a word. */
  predicate AddressAt(d: bytes, pos: nat, b: bytes) {
    ZerosAt(d, pos, pos + 12) && BytesAt(d, pos + 12, b)
  }

  /** A byte string with its length in front and the zeros that fill its last word. */
  predicate StringAt(d: bytes, pos: nat, b: bytes, end: nat) {
    && NumberAt(d, pos, |b|) && BytesAt(d, pos + 32, b) && ZerosAt(d, pos + 32 + |b|, end)
    && pos + 32 + |b| <= end < pos + 32 + |b| + 32 && (end - pos) % 32 == 0
  }

  lemma {:induction false} NumberInside(d: bytes, base: nat, part: bytes, pos: nat, n: nat)
    requires BytesAt(d, base, part) && NumberAt(part, pos, n)
    ensures NumberAt(d, base + pos, n)
  {
    BytesInside(d, base, part, pos, part[pos..pos + 32]);
  }

  lemma {:induction false} BytesInside(d: bytes, base: nat, part: bytes, pos: nat, b: bytes)
    requires BytesAt(d, base, part) && BytesAt(part, pos, b)
    ensures BytesAt(d, base + pos, b)
  {
    assert part[pos..pos + |b|] == b;
    forall i | 0 <= i < |b|
      ensures d[base + pos..base + pos + |b|][i] == b[i]
    {
      assert b[i] == part[pos..pos + |b|][i] == part[pos + i] == d[base..base + |part|][pos + i];
    }
  }

  lemma {:induction false} ZerosInside(d: bytes, base: nat, part: bytes, pos: nat, end: nat)
    requires BytesAt(d, base, part) && ZerosAt(part, pos, end)
    ensures ZerosAt(d, base + pos, base + end)
  {
    forall i | base + pos <= i < base + end
      ensures d[i] == 0
    {
      assert d[i] == d[base..base + |part|][i - base];
    }
  }

  lemma {:induction false} UintInside(d: bytes, pos: nat, n: nat)
    requires n < LIMIT && BytesAt(d, pos, Encode(Uint(n), UintType))
    ensures NumberAt(d, pos, n)
  {
    UintLayout(n);
    NumberInside(d, pos, Encode(Uint(n), UintType), 0, n);
  }

  lemma {:induction false} AddressInside(d: bytes, pos: nat, b: bytes)
    requires |b| == 20 && BytesAt(d, pos, Encode(Token.Address(b), AddressType))
    ensures AddressAt(d, pos, b)
  {
    var e := Encode(Token.Address(b), AddressType);
    AddressLayout(b);
    ZerosInside(d, pos, e, 0, 12);
    BytesInside(d, pos, e, 12, b);
  }

  lemma {:induction false} StringInside(d: bytes, pos: nat, b: bytes)
    requires |b| < LIMIT && BytesAt(d, pos, Encode(Bytes(b), BytesType))
    ensures StringAt(d, pos, b, pos + |Encode(Bytes(b), BytesType)|)
  {
    var e := Encode(Bytes(b), BytesType);
    BytesLayout(b);
    NumberInside(d, pos, e, 0, |b|);
    BytesInside(d, pos, e, 32, b);
    ZerosInside(d, pos, e, 32 + |b|, |e|);
  }

  // ---- Sums ----

  lemma {:induction false} TailUpToNext(ts: seq<Token>, tys: seq<Type>, i: nat)
    requires HaveTypes(ts, tys) && i < |ts|
    ensures TailUpTo(ts, tys, i + 1) == TailUpTo(ts, tys, i) + TailWidth(ts[i], tys[i])
  {
    if i > 0 {
      TailUpToNext(ts[1..], tys[1..], i - 1);
      assert ts[1..][i - 1] == ts[i] && tys[1..][i - 1] == tys[i];
    }
  }

  lemma {:induction false} FlatHeadUpTo(ts: seq<Token>, tys: seq<Type>, i: nat)
    requires HaveTypes(ts, tys) && Flat(tys) && i <= |ts|
    ensures HeadUpTo(ts, tys, i) == 32 * i
  {
    if i > 0 {
      if !Dynamic(tys[0]) {
        StaticLength(ts[0], tys[0]);
      }
      FlatHeadUpTo(ts[1..], tys[1..], i - 1);
    }
  }

  /** Parameters that are one word each in the head, and fit. */
  ghost predicate Params(ts: seq<Token>, tys: seq<Type>) {
    HaveTypes(ts, tys) && Flat(tys) && |EncodeAll(ts, tys)| < LIMIT
  }

  /** Where the tail of the i-th parameter starts. */
  function TailAt(ts: seq<Token>, tys: seq<Type>, i: nat): nat
    requires HaveTypes(ts, tys) && i <= |ts|
  {
    32 * |ts| + TailUpTo(ts, tys, i)
  }

  lemma {:induction false} ParamsEnd(ts: seq<Token>, tys: seq<Type>)
    requires Params(ts, tys) && ts != []
    ensures |EncodeAll(ts, tys)| == TailAt(ts, tys, |ts|) && TailAt(ts, tys, 0) == 32 * |ts|
  {
    ValuesLayout(ts, tys, 0);
    FlatHeadUpTo(ts, tys, |ts|);
  }

  lemma {:induction false} DynamicParam(ts: seq<Token>, tys: seq<Type>, i: nat)
    requires Params(ts, tys) && i < |ts| && Dynamic(tys[i])
    ensures var d, at := EncodeAll(ts, tys), TailAt(ts, tys, i);
      NumberAt(d, 32 * i, at) && BytesAt(d, at, Encode(ts[i], tys[i]))
    ensures TailAt(ts, tys, i + 1) == TailAt(ts, tys, i) + |Encode(ts[i], tys[i])|
  {
    ValuesLayout(ts, tys, i);
    FlatHeadUpTo(ts, tys, i);
    FlatHeadUpTo(ts, tys, |ts|);
    TailUpToNext(ts, tys, i);
  }

  lemma {:induction false} StringParam(ts: seq<Token>, tys: seq<Type>, i: nat, b: bytes)
    requires Params(ts, tys) && i < |ts| && tys[i] == BytesType && ts[i] == Bytes(b) && |b| < LIMIT
    ensures var d, at := EncodeAll(ts, tys), TailAt(ts, tys, i);
      NumberAt(d, 32 * i, at) && StringAt(d, at, b, TailAt(ts, tys, i + 1))
  {
    DynamicParam(ts, tys, i);
    StringInside(EncodeAll(ts, tys), TailAt(ts, tys, i), b);
  }

  lemma {:induction false} StaticParam(ts: seq<Token>, tys: seq<Type>, i: nat)
    requires Params(ts, tys) && i < |ts| && !Dynamic(tys[i])
    ensures BytesAt(EncodeAll(ts, tys), 32 * i, Encode(ts[i], tys[i]))
    ensures TailAt(ts, tys, i + 1) == TailAt(ts, tys, i)
  {
    ValuesLayout(ts, tys, i);
    FlatHeadUpTo(ts, tys, i);
    TailUpToNext(ts, tys, i);
  }

  lemma {:induction false} UintParam(ts: seq<Token>, tys: seq<Type>, i: nat, n: nat)
    requires Params(ts, tys) && i < |ts| && tys[i] == UintType && ts[i] == Uint(n) && n < LIMIT
    ensures NumberAt(EncodeAll(ts, tys), 32 * i, n) && TailAt(ts, tys, i + 1) == TailAt(ts, tys, i)
  {
    StaticParam(ts, tys, i);
    UintInside(EncodeAll(ts, tys), 32 * i, n);
  }

  lemma {:induction false} AddressParam(ts: seq<Token>, tys: seq<Type>, i: nat, b: bytes)
    requires Params(ts, tys) && i < |ts| && tys[i] == AddressType && ts[i] == Token.Address(b) && |b| == 20
    ensures AddressAt(EncodeAll(ts, tys), 32 * i, b) && TailAt(ts, tys, i + 1) == TailAt(ts, tys, i)
  {
    StaticParam(ts, tys, i);
    AddressInside(EncodeAll(ts, tys), 32 * i, b);
  }

  // ---- Requests and commitments ----

  /** Encodings exist exactly for what parses. */
  lemma {:induction false} EncodableExactly(request: CommitmentRequest, c: Commitment, m: DelegationMessage)
    ensures EncodeRequest(request).Some? <==> Addresses.ParseHexBytes(request.slasher, 20).Some?
    ensures EncodeCommitment(c).Some?
       <==> Addresses.ParseHexBytes(c.requestHash, 32).Some? && Addresses.ParseHexBytes(c.slasher, 20).Some?
    ensures EncodeDelegation(m).Some? <==> Addresses.ParseHexBytes(m.committer, 20).Some?
  {
  }

  ghost predicate IsRequestLayout(e: bytes, request: CommitmentRequest, slasher: bytes) {
    && NumberAt(e, 0, request.commitmentType) && NumberAt(e, 32, 96) && AddressAt(e, 64, slasher)
    && StringAt(e, 96, request.payload, |e|)
  }

  /** The bytes whose hash is a request's hash. */
  lemma {:induction false} RequestLayout(request: CommitmentRequest)
    requires EncodeRequest(request).Some?
    ensures Addresses.ParseHexBytes(request.slasher, 20).Some?
    ensures IsRequestLayout(EncodeRequest(request).value, request, Addresses.ParseHexBytes(request.slasher, 20).value)
  {
    var slasher := Addresses.ParseHexBytes(request.slasher, 20).value;
    var ts := RequestTokens(request, slasher);
    RequestFits(request, slasher);
    ParamsEnd(ts, REQUEST_TYPES);
    UintParam(ts, REQUEST_TYPES, 0, request.commitmentType);
    StringParam(ts, REQUEST_TYPES, 1, request.payload);
    AddressParam(ts, REQUEST_TYPES, 2, slasher);
  }

  ghost predicate IsCommitmentLayout(e: bytes, c: Commitment, hash: bytes, slasher: bytes) {
    && NumberAt(e, 0, c.commitmentType) && NumberAt(e, 32, 128) && BytesAt(e, 64, hash) && AddressAt(e, 96, slasher)
    && StringAt(e, 128, c.payload, |e|)
  }

  /** The bytes whose hash a commitment's signature signs. */
  lemma {:induction false} CommitmentLayout(c: Commitment)
    requires EncodeCommitment(c).Some?
    ensures Addresses.ParseHexBytes(c.requestHash, 32).Some? && Addresses.ParseHexBytes(c.slasher, 20).Some?
    ensures IsCommitmentLayout(EncodeCommitment(c).value, c, Addresses.ParseHexBytes(c.requestHash, 32).value,
                               Addresses.ParseHexBytes(c.slasher, 20).value)
  {
    var hash, slasher := Addresses.ParseHexBytes(c.requestHash, 32).value, Addresses.ParseHexBytes(c.slasher, 20).value;
    var ts := CommitmentTokens(c, hash, slasher);
    CommitmentFits(c, hash, slasher);
    ParamsEnd(ts, COMMITMENT_TYPES);
    UintParam(ts, COMMITMENT_TYPES, 0, c.commitmentType);
    StringParam(ts, COMMITMENT_TYPES, 1, c.payload);
    StaticParam(ts, COMMITMENT_TYPES, 2);
    FixedBytesLayout(hash);
    AddressParam(ts, COMMITMENT_TYPES, 3, slasher);
  }

  // ---- Delegations ----

  ghost predicate IsDelegationLayout(e: bytes, m: DelegationMessage, committer: bytes) {
    && |e| == 320
    && NumberAt(e, 0, 128) && NumberAt(e, 32, 224) && AddressAt(e, 64, committer) && NumberAt(e, 96, m.slot)
    && StringAt(e, 128, m.proposer, 224) && StringAt(e, 224, m.delegate, 320)
  }

  lemma {:induction false} KeyEnd(d: bytes, pos: nat, k: PublicKey, end: nat)
    requires StringAt(d, pos, k, end)
    ensures end == pos + 96
  {
  }

  /** The bytes that follow the domain in what a proposer signs. */
  lemma {:induction false} DelegationLayout(m: DelegationMessage)
    requires EncodeDelegation(m).Some?
    ensures Addresses.ParseHexBytes(m.committer, 20).Some?
    ensures IsDelegationLayout(EncodeDelegation(m).value, m, Addresses.ParseHexBytes(m.committer, 20).value)
  {
    var committer := Addresses.ParseHexBytes(m.committer, 20).value;
    var ts := DelegationTokens(m, committer);
    DelegationFits(m, committer);
    DelegationParams(ts, m, committer);
  }

  lemma {:induction false} DelegationParams(ts: seq<Token>, m: DelegationMessage, committer: bytes)
    requires |ts| == 4 && Params(ts, DELEGATION_TYPES) && |committer| == 20
    requires ts[0] == Bytes(m.proposer) && ts[1] == Bytes(m.delegate) && ts[2] == Token.Address(committer)
    requires ts[3] == Uint(m.slot)
    ensures IsDelegationLayout(EncodeAll(ts, DELEGATION_TYPES), m, committer)
  {
    var e := EncodeAll(ts, DELEGATION_TYPES);
    ParamsEnd(ts, DELEGATION_TYPES);
    StringParam(ts, DELEGATION_TYPES, 0, m.proposer);
    KeyEnd(e, 128, m.proposer, TailAt(ts, DELEGATION_TYPES, 1));
    StringParam(ts, DELEGATION_TYPES, 1, m.delegate);
    KeyEnd(e, 224, m.delegate, TailAt(ts, DELEGATION_TYPES, 2));
    AddressParam(ts, DELEGATION_TYPES, 2, committer);
    UintParam(ts, DELEGATION_TYPES, 3, m.slot);
  }

  // ---- Constraints ----

  /** A list of dynamic values: their number, an offset for each, and the values at `starts`, one after
      the other; `starts` ends with where the list does. */
  ghost predicate ListAt(d: bytes, pos: nat, starts: seq<nat>, end: nat) {
    && |starts| > 0 && starts[0] == pos + 32 + 32 * (|starts| - 1) && starts[|starts| - 1] == end
    && NumberAt(d, pos, |starts| - 1)
    && forall i :: 0 <= i < |starts| - 1 ==> OffsetAt(d, pos + 32, i, starts[i])
  }

  /** The i-th word from `base` on is the distance from there to `start`. */
  ghost predicate OffsetAt(d: bytes, base: nat, i: nat, start: nat) {
    base <= start && NumberAt(d, base + 32 * i, start - base)
  }

  /** A constraint: its type, the offset of its payload, and the payload. */
  ghost predicate ConstraintAt(d: bytes, pos: nat, c: Constraint, end: nat) {
    NumberAt(d, pos, c.constraintType) && NumberAt(d, pos + 32, 64) && StringAt(d, pos + 64, c.payload, end)
  }

  ghost predicate IsConstraintsLayout(
      e: bytes, m: ConstraintsMessage, first: seq<nat>, second: seq<nat>)
  {
    && |first| == |m.constraints| + 1 && |second| == |m.receivers| + 1
    && NumberAt(e, 0, 160) && NumberAt(e, 32, 256) && NumberAt(e, 64, m.slot) && NumberAt(e, 96, 352)
    && NumberAt(e, 128, first[|first| - 1])
    && StringAt(e, 160, m.proposer, 256) && StringAt(e, 256, m.delegate, 352)
    && ListAt(e, 352, first, first[|first| - 1])
    && (forall i :: 0 <= i < |m.constraints| ==> ConstraintAt(e, first[i], m.constraints[i], first[i + 1]))
    && ListAt(e, first[|first| - 1], second, |e|)
    && (forall i :: 0 <= i < |m.receivers| ==> StringAt(e, second[i], m.receivers[i], second[i + 1]))
  }

  lemma {:induction false} ConstraintInside(d: bytes, pos: nat, c: Constraint)
    requires HasType(ConstraintToken(c), CONSTRAINT_TYPE)
    requires BytesAt(d, pos, Encode(ConstraintToken(c), CONSTRAINT_TYPE))
    ensures ConstraintAt(d, pos, c, pos + |Encode(ConstraintToken(c), CONSTRAINT_TYPE)|)
  {
    var ts, tys := [Uint(c.constraintType), Bytes(c.payload)], [UintType, BytesType];
    var e := EncodeAll(ts, tys);
    ConstraintSize(c);
    ParamsEnd(ts, tys);
    UintParam(ts, tys, 0, c.constraintType);
    StringParam(ts, tys, 1, c.payload);
    NumberInside(d, pos, e, 0, c.constraintType);
    NumberInside(d, pos, e, 32, 64);
    StringMoves(d, pos, e, 64, c.payload, |e|);
  }

  lemma {:induction false} StringMoves(d: bytes, base: nat, part: bytes, pos: nat, b: bytes, end: nat)
    requires BytesAt(d, base, part) && StringAt(part, pos, b, end)
    ensures StringAt(d, base + pos, b, base + end)
  {
    NumberInside(d, base, part, pos, |b|);
    BytesInside(d, base, part, pos + 32, b);
    ZerosInside(d, base, part, pos + 32 + |b|, end);
  }

  /** The starts of an array's values when the array stands at `pos`. */
  ghost function Starts(items: seq<Token>, element: Type, pos: nat): (starts: seq<nat>)
    requires HaveTypes(items, Repeat(element, |items|))
    ensures |starts| == |items| + 1
  {
    var tys := Repeat(element, |items|);
    seq(|items| + 1, i requires 0 <= i < |items| + 1 => pos + 32 + TailAt(items, tys, i))
  }

  lemma {:induction false} ListItem(d: bytes, base: nat, items: seq<Token>, tys: seq<Type>, i: nat)
    requires Params(items, tys) && i < |items| && Dynamic(tys[i]) && BytesAt(d, base, EncodeAll(items, tys))
    ensures var start := base + TailAt(items, tys, i);
      && BytesAt(d, start, Encode(items[i], tys[i])) && OffsetAt(d, base, i, start)
      && base + TailAt(items, tys, i + 1) == start + |Encode(items[i], tys[i])|
  {
    DynamicParam(items, tys, i);
    NumberInside(d, base, EncodeAll(items, tys), 32 * i, TailAt(items, tys, i));
    BytesInside(d, base, EncodeAll(items, tys), TailAt(items, tys, i), Encode(items[i], tys[i]));
  }

  lemma {:induction false} ListFits(items: seq<Token>, element: Type)
    requires HasType(Array(items), ArrayType(element)) && Dynamic(element)
    requires |Encode(Array(items), ArrayType(element))| < LIMIT
    ensures Params(items, Repeat(element, |items|))
    ensures TailAt(items, Repeat(element, |items|), |items|) + 32 == |Encode(Array(items), ArrayType(element))|
    ensures TailAt(items, Repeat(element, |items|), 0) == 32 * |items|
  {
    if items != [] {
      ParamsEnd(items, Repeat(element, |items|));
    }
  }

  lemma {:induction false} ListBehind(d: bytes, pos: nat, items: seq<Token>, element: Type)
    requires HasType(Array(items), ArrayType(element)) && |items| < LIMIT
    requires BytesAt(d, pos, Encode(Array(items), ArrayType(element)))
    ensures NumberAt(d, pos, |items|) && BytesAt(d, pos + 32, EncodeAll(items, Repeat(element, |items|)))
  {
    var e, part := Encode(Array(items), ArrayType(element)), EncodeAll(items, Repeat(element, |items|));
    ArrayLayout(items, element);
    NumberInside(d, pos, e, 0, |items|);
    assert e[32..32 + |part|] == part;
    BytesInside(d, pos, e, 32, part);
  }

  ghost predicate ItemAt(d: bytes, pos: nat, items: seq<Token>, element: Type, starts: seq<nat>, i: nat)
    requires HaveTypes(items, Repeat(element, |items|)) && i < |items| < |starts|
  {
    && BytesAt(d, starts[i], Encode(items[i], element)) && OffsetAt(d, pos + 32, i, starts[i])
    && starts[i + 1] == starts[i] + |Encode(items[i], element)|
  }

  lemma {:induction false} ListInside(d: bytes, pos: nat, items: seq<Token>, element: Type)
    requires HasType(Array(items), ArrayType(element)) && Dynamic(element)
    requires |Encode(Array(items), ArrayType(element))| < LIMIT && |items| < LIMIT
    requires BytesAt(d, pos, Encode(Array(items), ArrayType(element)))
    ensures var starts := Starts(items, element, pos);
      && ListAt(d, pos, starts, pos + |Encode(Array(items), ArrayType(element))|)
      && forall i :: 0 <= i < |items| ==> ItemAt(d, pos, items, element, starts, i)
  {
    var tys, starts := Repeat(element, |items|), Starts(items, element, pos);
    ListFits(items, element);
    ListBehind(d, pos, items, element);
    forall i | 0 <= i < |items|
      ensures ItemAt(d, pos, items, element, starts, i)
    {
      ListItem(d, pos + 32, items, tys, i);
    }
    ItemsMakeList(d, pos, items, element, starts, pos + |Encode(Array(items), ArrayType(element))|);
  }

  lemma {:induction false} ItemsMakeList(
      d: bytes, pos: nat, items: seq<Token>, element: Type, starts: seq<nat>, end: nat)
    requires HaveTypes(items, Repeat(element, |items|)) && |starts| == |items| + 1
    requires starts[0] == pos + 32 + 32 * |items| && starts[|items|] == end && NumberAt(d, pos, |items|)
    requires forall i :: 0 <= i < |items| ==> ItemAt(d, pos, items, element, starts, i)
    ensures ListAt(d, pos, starts, end)
  {
    forall i | 0 <= i < |items|
      ensures OffsetAt(d, pos + 32, i, starts[i])
    {
      assert ItemAt(d, pos, items, element, starts, i);
    }
  }

  lemma {:induction false} ConstraintBehind(d: bytes, pos: nat, c: Constraint, end: nat)
    requires HasType(ConstraintToken(c), CONSTRAINT_TYPE)
    requires BytesAt(d, pos, Encode(ConstraintToken(c), CONSTRAINT_TYPE))
    requires end == pos + |Encode(ConstraintToken(c), CONSTRAINT_TYPE)|
    ensures ConstraintAt(d, pos, c, end)
  {
    ConstraintInside(d, pos, c);
  }

  lemma {:induction false} ConstraintIsDynamic()
    ensures Dynamic(CONSTRAINT_TYPE)
  {
    assert Dynamic(CONSTRAINT_TYPE.parts[1]);
  }

  lemma {:induction false} ConstraintListInside(d: bytes, pos: nat, cs: ConstraintList) returns (starts: seq<nat>)
    requires HasType(Array(ConstraintItems(cs)), ArrayType(CONSTRAINT_TYPE))
    requires BytesAt(d, pos, Encode(Array(ConstraintItems(cs)), ArrayType(CONSTRAINT_TYPE)))
    ensures |starts| == |cs| + 1
    ensures ListAt(d, pos, starts, pos + |Encode(Array(ConstraintItems(cs)), ArrayType(CONSTRAINT_TYPE))|)
    ensures forall i :: 0 <= i < |cs| ==> ConstraintAt(d, starts[i], cs[i], starts[i + 1])
  {
    var items := ConstraintItems(cs);
    starts := Starts(items, CONSTRAINT_TYPE, pos);
    ConstraintIsDynamic();
    ConstraintItemsSize(cs);
    ListInside(d, pos, items, CONSTRAINT_TYPE);
    assert forall i :: 0 <= i < |cs| ==> items[i] == ConstraintToken(cs[i]) && HasType(items[i], CONSTRAINT_TYPE);
    forall i | 0 <= i < |cs|
      ensures ConstraintAt(d, starts[i], cs[i], starts[i + 1])
    {
      assert ItemAt(d, pos, items, CONSTRAINT_TYPE, starts, i);
      ConstraintBehind(d, starts[i], cs[i], starts[i + 1]);
    }
  }

  lemma {:induction false} KeyListInside(d: bytes, pos: nat, keys: KeyList) returns (starts: seq<nat>)
    requires HasType(Array(KeyItems(keys)), ArrayType(BytesType))
    requires BytesAt(d, pos, Encode(Array(KeyItems(keys)), ArrayType(BytesType)))
    ensures |starts| == |keys| + 1
    ensures ListAt(d, pos, starts, pos + |Encode(Array(KeyItems(keys)), ArrayType(BytesType))|)
    ensures forall i :: 0 <= i < |keys| ==> StringAt(d, starts[i], keys[i], starts[i + 1])
  {
    var items := KeyItems(keys);
    starts := Starts(items, BytesType, pos);
    KeyItemsSize(keys);
    ListInside(d, pos, items, BytesType);
    forall i | 0 <= i < |keys|
      ensures StringAt(d, starts[i], keys[i], starts[i + 1])
    {
      assert ItemAt(d, pos, items, BytesType, starts, i);
      StringInside(d, starts[i], keys[i]);
    }
  }

  /** The bytes of a constraints message. */
  lemma {:induction false} ConstraintsLayout(m: ConstraintsMessage) returns (first: seq<nat>, second: seq<nat>)
    ensures IsConstraintsLayout(EncodeConstraints(m), m, first, second)
  {
    var ts, e := ConstraintsTokens(m), EncodeConstraints(m);
    ConstraintsFit(m);
    ConstraintsStrings(ts, m);
    ConstraintsLists(ts, m);
    first := ConstraintListInside(e, 352, m.constraints);
    second := KeyListInside(e, TailAt(ts, CONSTRAINTS_TYPES, 4), m.receivers);
  }

  ghost predicate AreParams(ts: seq<Token>, m: ConstraintsMessage) {
    && |ts| == 5 && Params(ts, CONSTRAINTS_TYPES)
    && ts[0] == Bytes(m.proposer) && ts[1] == Bytes(m.delegate) && ts[2] == Uint(m.slot)
  }

  lemma {:induction false} ConstraintsStrings(ts: seq<Token>, m: ConstraintsMessage)
    requires AreParams(ts, m)
    ensures var e := EncodeAll(ts, CONSTRAINTS_TYPES);
      && NumberAt(e, 0, 160) && NumberAt(e, 32, 256) && NumberAt(e, 64, m.slot)
      && StringAt(e, 160, m.proposer, 256) && StringAt(e, 256, m.delegate, 352)
    ensures TailAt(ts, CONSTRAINTS_TYPES, 3) == 352
  {
    var e := EncodeAll(ts, CONSTRAINTS_TYPES);
    ParamsEnd(ts, CONSTRAINTS_TYPES);
    StringParam(ts, CONSTRAINTS_TYPES, 0, m.proposer);
    KeyEnd(e, 160, m.proposer, TailAt(ts, CONSTRAINTS_TYPES, 1));
    StringParam(ts, CONSTRAINTS_TYPES, 1, m.delegate);
    KeyEnd(e, 256, m.delegate, TailAt(ts, CONSTRAINTS_TYPES, 2));
    UintParam(ts, CONSTRAINTS_TYPES, 2, m.slot);
  }

  lemma {:induction false} ConstraintsLists(ts: seq<Token>, m: ConstraintsMessage)
    requires AreParams(ts, m) && TailAt(ts, CONSTRAINTS_TYPES, 3) == 352
    ensures var e, middle := EncodeAll(ts, CONSTRAINTS_TYPES), TailAt(ts, CONSTRAINTS_TYPES, 4);
      && NumberAt(e, 96, 352) && NumberAt(e, 128, middle)
      && BytesAt(e, 352, Encode(ts[3], CONSTRAINTS_TYPES[3])) && middle == 352 + |Encode(ts[3], CONSTRAINTS_TYPES[3])|
      && BytesAt(e, middle, Encode(ts[4], CONSTRAINTS_TYPES[4]))
      && |e| == middle + |Encode(ts[4], CONSTRAINTS_TYPES[4])|
  {
    ParamsEnd(ts, CONSTRAINTS_TYPES);
    DynamicParam(ts, CONSTRAINTS_TYPES, 3);
    DynamicParam(ts, CONSTRAINTS_TYPES, 4);
  }
}
