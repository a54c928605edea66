/** Hexadecimal text and Ethereum addresses (src/crypto/mod.rs, src/utils/address.rs). */
module Address {
  import opened Machine

  function HexValue(c: char): (v: Option<nat>)
    ensures v.Some? ==> v.value < 16
  {
    if '0' <= c <= '9' then Some(c as nat - '0' as nat)
    else if 'a' <= c <= 'f' then Some(c as nat - 'a' as nat + 10)
    else if 'A' <= c <= 'F' then Some(c as nat - 'A' as nat + 10)
    else None
  }

  function HexDigit(v: nat): (c: char)
    requires v < 16
    ensures HexValue(c) == Some(v) && Lower(c) == c
  {
    "0123456789abcdef"[v]
  }

  /** `hex::decode`: an even number of digits of either case. */
  function DecodeHex(s: string): Option<bytes> {
    if s == [] then Some([])
    else if |s| == 1 then None
    else
      var high :- HexValue(s[0]);
      var low :- HexValue(s[1]);
      var rest :- DecodeHex(s[2..]);
      Some([16 * high + low] + rest)
  }

  /** `hex::encode`: lower-case digits. */
  function EncodeHex(b: bytes): (s: string)
    ensures |s| == 2 * |b|
  {
    if b == [] then [] else [HexDigit(b[0] / 16), HexDigit(b[0] % 16)] + EncodeHex(b[1..])
  }

  function StripPrefix(s: string, prefix: string): string {
    if prefix <= s then s[|prefix|..] else s
  }

  /** Hex text with an optional `0x` that must decode to exactly `expected` bytes. */
  function ParseHexBytes(s: string, expected: nat): (r: Option<bytes>)
    ensures r.Some? ==> |r.value| == expected
  {
    var decoded :- DecodeHex(StripPrefix(s, "0x"));
    if |decoded| == expected then Some(decoded) else None
  }

  /** `char::to_ascii_lowercase`. */
  function Lower(c: char): char {
    if 'A' <= c <= 'Z' then (c as int + 32) as char else c
  }

  function LowerAll(s: string): (r: string)
    ensures |r| == |s|
    ensures forall i :: 0 <= i < |s| ==> r[i] == Lower(s[i])
  {
    if s == [] then [] else [Lower(s[0])] + LowerAll(s[1..])
  }

  /** Drops one `0x` or `0X` and lower-cases the rest. */
  function NormalizeAddress(addr: string): string {
    LowerAll(if "0x" <= addr then addr[2..] else if "0X" <= addr then addr[2..] else addr)
  }

  /** The pattern `^0x[a-fA-F0-9]{digits}$` of the tables' CHECK constraints. */
  predicate MatchesHexColumn(s: string, digits: nat) {
    && |s| == digits + 2
    && "0x" <= s
    && forall i :: 2 <= i < |s| ==> HexValue(s[i]).Some?
  }

  lemma {:induction false} DecodeEncodeHex(b: bytes)
    ensures DecodeHex(EncodeHex(b)) == Some(b)
  {
    if b != [] {
      var first, rest := b[0], b[1..];
      DecodeEncodeHex(rest);
      assert EncodeHex(b)[2..] == EncodeHex(rest);
      assert b == [first] + rest;
    }
  }

  lemma {:induction false} DecodedShape(s: string)
    requires DecodeHex(s).Some?
    ensures |s| == 2 * |DecodeHex(s).value|
    ensures forall i :: 0 <= i < |s| ==> HexValue(s[i]).Some?
  {
    if s != [] {
      DecodedShape(s[2..]);
      forall i | 0 <= i < |s|
        ensures HexValue(s[i]).Some?
      {
        if i >= 2 {
          assert s[i] == s[2..][i - 2];
        }
      }
    }
  }

  lemma HexValueCase(c: char, d: char)
    requires HexValue(c).Some? && HexValue(d).Some?
    ensures HexValue(c) == HexValue(d) <==> Lower(c) == Lower(d)
  {
  }

  /** One decoded byte: the pair of digits up to letter case. */
  lemma SameByteSameLower(s: string, t: string)
    requires |s| == |t| == 2
    requires HexValue(s[0]).Some? && HexValue(s[1]).Some? && HexValue(t[0]).Some? && HexValue(t[1]).Some?
    ensures 16 * HexValue(s[0]).value + HexValue(s[1]).value == 16 * HexValue(t[0]).value + HexValue(t[1]).value
       <==> Lower(s[0]) == Lower(t[0]) && Lower(s[1]) == Lower(t[1])
  {
    HexValueCase(s[0], t[0]);
    HexValueCase(s[1], t[1]);
  }

  lemma DecodeHexStep(s: string)
    requires DecodeHex(s).Some? && s != []
    ensures |s| >= 2 && HexValue(s[0]).Some? && HexValue(s[1]).Some? && DecodeHex(s[2..]).Some?
    ensures DecodeHex(s).value == [16 * HexValue(s[0]).value + HexValue(s[1]).value] + DecodeHex(s[2..]).value
    ensures LowerAll(s) == [Lower(s[0]), Lower(s[1])] + LowerAll(s[2..])
  {
  }

  /** Two hex texts decode to the same bytes exactly when they differ in letter case only. */
  lemma {:induction false} SameBytesSameLower(s: string, t: string)
    requires DecodeHex(s).Some? && DecodeHex(t).Some?
    ensures DecodeHex(s) == DecodeHex(t) <==> LowerAll(s) == LowerAll(t)
  {
    DecodedShape(s);
    DecodedShape(t);
    if |s| == |t| && s != [] {
      DecodeHexStep(s);
      DecodeHexStep(t);
      SameByteSameLower(s[..2], t[..2]);
      SameBytesSameLower(s[2..], t[2..]);
      SplitAppend([16 * HexValue(s[0]).value + HexValue(s[1]).value], DecodeHex(s[2..]).value,
                  [16 * HexValue(t[0]).value + HexValue(t[1]).value], DecodeHex(t[2..]).value);
      SplitAppend([Lower(s[0]), Lower(s[1])], LowerAll(s[2..]), [Lower(t[0]), Lower(t[1])], LowerAll(t[2..]));
    }
  }

  lemma {:induction false} EncodedIsLower(b: bytes)
    ensures LowerAll(EncodeHex(b)) == EncodeHex(b)
  {
    if b != [] {
      EncodedIsLower(b[1..]);
      var s := EncodeHex(b);
      assert s[0] == HexDigit(b[0] / 16) && s[1] == HexDigit(b[0] % 16) && s[2..] == EncodeHex(b[1..]);
      assert forall i :: 2 <= i < |s| ==> s[i] == s[2..][i - 2] && LowerAll(s)[i] == LowerAll(s[2..])[i - 2];
      assert LowerAll(s) == s;
    }
  }

  /** Letter case does not matter to the decoder. */
  lemma {:induction false} DecodeLower(s: string)
    ensures DecodeHex(LowerAll(s)) == DecodeHex(s)
  {
    if |s| > 1 {
      var t := LowerAll(s);
      DecodeLower(s[2..]);
      assert t[2..] == LowerAll(s[2..]);
      assert HexValue(t[0]) == HexValue(s[0]) && HexValue(t[1]) == HexValue(s[1]);
    } else if |s| == 1 {
      assert |LowerAll(s)| == 1;
    }
  }

  /** A text parses to some bytes exactly when, without its prefix and in lower case, it is the
      encoding of those bytes. */
  lemma ParsesExactly(s: string, expected: nat, b: bytes)
    ensures ParseHexBytes(s, expected) == Some(b)
       <==> |b| == expected && LowerAll(if "0x" <= s then s[2..] else s) == EncodeHex(b)
  {
    var digits := StripPrefix(s, "0x");
    DecodeLower(digits);
    DecodeEncodeHex(b);
    if DecodeHex(digits) == Some(b) {
      SameBytesSameLower(digits, EncodeHex(b));
      EncodedIsLower(b);
    }
  }

  /** Hexadecimal digits of either case spell their bytes, with the prefix and without. */
  lemma DigitsParse(digits: string, b: bytes)
    requires LowerAll(digits) == EncodeHex(b)
    ensures ParseHexBytes(digits, |b|) == Some(b) && ParseHexBytes("0x" + digits, |b|) == Some(b)
    ensures NormalizeAddress(digits) == EncodeHex(b) && NormalizeAddress("0x" + digits) == EncodeHex(b)
    ensures !("0x" <= digits)
  {
    DecodeEncodeHex(b);
    DecodedShape(EncodeHex(b));
    NotPrefixed(digits);
    assert ("0x" + digits)[2..] == digits;
    ParsesExactly(digits, |b|, b);
    ParsesExactly("0x" + digits, |b|, b);
  }

  lemma NotPrefixed(digits: string)
    requires forall i :: 0 <= i < |digits| ==> HexValue(Lower(digits[i])).Some?
    ensures !("0x" <= digits) && !("0X" <= digits)
  {
    assert HexValue(Lower('x')).None? && HexValue(Lower('X')).None?;
    assert |digits| > 1 ==> HexValue(Lower(digits[1])).Some?;
    assert "0x"[1] == 'x' && "0X"[1] == 'X';
  }

  /** What the parser strips is what the normaliser strips, whenever parsing succeeds. */
  lemma NormalizeParsed(addr: string)
    requires DecodeHex(StripPrefix(addr, "0x")).Some?
    ensures NormalizeAddress(addr) == LowerAll(StripPrefix(addr, "0x"))
  {
    DecodedShape(StripPrefix(addr, "0x"));
    assert HexValue('X').None?;
    assert |addr| > 1 && StripPrefix(addr, "0x") == addr ==> HexValue(addr[1]).Some?;
  }

  /** For texts that parse as addresses, comparing normal forms is comparing the 20 bytes. */
  lemma NormalFormIsIdentity(a: string, b: string)
    requires ParseHexBytes(a, 20).Some? && ParseHexBytes(b, 20).Some?
    ensures ParseHexBytes(a, 20) == ParseHexBytes(b, 20) <==> NormalizeAddress(a) == NormalizeAddress(b)
  {
    NormalizeParsed(a);
    NormalizeParsed(b);
    SameBytesSameLower(StripPrefix(a, "0x"), StripPrefix(b, "0x"));
  }

  /** Without parsing the equivalence fails: `0X` is stripped by the normaliser only. */
  lemma UpperPrefixNeverParses(addr: string)
    requires "0X" <= addr
    ensures ParseHexBytes(addr, 20).None?
    ensures NormalizeAddress(addr) == NormalizeAddress("0x" + addr[2..])
  {
    assert ("0x" + addr[2..])[2..] == addr[2..];
    assert addr[1] == 'X' && HexValue(addr[1]).None?;
    if DecodeHex(addr).Some? {
      DecodedShape(addr);
      assert false;
    }
  }

  /** A text that parses as an address passes the column's CHECK exactly when it has the prefix. */
  lemma ColumnAcceptsPrefixed(addr: string)
    requires ParseHexBytes(addr, 20).Some?
    ensures MatchesHexColumn(addr, 40) <==> "0x" <= addr
  {
    DecodedShape(StripPrefix(addr, "0x"));
    if "0x" <= addr {
      forall i | 2 <= i < |addr|
        ensures HexValue(addr[i]).Some?
      {
        assert addr[i] == addr[2..][i - 2];
      }
    }
  }

  /** Text produced by `format!("0x{}", hex::encode(..))` passes its CHECK and parses back. */
  lemma EncodedColumn(b: bytes)
    ensures MatchesHexColumn("0x" + EncodeHex(b), 2 * |b|)
    ensures ParseHexBytes("0x" + EncodeHex(b), |b|) == Some(b)
  {
    var s := "0x" + EncodeHex(b);
    DecodeEncodeHex(b);
    DecodedShape(EncodeHex(b));
    assert s[2..] == EncodeHex(b);
    forall i | 2 <= i < |s|
      ensures HexValue(s[i]).Some?
    {
      assert s[i] == s[2..][i - 2];
    }
  }

  // ---- Character by character ----

  /** Two digits for each byte, the high one first. */
  lemma {:induction false} EncodedDigits(b: bytes, i: nat)
    requires i < |b|
    ensures EncodeHex(b)[2 * i] == "0123456789abcdef"[b[i] / 16]
    ensures EncodeHex(b)[2 * i + 1] == "0123456789abcdef"[b[i] % 16]
  {
    if i > 0 {
      EncodedDigits(b[1..], i - 1);
      EncodedRest(b, 2 * i);
      EncodedRest(b, 2 * i + 1);
    } else {
      EncodedFirst(b);
    }
  }

  lemma {:induction false} EncodedFirst(b: bytes)
    requires b != []
    ensures EncodeHex(b)[0] == "0123456789abcdef"[b[0] / 16] && EncodeHex(b)[1] == "0123456789abcdef"[b[0] % 16]
  {
  }

  lemma {:induction false} EncodedRest(b: bytes, k: nat)
    requires b != [] && 2 <= k < 2 * |b|
    ensures EncodeHex(b)[k] == EncodeHex(b[1..])[k - 2]
  {
  }

  /** One prefix is dropped, and capital letters become small ones. */
  lemma {:induction false} NormalizesExactly(s: string)
    ensures var rest := if "0x" <= s || "0X" <= s then s[2..] else s;
      |NormalizeAddress(s)| == |rest| && forall i :: 0 <= i < |rest| ==> NormalizeAddress(s)[i] == SmallLetter(rest[i])
  {
    var rest := if "0x" <= s || "0X" <= s then s[2..] else s;
    assert NormalizeAddress(s) == LowerAll(rest);
    forall i | 0 <= i < |rest|
      ensures LowerAll(rest)[i] == SmallLetter(rest[i])
    {
      LowersExactly(rest[i]);
    }
  }

  /** A capital letter's small one, any other character itself. */
  function SmallLetter(c: char): char {
    if 'A' <= c <= 'Z' then "abcdefghijklmnopqrstuvwxyz"[c as int - 'A' as int] else c
  }

  lemma {:induction false} LowersExactly(c: char)
    ensures Lower(c) == SmallLetter(c)
  {
  }

  /** The characters the columns' pattern admits. */
  predicate IsHexCharacter(c: char) {
    c in "0123456789" || c in "abcdef" || c in "ABCDEF"
  }

  lemma HexCharacters(c: char)
    ensures HexValue(c).Some? <==> IsHexCharacter(c)
  {
    assert c in "0123456789" <==> '0' <= c <= '9' by { DigitCharacters(c); }
    assert c in "abcdef" <==> 'a' <= c <= 'f' by { SmallCharacters(c); }
    assert c in "ABCDEF" <==> 'A' <= c <= 'F' by { CapitalCharacters(c); }
  }

  lemma DigitCharacters(c: char)
    ensures c in "0123456789" <==> '0' <= c <= '9'
  {
    if '0' <= c <= '9' {
      assert "0123456789"[c as int - '0' as int] == c;
    }
  }

  lemma SmallCharacters(c: char)
    ensures c in "abcdef" <==> 'a' <= c <= 'f'
  {
    if 'a' <= c <= 'f' {
      assert "abcdef"[c as int - 'a' as int] == c;
    }
  }

  lemma CapitalCharacters(c: char)
    ensures c in "ABCDEF" <==> 'A' <= c <= 'F'
  {
    if 'A' <= c <= 'F' {
      assert "ABCDEF"[c as int - 'A' as int] == c;
    }
  }

  /** `^0x[a-fA-F0-9]{digits}$`, character by character. */
  lemma MatchesExactly(s: string, digits: nat)
    ensures MatchesHexColumn(s, digits)
       <==> && |s| == 2 + digits && s[0] == '0' && s[1] == 'x'
            && forall i :: 2 <= i < |s| ==> IsHexCharacter(s[i])
  {
    forall c: char
      ensures HexValue(c).Some? <==> IsHexCharacter(c)
    {
      HexCharacters(c);
    }
  }
}
