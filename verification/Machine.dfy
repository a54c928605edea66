/** Machine integers, bytes and the result types shared by the whole model.
    Rust's `u64` and `i64` are subset types of `int`: wrap-around and saturation are written out. */
module Machine {

  const TWO_64: nat := 0x1_0000_0000_0000_0000
  const U64_MAX: u64 := 0xFFFF_FFFF_FFFF_FFFF

  type u64 = n: int | 0 <= n < 0x1_0000_0000_0000_0000
  type i64 = n: int | -0x8000_0000_0000_0000 <= n < 0x8000_0000_0000_0000
  type byte = n: int | 0 <= n < 256
  type bytes = seq<byte>

  /** A Rust `Vec<u8>`: an allocation never exceeds `isize::MAX` bytes. */
  type Buffer = b: bytes | |b| <= 0x7FFF_FFFF_FFFF_FFFF

  datatype Option<+T> = None | Some(value: T) {
    predicate IsFailure() {
      None?
    }

    function PropagateFailure<U>(): Option<U>
      requires None?
    {
      None
    }

    function Extract(): T
      requires Some?
    {
      value
    }
  }

  function SaturatingAdd(a: u64, b: u64): u64 {
    if a + b <= U64_MAX then a + b else U64_MAX
  }

  function SaturatingMul(a: u64, b: u64): u64 {
    if a * b <= U64_MAX then a * b else U64_MAX
  }

  /** `checked_mul`. */
  function CheckedMul(a: u64, b: u64): Option<u64> {
    if a * b <= U64_MAX then Some(a * b) else None
  }

  /** `n as i64`: keeps the 64 bits, so values from 2^63 on become negative. */
  function AsI64(n: u64): i64 {
    if n < 0x8000_0000_0000_0000 then n else n - 0x1_0000_0000_0000_0000
  }

  /** `n as u64`: keeps the 64 bits. */
  function AsU64(n: i64): u64 {
    if n < 0 then n + 0x1_0000_0000_0000_0000 else n
  }

  /** The casts keep the number modulo 2^64, the attempt keeps the number or fails, and the saturating and
      checked operations are exact exactly when the result fits. */
  lemma Casts(n: u64, i: i64)
    ensures AsI64(n) == n || AsI64(n) == n - TWO_64
    ensures AsU64(i) == i || AsU64(i) == i + TWO_64
    ensures forall k: i64 :: TryI64(n) == Some(k) <==> k == n
  {
  }

  lemma Operations(a: u64, b: u64)
    ensures SaturatingAdd(a, b) == a + b || SaturatingAdd(a, b) == U64_MAX < a + b
    ensures SaturatingMul(a, b) == a * b || SaturatingMul(a, b) == U64_MAX < a * b
    ensures forall p: u64 :: CheckedMul(a, b) == Some(p) <==> p == a * b
  {
  }

  /** Concatenations whose first parts have equal length split uniquely. */
  lemma SplitAppend<T>(a: seq<T>, b: seq<T>, c: seq<T>, d: seq<T>)
    requires |a| == |c|
    ensures a + b == c + d <==> a == c && b == d
  {
    if a + b == c + d {
      assert a == (a + b)[..|a|] == (c + d)[..|a|] == c;
      assert b == (a + b)[|a|..] == (c + d)[|a|..] == d;
    }
  }

  /** `i64::try_from(n)`. */
  function TryI64(n: u64): Option<i64> {
    if n < 0x8000_0000_0000_0000 then Some(n) else None
  }
}

/** Big-endian numbers: fixed width (ABI words) and shortest form (RLP). */
module BigEndian {
  import opened Machine

  function Pow256(width: nat): (p: nat)
    ensures p > 0
  {
    if width == 0 then 1 else 256 * Pow256(width - 1)
  }

  /** The last `width` base-256 digits of `n`. */
  function ToBytes(n: nat, width: nat): (b: bytes)
    ensures |b| == width
    decreases width, n
  {
    if width == 0 then [] else ToBytes(n / 256, width - 1) + [n % 256]
  }

  function FromBytes(b: bytes): nat {
    if b == [] then 0 else FromBytes(b[..|b| - 1]) * 256 + b[|b| - 1]
  }

  /** The digits of `n` without leading zeros; no digit at all for zero. */
  function Shortest(n: nat): (b: bytes)
    ensures b != [] ==> b[0] != 0
    ensures n > 0 ==> b != []
  {
    if n == 0 then [] else Shortest(n / 256) + [n % 256]
  }

  lemma {:induction false} FromToBytes(n: nat, width: nat)
    requires n < Pow256(width)
    ensures FromBytes(ToBytes(n, width)) == n
  {
    if width > 0 {
      FromToBytes(n / 256, width - 1);
      var b := ToBytes(n, width);
      assert b[..|b| - 1] == ToBytes(n / 256, width - 1);
    }
  }

  lemma {:induction false} FromShortest(n: nat)
    ensures FromBytes(Shortest(n)) == n
  {
    if n > 0 {
      FromShortest(n / 256);
      var b := Shortest(n);
      assert b[..|b| - 1] == Shortest(n / 256);
    }
  }

  /** Without a leading zero there is only one way to write a number. */
  lemma {:induction false} ShortestFrom(b: bytes)
    requires b != [] ==> b[0] != 0
    ensures Shortest(FromBytes(b)) == b
  {
    if b != [] {
      ShortestFrom(b[..|b| - 1]);
      FromPositive(b);
      assert FromBytes(b) / 256 == FromBytes(b[..|b| - 1]);
      assert b == b[..|b| - 1] + [b[|b| - 1]];
    }
  }

  lemma {:induction false} FromPositive(b: bytes)
    requires b != [] && b[0] != 0
    ensures FromBytes(b) > 0
  {
    if |b| > 1 {
      FromPositive(b[..|b| - 1]);
    }
  }

  lemma {:induction false} ShortestWidth(n: nat, width: nat)
    ensures |Shortest(n)| <= width <==> n < Pow256(width)
    decreases width
  {
    if n > 0 && width > 0 {
      ShortestWidth(n / 256, width - 1);
    }
  }

  lemma Pow256Of8()
    ensures Pow256(8) == 0x1_0000_0000_0000_0000
  {
    assert Pow256(4) == 0x1_0000_0000;
  }
}
