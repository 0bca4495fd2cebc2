/** Fixed-width unsigned words as integer ranges, the bitwise operators on
    naturals, and little-endian byte strings. */
module Words {

  type U8 = x: int | 0 <= x < 0x100
  type U16 = x: int | 0 <= x < 0x1_0000
  type U32 = x: int | 0 <= x < 0x1_0000_0000
  type U64 = x: int | 0 <= x < 0x1_0000_0000_0000_0000
  type I64 = x: int | -0x8000_0000_0000_0000 <= x < 0x8000_0000_0000_0000

  /** static_cast<std::uint32_t>: reduction modulo 2^32, also for negative values. */
  function ToU32(x: int): U32 {
    x % 0x1_0000_0000
  }

  /** static_cast<std::uint64_t>: reduction modulo 2^64, also for negative values. */
  function ToU64(x: int): U64 {
    x % 0x1_0000_0000_0000_0000
  }

  /** Narrowing in two stages is narrowing once. */
  lemma ToU32OfToU64(x: int)
    ensures ToU32(ToU64(x)) == ToU32(x)
  {
    var q, r := x / 0x1_0000_0000_0000_0000, x % 0x1_0000_0000_0000_0000;
    assert x == 0x1_0000_0000_0000_0000 * q + r;
    RemainderUnique(x, 0x1_0000_0000, 0x1_0000_0000 * q + r / 0x1_0000_0000, r % 0x1_0000_0000);
  }

  function Pow2(n: nat): (p: nat)
    ensures p >= 1
  {
    if n == 0 then 1 else 2 * Pow2(n - 1)
  }

  lemma {:induction false} Pow2Add(m: nat, n: nat)
    ensures Pow2(m + n) == Pow2(m) * Pow2(n)
  {
    if m > 0 {
      Pow2Add(m - 1, n);
      assert Pow2(m + n) == 2 * Pow2(m - 1 + n);
    }
  }

  lemma Pow2Values()
    ensures Pow2(0) == 1 && Pow2(3) == 8 && Pow2(4) == 16 && Pow2(8) == 0x100 && Pow2(16) == 0x1_0000
    ensures Pow2(26) == 0x400_0000 && Pow2(28) == 0x1000_0000
    ensures Pow2(31) == 0x8000_0000 && Pow2(32) == 0x1_0000_0000
    ensures Pow2(64) == 0x1_0000_0000_0000_0000
  {
    assert Pow2(4) == 16;
    Pow2Add(4, 4);
    Pow2Add(8, 8);
    Pow2Add(16, 16);
    Pow2Add(32, 32);
    Pow2Add(28, 4);
    Pow2Add(26, 2);
    assert Pow2(32) == 2 * Pow2(31);
  }

  // ---------------------------------------------------------------- bit operators

  function BitAnd(a: nat, b: nat): nat {
    if a == 0 || b == 0 then 0
    else (if a % 2 == 1 && b % 2 == 1 then 1 else 0) + 2 * BitAnd(a / 2, b / 2)
  }

  function BitOr(a: nat, b: nat): nat {
    if a == 0 then b
    else if b == 0 then a
    else (if a % 2 == 1 || b % 2 == 1 then 1 else 0) + 2 * BitOr(a / 2, b / 2)
  }

  function BitXor(a: nat, b: nat): nat {
    if a == 0 then b
    else if b == 0 then a
    else (if a % 2 != b % 2 then 1 else 0) + 2 * BitXor(a / 2, b / 2)
  }

  lemma {:induction false} BitAndBound(a: nat, b: nat)
    ensures BitAnd(a, b) <= a && BitAnd(a, b) <= b
  {
    if a != 0 && b != 0 {
      BitAndBound(a / 2, b / 2);
    }
  }

  lemma {:induction false} BitOrBound(a: nat, b: nat, n: nat)
    requires a < Pow2(n) && b < Pow2(n)
    ensures BitOr(a, b) < Pow2(n)
  {
    if a != 0 && b != 0 {
      BitOrBound(a / 2, b / 2, n - 1);
    }
  }

  lemma {:induction false} BitXorBound(a: nat, b: nat, n: nat)
    requires a < Pow2(n) && b < Pow2(n)
    ensures BitXor(a, b) < Pow2(n)
  {
    if a != 0 && b != 0 {
      BitXorBound(a / 2, b / 2, n - 1);
    }
  }

  lemma HalveMod(a: nat, p: nat)
    requires p >= 1
    ensures a % (2 * p) == a % 2 + 2 * ((a / 2) % p)
  {
    var q, r := (a / 2) / p, (a / 2) % p;
    assert a == 2 * (q * p + r) + a % 2;
    assert a == q * (2 * p) + (2 * r + a % 2);
    RemainderUnique(a, 2 * p, q, 2 * r + a % 2);
  }

  lemma MulGap(x: int, y: int, m: nat)
    ensures x < y ==> x * m + m <= y * m
  {
    var d := y - x - 1;
    assert d >= 0 ==> d * m >= 0;
    assert y * m == (x + 1 + d) * m == x * m + m + d * m;
  }

  lemma RemainderUnique(a: int, m: int, q: int, r: int)
    requires m > 0 && 0 <= r < m && a == q * m + r
    ensures a / m == q && a % m == r
  {
    assert a == (a / m) * m + a % m;
    MulGap(a / m, q, m);
    MulGap(q, a / m, m);
  }

  lemma MulAssoc(x: int, y: int, z: int)
    ensures x * (y * z) == (x * y) * z
  {
  }

  function Shl(a: nat, n: nat): nat {
    if n == 0 then a else 2 * Shl(a, n - 1)
  }

  function Shr(a: nat, n: nat): nat {
    if n == 0 then a else Shr(a / 2, n - 1)
  }

  /** The n low bits of a. */
  function LowBits(a: nat, n: nat): nat {
    if n == 0 then 0 else a % 2 + 2 * LowBits(a / 2, n - 1)
  }

  lemma {:induction false} ShiftMeaning(a: nat, n: nat)
    ensures Shl(a, n) == a * Pow2(n)
    ensures Shr(a, n) == a / Pow2(n)
    ensures LowBits(a, n) == a % Pow2(n)
  {
    if n > 0 {
      ShiftMeaning(a, n - 1);
      ShiftMeaning(a / 2, n - 1);
      MulAssoc(a, Pow2(n - 1), 2);
      DivDiv(a, Pow2(n - 1));
      HalveMod(a, Pow2(n - 1));
    }
  }

  /** Masking with n low ones keeps the n low bits: the remainder modulo 2^n. */
  lemma BitAndLowMask(a: nat, n: nat)
    ensures BitAnd(a, Pow2(n) - 1) == LowBits(a, n) == a % Pow2(n)
  {
    BitAndOnes(a, n);
    ShiftMeaning(a, n);
  }

  lemma {:induction false} BitAndOnes(a: nat, n: nat)
    ensures BitAnd(a, Pow2(n) - 1) == LowBits(a, n)
  {
    if n > 0 {
      BitAndOnes(a / 2, n - 1);
      LowBitsZero(n);
    }
  }

  lemma DivDiv(a: nat, p: nat)
    requires p >= 1
    ensures a / (2 * p) == (a / 2) / p
  {
    var q, r := (a / 2) / p, (a / 2) % p;
    assert a == q * (2 * p) + (2 * r + a % 2);
    RemainderUnique(a, 2 * p, q, 2 * r + a % 2);
  }

  // ---------------------------------------------------------------- shifted and masked operands

  /** A mask shifted left selects the bits above the shift. */
  lemma {:induction false} BitAndShifted(a: nat, b: nat, n: nat)
    ensures BitAnd(a, Shl(b, n)) == Shl(BitAnd(Shr(a, n), b), n)
  {
    if n > 0 {
      BitAndShifted(a / 2, b, n - 1);
      var x := Shl(b, n - 1);
      assert (2 * x) / 2 == x;
    }
  }

  /** OR of values with no common bit position is their sum. */
  lemma {:induction false} BitOrDisjoint(hi: nat, lo: nat, n: nat)
    requires lo < Pow2(n)
    ensures BitOr(Shl(hi, n), lo) == BitOr(lo, Shl(hi, n)) == Shl(hi, n) + lo
  {
    if n > 0 {
      BitOrDisjoint(hi, lo / 2, n - 1);
      var x := Shl(hi, n - 1);
      assert (2 * x) / 2 == x;
    }
  }

  lemma {:induction false} BitOrOnes(a: nat, n: nat)
    requires a < Pow2(n)
    ensures BitOr(a, Pow2(n) - 1) == Pow2(n) - 1
  {
    if n > 0 && a != 0 {
      BitOrOnes(a / 2, n - 1);
    }
  }

  /** OR with an operand below 2^n leaves the bits from n upwards alone. */
  lemma {:induction false} BitOrLow(a: nat, b: nat, n: nat)
    requires b < Pow2(n)
    ensures BitOr(a, b) == Shl(Shr(a, n), n) + BitOr(LowBits(a, n), b)
  {
    if n > 0 {
      BitOrLow(a / 2, b / 2, n - 1);
      LowBitsHalves(a, n);
      LowBitsZero(n);
    }
    LowBitsSplit(a, n);
  }

  /** AND with an operand below 2^n only sees the low n bits. */
  lemma {:induction false} BitAndLow(a: nat, b: nat, n: nat)
    requires b < Pow2(n)
    ensures BitAnd(a, b) == BitAnd(LowBits(a, n), b)
  {
    if n > 0 {
      BitAndLow(a / 2, b / 2, n - 1);
      LowBitsHalves(a, n);
    }
  }

  /** Masking a value to its bits from n upwards and OR-ing in low bits replaces
      the low n bits. */
  lemma ReplaceLowBits(a: nat, mask: nat, low: nat, n: nat, m: nat)
    requires Shr(a, n) < Pow2(m) && mask == Shl(Pow2(m) - 1, n) && low < Pow2(n)
    ensures BitOr(BitAnd(a, mask), low) == Shl(Shr(a, n), n) + low
  {
    BitAndShifted(a, Pow2(m) - 1, n);
    BitAndLowMask(Shr(a, n), m);
    ModSmall(Shr(a, n), Pow2(m));
    BitOrDisjoint(Shr(a, n), low, n);
  }

  lemma ModSmall(a: nat, p: nat)
    requires a < p
    ensures a % p == a
  {
  }

  lemma LowBitsHalves(a: nat, n: nat)
    requires n > 0
    ensures LowBits(a, n) % 2 == a % 2 && LowBits(a, n) / 2 == LowBits(a / 2, n - 1)
  {
  }

  lemma {:induction false} LowBitsZero(n: nat)
    ensures LowBits(0, n) == 0
  {
    if n > 0 {
      LowBitsZero(n - 1);
    }
  }

  lemma {:induction false} LowBitsSplit(a: nat, n: nat)
    ensures a == Shl(Shr(a, n), n) + LowBits(a, n)
  {
    if n > 0 {
      LowBitsSplit(a / 2, n - 1);
    }
  }

  lemma {:induction false} BitXorInvolutive(a: nat, b: nat)
    ensures BitXor(BitXor(a, b), b) == a
  {
    if b == 0 {
    } else if a == 0 {
      BitXorSelf(b);
    } else {
      BitXorInvolutive(a / 2, b / 2);
      var x := BitXor(a, b);
      assert x / 2 == BitXor(a / 2, b / 2);
      if x == 0 {
        assert a / 2 == b / 2;
      }
    }
  }

  lemma {:induction false} BitXorSelf(a: nat)
    ensures BitXor(a, a) == 0
  {
    if a != 0 {
      BitXorSelf(a / 2);
    }
  }

  function And64(a: U64, b: U64): U64 {
    BitAndBound(a, b);
    BitAnd(a, b)
  }

  function Or64(a: U64, b: U64): U64 {
    Pow2Values();
    BitOrBound(a, b, 64);
    BitOr(a, b)
  }

  function Xor64(a: U64, b: U64): U64 {
    Pow2Values();
    BitXorBound(a, b, 64);
    BitXor(a, b)
  }

  function And32(a: U32, b: U32): U32 {
    BitAndBound(a, b);
    BitAnd(a, b)
  }

  function Or32(a: U32, b: U32): U32 {
    Pow2Values();
    BitOrBound(a, b, 32);
    BitOr(a, b)
  }

  function Xor32(a: U32, b: U32): U32 {
    Pow2Values();
    BitXorBound(a, b, 32);
    BitXor(a, b)
  }

  // ---------------------------------------------------------------- little endian

  /** The n low bytes of v, least significant first. */
  function LeBytes(v: nat, n: nat): (s: seq<U8>)
    ensures |s| == n
  {
    if n == 0 then [] else [v % 0x100] + LeBytes(v / 0x100, n - 1)
  }

  function LeValue(s: seq<U8>): nat {
    if |s| == 0 then 0 else s[0] + 0x100 * LeValue(s[1..])
  }

  lemma {:induction false} LeValueOfBytes(v: nat, n: nat)
    ensures LeValue(LeBytes(v, n)) == v % Pow2(8 * n)
  {
    if n > 0 {
      var p := Pow2(8 * (n - 1));
      var w := v / 0x100;
      LeValueOfBytes(w, n - 1);
      Pow2Values();
      Pow2Add(8, 8 * (n - 1));
      assert LeBytes(v, n)[1..] == LeBytes(w, n - 1);
      ByteAndRest(v, p);
    }
  }

  lemma ByteAndRest(v: nat, p: nat)
    requires p >= 1
    ensures v % (0x100 * p) == v % 0x100 + 0x100 * ((v / 0x100) % p)
  {
    var q, r := (v / 0x100) / p, (v / 0x100) % p;
    assert v / 0x100 == q * p + r;
    MulAssoc(q, p, 0x100);
    RemainderUnique(v, 0x100 * p, q, 0x100 * r + v % 0x100);
  }

  lemma {:induction false} LeBytesOfValue(s: seq<U8>)
    ensures LeBytes(LeValue(s), |s|) == s
  {
    if |s| > 0 {
      LeBytesOfValue(s[1..]);
      RemainderUnique(LeValue(s), 0x100, LeValue(s[1..]), s[0]);
      assert s == [s[0]] + s[1..];
    }
  }

  lemma {:induction false} LeValueBound(s: seq<U8>)
    ensures LeValue(s) < Pow2(8 * |s|)
  {
    if |s| > 0 {
      LeValueBound(s[1..]);
      Pow2Values();
      Pow2Add(8, 8 * (|s| - 1));
    }
  }

  lemma {:induction false} LeValueConcat(a: seq<U8>, b: seq<U8>)
    ensures LeValue(a + b) == LeValue(a) + Pow2(8 * |a|) * LeValue(b)
  {
    if |a| == 0 {
      assert a + b == b;
    } else {
      LeValueConcat(a[1..], b);
      assert (a + b)[1..] == a[1..] + b;
      Pow2Values();
      Pow2Add(8, 8 * (|a| - 1));
      var p, y := Pow2(8 * (|a| - 1)), LeValue(b);
      MulAssoc(0x100, p, y);
    }
  }

  /** A four-byte string read as a word. */
  function LeU32(s: seq<U8>): (v: U32)
    requires |s| == 4
    ensures v == LeValue(s)
  {
    LeValueBound(s);
    Pow2Values();
    LeValue(s)
  }

  /** An eight-byte string read as a doubleword. */
  function LeU64(s: seq<U8>): (v: U64)
    requires |s| == 8
    ensures v == LeValue(s)
  {
    LeValueBound(s);
    Pow2Values();
    LeValue(s)
  }

  lemma LeRoundTrip32(v: U32)
    ensures LeU32(LeBytes(v, 4)) == v
  {
    LeValueOfBytes(v, 4);
    Pow2Values();
  }

  lemma LeRoundTrip64(v: U64)
    ensures LeU64(LeBytes(v, 8)) == v
  {
    LeValueOfBytes(v, 8);
    Pow2Values();
  }

  /** An eight-byte little-endian value is its low word plus 2^32 times its high word. */
  lemma LeU64Halves(s: seq<U8>)
    requires |s| == 8
    ensures LeU64(s) == LeU32(s[..4]) + 0x1_0000_0000 * LeU32(s[4..])
  {
    assert s == s[..4] + s[4..];
    LeValueConcat(s[..4], s[4..]);
    Pow2Values();
  }

  /** A doubleword is stored as its low word followed by its high word. */
  lemma LeBytesHalves(low: U32, high: U32)
    ensures LeBytes(low + 0x1_0000_0000 * high, 8) == LeBytes(low, 4) + LeBytes(high, 4)
  {
    hide LeBytes, LeValue;
    var s := LeBytes(low, 4) + LeBytes(high, 4);
    LeValueConcat(LeBytes(low, 4), LeBytes(high, 4));
    Pow2Values();
    LeRoundTrip32(low);
    LeRoundTrip32(high);
    LeBytesOfValue(s);
  }

  // ---------------------------------------------------------------- bytes by shift and mask

  function ByteAt(value: nat, shift: nat): U8 {
    BitAndBound(Shr(value, shift), 0xFF);
    BitAnd(Shr(value, shift), 0xFF)
  }

  lemma {:induction false} LeBytesAt(value: nat, n: nat, k: nat)
    requires k < n
    ensures LeBytes(value, n)[k] == ByteAt(value, 8 * k)
  {
    if k == 0 {
      Pow2Values();
      BitAndLowMask(value, 8);
    } else {
      LeBytesAt(value / 0x100, n - 1, k - 1);
      ShrByByte(value, 8 * (k - 1));
    }
  }

  lemma ShrTwice(value: nat, shift: nat)
    ensures Shr(value, shift + 2) == Shr(value / 4, shift)
  {
    assert Shr(value, shift + 2) == Shr(value / 2, shift + 1);
  }

  lemma ShrByByte(value: nat, shift: nat)
    ensures Shr(value, shift + 8) == Shr(value / 0x100, shift)
  {
    ShrTwice(value, shift + 6);
    ShrTwice(value / 4, shift + 4);
    ShrTwice(value / 16, shift + 2);
    ShrTwice(value / 64, shift);
  }

  /** Bytes shifted into place and OR-ed together form their little-endian value. */
  lemma OrOfTwoBytes(b0: U8, b1: U8)
    ensures BitOr(b0, Shl(b1, 8)) == LeValue([b0, b1]) == b0 + 0x100 * b1
  {
    Pow2Values();
    ShiftMeaning(b1, 8);
    BitOrDisjoint(b1, b0, 8);
    LeValueOfTwo(b0, b1);
  }

  lemma LeValueOfTwo(b0: U8, b1: U8)
    ensures LeValue([b0, b1]) == b0 + 0x100 * b1
  {
    assert [b0, b1][1..] == [b1];
    assert [b1][1..] == [];
    assert LeValue([b1]) == b1;
  }

  lemma OrOfFourBytes(b0: U8, b1: U8, b2: U8, b3: U8)
    ensures BitOr(BitOr(BitOr(b0, Shl(b1, 8)), Shl(b2, 16)), Shl(b3, 24)) == LeValue([b0, b1, b2, b3])
  {
    hide BitOr, Shl, LeValue, Pow2;
    Pow2Values();
    Pow2Add(16, 8);
    OrOfTwoBytes(b0, b1);
    ShiftMeaning(b2, 16);
    ShiftMeaning(b3, 24);
    BitOrDisjoint(b2, b0 + 0x100 * b1, 16);
    BitOrDisjoint(b3, b0 + 0x100 * b1 + 0x1_0000 * b2, 24);
    LeValueOfTwo(b2, b3);
    LeValueConcat([b0, b1], [b2, b3]);
    assert [b0, b1] + [b2, b3] == [b0, b1, b2, b3];
  }
}
