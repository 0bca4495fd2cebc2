/** The FNV-1a fingerprint of a guest block
    (src/recompiler/windows/r5900_block_dispatcher.cpp). */
module Fingerprint {
  import opened Words

  const FNV_OFFSET: U64 := 14695981039346656037
  const FNV_PRIME: U64 := 1099511628211

  /** hash ^= byte; hash *= prime, modulo 2^64. */
  function FnvByte(hash: U64, byte: U8): U64 {
    ToU64(Xor64(hash, byte) * FNV_PRIME)
  }

  function FnvFold(hash: U64, bytes: seq<U8>): U64
    decreases |bytes|
  {
    if |bytes| == 0 then hash else FnvFold(FnvByte(hash, bytes[0]), bytes[1..])
  }

  /** The little-endian bytes of a word vector. */
  function WordBytes(words: seq<U32>): seq<U8> {
    if |words| == 0 then [] else LeBytes(words[0], 4) + WordBytes(words[1..])
  }

  /** The bytes fed to the hash: start PC, word count, words. */
  function HashedBytes(startPc: U32, words: seq<U32>): seq<U8> {
    LeBytes(startPc, 4) + LeBytes(|words|, 8) + WordBytes(words)
  }

  function FingerprintOf(startPc: U32, words: seq<U32>): U64 {
    FnvFold(FNV_OFFSET, HashedBytes(startPc, words))
  }

  lemma {:induction false} FnvFoldConcat(hash: U64, a: seq<U8>, b: seq<U8>)
    ensures FnvFold(hash, a + b) == FnvFold(FnvFold(hash, a), b)
    decreases |a|
  {
    hide FnvByte;
    if |a| == 0 {
      assert a + b == b;
    } else {
      FnvFoldConcat(FnvByte(hash, a[0]), a[1..], b);
      assert (a + b)[1..] == a[1..] + b;
    }
  }

  // ---------------------------------------------------------------- the hash in place

  /** Feeds the n low bytes of a value; fnv_u32_le and fnv_u64_le. */
  method FnvLe(hash: U64, value: nat, n: nat) returns (h: U64)
    ensures h == FnvFold(hash, LeBytes(value, n))
  {
    hide FnvByte, LeBytes, ByteAt;
    h := hash;
    var shift := 0;
    while shift < 8 * n
      invariant 0 <= shift <= 8 * n && shift % 8 == 0
      invariant h == FnvFold(hash, LeBytes(value, n)[..shift / 8])
    {
      var k := shift / 8;
      LeBytesAt(value, n, k);
      FnvFoldConcat(hash, LeBytes(value, n)[..k], [ByteAt(value, shift)]);
      assert LeBytes(value, n)[..k + 1] == LeBytes(value, n)[..k] + [ByteAt(value, shift)];
      FoldOne(h, ByteAt(value, shift));
      h := FnvByte(h, ByteAt(value, shift));
      shift := shift + 8;
    }
    assert LeBytes(value, n)[..n] == LeBytes(value, n);
  }

  lemma FoldOne(hash: U64, byte: U8)
    ensures FnvFold(hash, [byte]) == FnvByte(hash, byte)
  {
    hide FnvByte;
    assert [byte][1..] == [];
  }

  /** fingerprint_guest_words. */
  method FingerprintGuestWords(startPc: U32, words: seq<U32>) returns (hash: U64)
    ensures hash == FingerprintOf(startPc, words)
  {
    hide FnvByte, LeBytes;
    hash := FnvLe(FNV_OFFSET, startPc, 4);
    hash := FnvLe(hash, |words|, 8);
    var header := LeBytes(startPc, 4) + LeBytes(|words|, 8);
    FnvFoldConcat(FNV_OFFSET, LeBytes(startPc, 4), LeBytes(|words|, 8));
    FnvFoldConcat(FNV_OFFSET, header, WordBytes(words));
    for i := 0 to |words|
      invariant FnvFold(hash, WordBytes(words[i..])) == FingerprintOf(startPc, words)
    {
      FnvFoldConcat(hash, LeBytes(words[i], 4), WordBytes(words[i + 1..]));
      assert words[i..][1..] == words[i + 1..];
      hash := FnvLe(hash, words[i], 4);
    }
  }

  // ---------------------------------------------------------------- strength

  /** The prime has an inverse modulo 2^64: prime * 0xCE965057AFF6957B is one more
      than 0xCE9650590F * 2^64. */
  lemma CancelPrime(d: int, e: int)
    requires d * 1099511628211 == e * 0x1_0000_0000_0000_0000
    ensures d == 0x1_0000_0000_0000_0000 * (e * 0xCE96_5057_AFF6_957B - d * 0xCE_9650_590F)
  {
  }

  /** Multiplying by the prime modulo 2^64 loses nothing. */
  lemma MultiplyInjective(x: U64, y: U64)
    requires ToU64(x * FNV_PRIME) == ToU64(y * FNV_PRIME)
    ensures x == y
  {
    var m := 0x1_0000_0000_0000_0000;
    var q, q' := x * FNV_PRIME / m, y * FNV_PRIME / m;
    assert x * FNV_PRIME == q * m + ToU64(x * FNV_PRIME);
    assert y * FNV_PRIME == q' * m + ToU64(y * FNV_PRIME);
    CancelPrime(x as int - y, q - q');
  }

  lemma FnvByteInjective(h: U64, h': U64, byte: U8, byte': U8)
    requires FnvByte(h, byte) == FnvByte(h', byte')
    ensures byte == byte' ==> h == h'
    ensures h == h' ==> byte == byte'
  {
    hide BitXor, ToU64;
    MultiplyInjective(Xor64(h, byte), Xor64(h', byte'));
    BitXorInvolutive(h, byte);
    BitXorInvolutive(h', byte');
    BitXorCommutes(h, byte);
    BitXorCommutes(h', byte');
    BitXorInvolutive(byte, h);
    BitXorInvolutive(byte', h');
  }

  lemma {:induction false} BitXorCommutes(a: nat, b: nat)
    ensures BitXor(a, b) == BitXor(b, a)
  {
    if a != 0 && b != 0 {
      BitXorCommutes(a / 2, b / 2);
    }
  }

  /** Folding a common suffix keeps different hashes different. */
  lemma {:induction false} FoldKeepsDifference(h: U64, h': U64, bytes: seq<U8>)
    requires h != h'
    ensures FnvFold(h, bytes) != FnvFold(h', bytes)
    decreases |bytes|
  {
    hide FnvByte;
    if |bytes| > 0 {
      if FnvByte(h, bytes[0]) == FnvByte(h', bytes[0]) {
        FnvByteInjective(h, h', bytes[0], bytes[0]);
      }
      FoldKeepsDifference(FnvByte(h, bytes[0]), FnvByte(h', bytes[0]), bytes[1..]);
    }
  }

  /** Equally long and different at index k only. */
  predicate DifferOnlyAt(a: seq<U8>, b: seq<U8>, k: nat) {
    |a| == |b| && k < |a| && a[k] != b[k] && a[..k] == b[..k] && a[k + 1..] == b[k + 1..]
  }

  lemma OneByteChangesHash(hash: U64, a: seq<U8>, b: seq<U8>, k: nat)
    requires DifferOnlyAt(a, b, k)
    ensures FnvFold(hash, a) != FnvFold(hash, b)
  {
    hide FnvByte, FnvFold;
    var h := FnvFold(hash, a[..k]);
    assert a == a[..k] + ([a[k]] + a[k + 1..]) && b == b[..k] + ([b[k]] + b[k + 1..]);
    FnvFoldConcat(hash, a[..k], [a[k]] + a[k + 1..]);
    FnvFoldConcat(hash, b[..k], [b[k]] + b[k + 1..]);
    FnvFoldConcat(h, [a[k]], a[k + 1..]);
    FnvFoldConcat(h, [b[k]], b[k + 1..]);
    FoldOne(h, a[k]);
    FoldOne(h, b[k]);
    if FnvByte(h, a[k]) == FnvByte(h, b[k]) {
      FnvByteInjective(h, h, a[k], b[k]);
    }
    FoldKeepsDifference(FnvByte(h, a[k]), FnvByte(h, b[k]), a[k + 1..]);
  }

  /** For one start PC and one word count, guest words that differ in exactly one
      byte never collide. */
  lemma OneByteNeverCollides(startPc: U32, words: seq<U32>, words': seq<U32>, k: nat)
    requires |words| == |words'| && DifferOnlyAt(WordBytes(words), WordBytes(words'), k)
    ensures FingerprintOf(startPc, words) != FingerprintOf(startPc, words')
  {
    hide FnvFold, WordBytes, LeBytes;
    var header := LeBytes(startPc, 4) + LeBytes(|words|, 8);
    var a, b := WordBytes(words), WordBytes(words');
    FnvFoldConcat(FNV_OFFSET, header, a);
    FnvFoldConcat(FNV_OFFSET, header, b);
    OneByteChangesHash(FnvFold(FNV_OFFSET, header), a, b, k);
  }

  // ---------------------------------------------------------------- what is hashed

  lemma {:induction false} WordBytesAt(words: seq<U32>, k: nat)
    requires k < |words|
    ensures |WordBytes(words)| == 4 * |words| && WordBytes(words)[4 * k..4 * k + 4] == LeBytes(words[k], 4)
  {
    hide LeBytes;
    WordBytesLength(words);
    WordBytesLength(words[1..]);
    var rest := WordBytes(words[1..]);
    if k > 0 {
      WordBytesAt(words[1..], k - 1);
      assert WordBytes(words)[4 * k..4 * k + 4] == rest[4 * (k - 1)..4 * (k - 1) + 4];
    } else {
      assert WordBytes(words)[..4] == LeBytes(words[0], 4);
    }
  }

  lemma {:induction false} WordBytesLength(words: seq<U32>)
    ensures |WordBytes(words)| == 4 * |words|
  {
    hide LeBytes;
    if |words| > 0 {
      WordBytesLength(words[1..]);
    }
  }

  /** The layout of what is hashed: four bytes of start PC, eight of word count, and four
      of every word, all little-endian and nothing else. */
  lemma HashedLayout(startPc: U32, words: seq<U32>, k: nat)
    ensures var h := HashedBytes(startPc, words);
            && FingerprintOf(startPc, words) == FnvFold(FNV_OFFSET, h) && |h| == 12 + 4 * |words|
            && LeValue(h[..4]) == startPc && (|words| < Pow2(64) ==> LeValue(h[4..12]) == |words|)
            && (k < |words| ==> LeValue(h[12 + 4 * k..16 + 4 * k]) == words[k])
  {
    hide LeBytes, LeValue, FnvFold, WordBytes;
    WordBytesLength(words);
    var h, tail := HashedBytes(startPc, words), WordBytes(words);
    assert h[..4] == LeBytes(startPc, 4) && h[4..12] == LeBytes(|words|, 8);
    LeValueOfBytes(startPc, 4);
    LeValueOfBytes(|words|, 8);
    Pow2Values();
    if |words| < Pow2(64) {
      ModSmall(|words|, Pow2(64));
    }
    if k < |words| {
      WordBytesAt(words, k);
      assert h[12 + 4 * k..16 + 4 * k] == tail[4 * k..4 * k + 4];
      LeValueOfBytes(words[k], 4);
    }
  }

  lemma {:induction false} BitXorZero(a: nat)
    ensures BitXor(a, 0) == a
  {
    if a > 0 {
      BitXorZero(a / 2);
    }
  }

  /** The published FNV-1a value of the one-byte string "a". */
  lemma KnownValue()
    ensures FnvFold(FNV_OFFSET, [0x61]) == 0xAF63_DC4C_8601_EC8C
  {
    BitXorZero(114812351869895750);
    assert BitXor(229624703739791500, 1) == 229624703739791501;
    assert BitXor(459249407479583001, 3) == 459249407479583002;
    assert BitXor(918498814959166002, 6) == 918498814959166004;
    assert BitXor(1836997629918332004, 12) == 1836997629918332008;
    assert BitXor(3673995259836664009, 24) == 3673995259836664017;
    assert BitXor(7347990519673328018, 48) == 7347990519673328034;
    assert BitXor(14695981039346656037, 97) == 14695981039346656068;
    FoldOne(FNV_OFFSET, 0x61);
    RemainderUnique(14695981039346656068 * FNV_PRIME, 0x1_0000_0000_0000_0000, 875948729822, 0xAF63_DC4C_8601_EC8C);
  }

  /** Start PC and word count enter the fingerprint: start PCs that differ in one byte
      have different fingerprints for the same words. */
  lemma StartPcIsHashed(startPc: U32, startPc': U32, words: seq<U32>, k: nat)
    requires DifferOnlyAt(LeBytes(startPc, 4), LeBytes(startPc', 4), k)
    ensures FingerprintOf(startPc, words) != FingerprintOf(startPc', words)
  {
    hide FnvFold, WordBytes, LeBytes, FnvByte;
    var a, b := LeBytes(startPc, 4), LeBytes(startPc', 4);
    var tail := LeBytes(|words|, 8) + WordBytes(words);
    FnvFoldConcat(FNV_OFFSET, a, tail);
    FnvFoldConcat(FNV_OFFSET, b, tail);
    assert HashedBytes(startPc, words) == a + tail && HashedBytes(startPc', words) == b + tail;
    OneByteChangesHash(FNV_OFFSET, a, b, k);
    FoldKeepsDifference(FnvFold(FNV_OFFSET, a), FnvFold(FNV_OFFSET, b), tail);
  }
}
