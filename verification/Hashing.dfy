// Hashing of byte sequences: every byte is read and none out of bounds; the weak
// mixer is a bijection, so hashes of small fixed-size values never collide.
module Hashing {
  import opened Words

  // -------- The weak mixer --------

  function BitReverse(w: bv64): bv64 {
    var w1 := ((w >> 1) & 0x5555_5555_5555_5555) | ((w & 0x5555_5555_5555_5555) << 1);
    var w2 := ((w1 >> 2) & 0x3333_3333_3333_3333) | ((w1 & 0x3333_3333_3333_3333) << 2);
    var w4 := ((w2 >> 4) & 0x0F0F_0F0F_0F0F_0F0F) | ((w2 & 0x0F0F_0F0F_0F0F_0F0F) << 4);
    Byteswap(w4)
  }

  // Arm reverses bits, other targets reverse bytes.
  const ReversesBits: bool

  function Reversed(w: bv64): bv64 {
    if ReversesBits then BitReverse(w) else Byteswap(w)
  }

  // `MulConstant`, an odd number
  function Multiply(w: bv64): bv64 {
    w * 0x79d5_f9e0_de1e_8cf5
  }

  // The inverse of `MulConstant` modulo 2^64
  function Divide(w: bv64): bv64 {
    w * 0xf78f_29c7_1f4c_bf5d
  }

  function WeakMix(value: bv64): bv64 {
    Reversed(Multiply(value))
  }

  function WeakUnmix(hash: bv64): bv64 {
    Divide(Reversed(hash))
  }

  lemma ByteswapTwice(w: bv64)
    ensures Byteswap(Byteswap(w)) == w
  {
  }

  lemma BitReverseTwice(w: bv64)
    ensures BitReverse(BitReverse(w)) == w
  {
  }

  lemma ReversedTwice(w: bv64)
    ensures Reversed(Reversed(w)) == w
  {
    hide Byteswap, BitReverse;
    ByteswapTwice(w);
    BitReverseTwice(w);
  }

  lemma DivideProduct(v: bv64)
    ensures Divide(v * 0x79d5_f9e0_de1e_8cf5) == v
  {
  }

  lemma MultiplyQuotient(v: bv64)
    ensures Multiply(v * 0xf78f_29c7_1f4c_bf5d) == v
  {
  }

  lemma DivideMultiply(v: bv64)
    ensures Divide(Multiply(v)) == v
  {
    hide Divide;
    DivideProduct(v);
  }

  lemma MultiplyDivide(v: bv64)
    ensures Multiply(Divide(v)) == v
  {
    hide Multiply;
    MultiplyQuotient(v);
  }

  // `WeakMix` is a bijection on 64-bit words.
  lemma WeakMixBijective(v: bv64)
    ensures WeakUnmix(WeakMix(v)) == v && WeakMix(WeakUnmix(v)) == v
  {
    hide Reversed, Multiply, Divide;
    ReversedTwice(Multiply(v));
    ReversedTwice(v);
    DivideMultiply(v);
    MultiplyDivide(Reversed(v));
  }

  // Bit `i` goes to bit `63 - i`, or byte `i` to byte `7 - i`.
  lemma BitsReversed(w: bv64, i: bv64)
    requires i < 64
    ensures (BitReverse(w) >> (63 - i)) & 1 == (w >> i) & 1
  {
  }

  lemma BytesReversed(w: bv64, i: bv64)
    requires i < 8
    ensures (Byteswap(w) >> (8 * (7 - i))) & 0xFF == (w >> (8 * i)) & 0xFF
  {
  }

  lemma WeakMixOfOne()
    ensures WeakMix(1) == if ReversesBits then 0xaf31_787b_079f_ab9e else 0xf58c_1ede_e0f9_d579
  {
  }

  // -------- Little-endian reads --------

  type Bytes = seq<bv8>

  function Pair8(low: bv64, high: bv64): (w: bv64)
    ensures low <= 0xFF && high <= 0xFF ==> w <= 0xFFFF
  {
    low | (high << 8)
  }

  function Pair16(low: bv64, high: bv64): (w: bv64)
    ensures low <= 0xFFFF && high <= 0xFFFF ==> w <= 0xFFFF_FFFF
  {
    low | (high << 16)
  }

  function Pair32(low: bv64, high: bv64): bv64 {
    low | (high << 32)
  }

  function Read1(data: Bytes, at: nat): (w: bv64)
    requires at + 1 <= |data|
    ensures w <= 0xFF
  {
    data[at] as bv64
  }

  function Read2(data: Bytes, at: nat): (w: bv64)
    requires at + 2 <= |data|
    ensures w <= 0xFFFF
  {
    Pair8(Read1(data, at), Read1(data, at + 1))
  }

  function Read4(data: Bytes, at: nat): (w: bv64)
    requires at + 4 <= |data|
    ensures w <= 0xFFFF_FFFF
  {
    Pair16(Read2(data, at), Read2(data, at + 2))
  }

  function Read8(data: Bytes, at: nat): bv64
    requires at + 8 <= |data|
  {
    Pair32(Read4(data, at), Read4(data, at + 4))
  }

  // `ReadSmall` of a value of 1 to 8 bytes
  function ReadSmall(value: Bytes): bv64
    requires 1 <= |value| <= 8
  {
    var size := |value|;
    if size == 1 then Read1(value, 0)
    else if size == 2 then Read2(value, 0)
    else if size == 3 then Pair16(Read2(value, 0), Read1(value, 2))
    else if size == 4 then Read4(value, 0)
    else if size == 5 then Pair32(Read4(value, 0), Read1(value, 4))
    else if size <= 7 then Pair32(Read4(value, 0), Read4(value, size - 4))
    else Read8(value, 0)
  }

  lemma Pair8Injective(a: bv64, b: bv64, c: bv64, d: bv64)
    ensures a <= 0xFF && b <= 0xFF && c <= 0xFF && d <= 0xFF && Pair8(a, b) == Pair8(c, d) ==> a == c && b == d
  {
  }

  lemma Pair16Injective(a: bv64, b: bv64, c: bv64, d: bv64)
    ensures a <= 0xFFFF && b <= 0xFFFF && c <= 0xFFFF && d <= 0xFFFF && Pair16(a, b) == Pair16(c, d) ==> a == c && b == d
  {
    hide Pair16;
    if a <= 0xFFFF && b <= 0xFFFF && c <= 0xFFFF && d <= 0xFFFF {
      Pair16Parts(a, b);
      Pair16Parts(c, d);
    }
  }

  lemma Pair16Parts(a: bv64, b: bv64)
    requires a <= 0xFFFF && b <= 0xFFFF
    ensures Pair16(a, b) & 0xFFFF == a
    ensures Pair16(a, b) >> 16 == b
  {
  }

  lemma Pair32Injective(a: bv64, b: bv64, c: bv64, d: bv64)
    requires a <= 0xFFFF_FFFF && b <= 0xFFFF_FFFF && c <= 0xFFFF_FFFF && d <= 0xFFFF_FFFF
    ensures Pair32(a, b) == Pair32(c, d) ==> a == c && b == d
  {
  }

  lemma Read1Injective(a: Bytes, b: Bytes, i: nat)
    requires i < |a| == |b| && Read1(a, i) == Read1(b, i)
    ensures a[i] == b[i]
  {
  }

  lemma Read2Injective(a: Bytes, b: Bytes, i: nat)
    requires i + 2 <= |a| == |b| && Read2(a, i) == Read2(b, i)
    ensures a[i..i + 2] == b[i..i + 2]
  {
    hide Read1, Pair8;
    Pair8Injective(Read1(a, i), Read1(a, i + 1), Read1(b, i), Read1(b, i + 1));
    Read1Injective(a, b, i);
    Read1Injective(a, b, i + 1);
  }

  lemma Read4Injective(a: Bytes, b: Bytes, i: nat)
    requires i + 4 <= |a| == |b| && Read4(a, i) == Read4(b, i)
    ensures a[i..i + 4] == b[i..i + 4]
  {
    hide Read2, Pair16;
    Pair16Injective(Read2(a, i), Read2(a, i + 2), Read2(b, i), Read2(b, i + 2));
    Read2Injective(a, b, i);
    Read2Injective(a, b, i + 2);
    assert a[i..i + 4] == a[i..i + 2] + a[i + 2..i + 4];
    assert b[i..i + 4] == b[i..i + 2] + b[i + 2..i + 4];
  }

  lemma ReadSmallInjective(a: Bytes, b: Bytes)
    requires 1 <= |a| == |b| <= 8 && ReadSmall(a) == ReadSmall(b)
    ensures a == b
  {
    hide ReadSmall;
    var n := |a|;
    if n == 1 {
      OneByte(a, b);
    } else if n == 2 || n == 4 {
      TwoOrFourBytes(a, b);
    } else if n == 3 {
      ThreeBytes(a, b);
    } else {
      WordHalves(a, b);
    }
  }

  lemma OneByte(a: Bytes, b: Bytes)
    requires |a| == |b| == 1 && ReadSmall(a) == ReadSmall(b)
    ensures a == b
  {
    hide Read1;
    Read1Injective(a, b, 0);
  }

  lemma TwoOrFourBytes(a: Bytes, b: Bytes)
    requires |a| == |b| && (|a| == 2 || |a| == 4) && ReadSmall(a) == ReadSmall(b)
    ensures a == b
  {
    hide Read2, Read4;
    var n := |a|;
    assert a[0..n] == a && b[0..n] == b;
    if n == 2 {
      Read2Injective(a, b, 0);
    } else {
      Read4Injective(a, b, 0);
    }
  }

  lemma ThreeBytes(a: Bytes, b: Bytes)
    requires |a| == |b| == 3 && ReadSmall(a) == ReadSmall(b)
    ensures a == b
  {
    hide Read1, Read2, Pair16;
    Widen(Read1(a, 2));
    Widen(Read1(b, 2));
    Pair16Injective(Read2(a, 0), Read1(a, 2), Read2(b, 0), Read1(b, 2));
    Read2Injective(a, b, 0);
    Read1Injective(a, b, 2);
    SplitAt(a, b, 2);
  }

  lemma Widen(w: bv64)
    ensures w <= 0xFF ==> w <= 0xFFFF
    ensures w <= 0xFF ==> w <= 0xFFFF_FFFF
  {
  }

  lemma SplitAt(a: Bytes, b: Bytes, k: nat)
    requires |a| == |b| && k <= |a| && a[0..k] == b[0..k] && forall i | k <= i < |a| :: a[i] == b[i]
    ensures a == b
  {
    forall i | 0 <= i < |a| ensures a[i] == b[i] {
      if i < k {
        assert a[i] == a[0..k][i] && b[i] == b[0..k][i];
      }
    }
  }

  // Five to eight bytes: two four-byte reads, overlapping for six and seven bytes.
  lemma WordHalves(a: Bytes, b: Bytes)
    requires 5 <= |a| == |b| <= 8 && ReadSmall(a) == ReadSmall(b)
    ensures a == b
  {
    hide Read1, Read2, Read4, Pair32;
    var n := |a|;
    if n == 5 {
      Widen(Read1(a, 4));
      Widen(Read1(b, 4));
      Pair32Injective(Read4(a, 0), Read1(a, 4), Read4(b, 0), Read1(b, 4));
      Read1Injective(a, b, 4);
    } else {
      Pair32Injective(Read4(a, 0), Read4(a, n - 4), Read4(b, 0), Read4(b, n - 4));
      Read4Injective(a, b, n - 4);
      assert forall i | n - 4 <= i < n :: a[i] == a[n - 4..n][i - (n - 4)] && b[i] == b[n - 4..n][i - (n - 4)];
    }
    Read4Injective(a, b, 0);
    SplitAt(a, b, 4);
  }

  // -------- Values of at most eight bytes --------

  function Xor(buffer: bv64, data: bv64): bv64 {
    buffer ^ data
  }

  lemma XorInjective(buffer: bv64, a: bv64, b: bv64)
    ensures Xor(buffer, a) == Xor(buffer, b) ==> a == b
  {
  }

  // `HashRaw` of a value of 1 to 8 bytes
  function HashRawSmall(buffer: bv64, value: Bytes): bv64
    requires 1 <= |value| <= 8
  {
    WeakMix(Xor(buffer, ReadSmall(value)))
  }

  // For one seed, different values of one small size never collide.
  lemma SmallValuesNeverCollide(buffer: bv64, a: Bytes, b: Bytes)
    requires 1 <= |a| == |b| <= 8
    ensures HashRawSmall(buffer, a) == HashRawSmall(buffer, b) <==> a == b
  {
    hide WeakMix, WeakUnmix, ReadSmall, Xor;
    if HashRawSmall(buffer, a) == HashRawSmall(buffer, b) {
      WeakMixBijective(Xor(buffer, ReadSmall(a)));
      WeakMixBijective(Xor(buffer, ReadSmall(b)));
      XorInjective(buffer, ReadSmall(a), ReadSmall(b));
      ReadSmallInjective(a, b);
    }
  }

  // Nor do different seeds, for one small value.
  lemma SmallSeedsNeverCollide(buffer: bv64, buffer': bv64, value: Bytes)
    requires 1 <= |value| <= 8
    ensures HashRawSmall(buffer, value) == HashRawSmall(buffer', value) <==> buffer == buffer'
  {
    hide WeakMix, WeakUnmix, ReadSmall, Xor;
    var w := ReadSmall(value);
    if HashRawSmall(buffer, value) == HashRawSmall(buffer', value) {
      WeakMixBijective(Xor(buffer, w));
      WeakMixBijective(Xor(buffer', w));
      XorBack(buffer, w);
      XorBack(buffer', w);
    }
  }

  // -------- Strings of one to three bytes --------

  function Quad(low: bv64, middle: bv64, high: bv64, size: bv64): bv64 {
    ((middle << 8) | (high << 16) | low) | (size << 24)
  }

  function SizeByte(size: nat): (w: bv64)
    requires 1 <= size <= 3
    ensures w <= 3
  {
    if size == 1 then 1 else if size == 2 then 2 else 3
  }

  // `Read1To3` with the size in the fourth byte
  function ShortWord(data: Bytes): bv64
    requires 1 <= |data| <= 3
  {
    Quad(Read1(data, |data| / 2), Read1(data, 0), Read1(data, |data| - 1), SizeByte(|data|))
  }

  lemma QuadInjective(a: bv64, b: bv64, c: bv64, d: bv64, a': bv64, b': bv64, c': bv64, d': bv64)
    requires a <= 0xFF && b <= 0xFF && c <= 0xFF && d <= 3
    requires a' <= 0xFF && b' <= 0xFF && c' <= 0xFF && d' <= 3
    ensures Quad(a, b, c, d) == Quad(a', b', c', d') ==> a == a' && b == b' && c == c' && d == d'
  {
  }

  // Short strings never collide, whatever their sizes; their hash ignores the seed.
  lemma ShortStringsNeverCollide(a: Bytes, b: Bytes)
    requires 1 <= |a| <= 3 && 1 <= |b| <= 3
    ensures WeakMix(ShortWord(a)) == WeakMix(ShortWord(b)) <==> a == b
  {
    hide WeakMix, WeakUnmix, Quad, Read1;
    if WeakMix(ShortWord(a)) == WeakMix(ShortWord(b)) {
      WeakMixBijective(ShortWord(a));
      WeakMixBijective(ShortWord(b));
      QuadInjective(Read1(a, |a| / 2), Read1(a, 0), Read1(a, |a| - 1), SizeByte(|a|),
                    Read1(b, |b| / 2), Read1(b, 0), Read1(b, |b| - 1), SizeByte(|b|));
      SizesDiffer(|a|, |b|);
      Read1Injective(a, b, 0);
      Read1Injective(a, b, |a| / 2);
      Read1Injective(a, b, |a| - 1);
    }
  }

  lemma SizesDiffer(a: nat, b: nat)
    requires 1 <= a <= 3 && 1 <= b <= 3
    ensures SizeByte(a) == SizeByte(b) ==> a == b
  {
  }

  // -------- Byte strings of every length --------

  function Low64(w: bv128): bv64 {
    (w & 0xFFFF_FFFF_FFFF_FFFF) as bv64
  }

  function High64(w: bv128): bv64 {
    (w >> 64) as bv64
  }

  function Mix(lhs: bv64, rhs: bv64): bv64 {
    var product := (lhs as bv128) * (rhs as bv128);
    Xor(Low64(product), High64(product))
  }

  // `StaticRandomData`
  const POOL: seq<bv64> := [
    0x243f_6a88_85a3_08d3, 0x1319_8a2e_0370_7344, 0xa409_3822_299f_31d0, 0x082e_fa98_ec4e_6c89,
    0x4528_21e6_38d0_1377, 0xbe54_66cf_34e9_0c6c, 0xc0ac_29b7_c97c_50dd, 0x3f84_d5b5_b547_0917]

  function ByteOf(w: bv64, i: nat): bv64
    requires i < 8
  {
    match i
    case 0 => w & 0xFF
    case 1 => (w >> 8) & 0xFF
    case 2 => (w >> 16) & 0xFF
    case 3 => (w >> 24) & 0xFF
    case 4 => (w >> 32) & 0xFF
    case 5 => (w >> 40) & 0xFF
    case 6 => (w >> 48) & 0xFF
    case 7 => w >> 56
  }

  function PoolByte(i: nat): bv64
    requires i < 64
  {
    ByteOf(POOL[i / 8], i % 8)
  }

  // `SampleRandomData`: the offset must leave room in the pool.
  function SampleRandomData(offset: nat): bv64
    requires offset + 8 < 64
  {
    Pair32(Pair16(Pair8(PoolByte(offset), PoolByte(offset + 1)), Pair8(PoolByte(offset + 2), PoolByte(offset + 3))),
           Pair16(Pair8(PoolByte(offset + 4), PoolByte(offset + 5)), Pair8(PoolByte(offset + 6), PoolByte(offset + 7))))
  }

  function SampleAlignedRandomData(offset: nat): bv64
    requires offset < 8
  {
    POOL[offset]
  }

  // One mix of the 16 bytes at `at`.
  function Mix16(data: Bytes, at: nat, random: bv64, seed: bv64): bv64
    requires at + 16 <= |data|
  {
    Mix(Xor(Read8(data, at), random), Xor(Read8(data, at + 8), seed))
  }

  // `mix32` of the 32 bytes at `at`
  function Mix32(data: Bytes, at: nat, buffer: bv64, random0: bv64, random1: bv64): bv64
    requires at + 32 <= |data|
  {
    Xor(Mix16(data, at, random0, buffer), Mix16(data, at + 16, random1, buffer))
  }

  // The two running buffers after the 64-byte blocks before `at`.
  function Blocks(data: Bytes, at: nat, buffer: bv64): (bv64, bv64)
    requires at <= |data| && at % 64 == 0
  {
    if at == 0 then (Xor(buffer, POOL[0]), Xor(buffer, POOL[2])) else
      var (b0, b1) := Blocks(data, at - 64, buffer);
      (Mix32(data, at - 64, b0, POOL[4], POOL[5]), Mix32(data, at - 32, b1, POOL[6], POOL[7]))
  }

  // How many bytes the 64-byte blocks take: the block loop stops 1 to 64 bytes from the end.
  function BlockBytes(size: nat): (n: nat)
    requires size > 32
    ensures n < size <= n + 64 && n % 64 == 0
  {
    (size - 1) / 64 * 64
  }

  // The end of a long string: at most one more 32-byte block, then the overlapping tail.
  function TailHash(data: Bytes, at: nat, b0: bv64, b1: bv64): (bv64, bv64)
    requires 32 < |data| && at < |data| <= at + 64
  {
    var size := |data|;
    var extra := at + 32 < size;
    var rest := if extra then at + 32 else at;
    (if extra then Mix32(data, at, b0, POOL[4], POOL[5]) else b0,
     if rest + 16 < size then Mix32(data, size - 32, b1, POOL[6], POOL[7])
     else Mix16(data, size - 16, POOL[6], b1))
  }

  function LargeHash(buffer: bv64, data: Bytes): bv64
    requires 32 < |data| < 0x8000_0000_0000_0000
  {
    var at := BlockBytes(|data|);
    var (b0, b1) := Blocks(data, at, buffer);
    var (t0, t1) := TailHash(data, at, b0, b1);
    Mix(Xor(SizeWord(|data|), Xor(t0, t1)), 0x79d5_f9e0_de1e_8cf5)
  }

  function TinyHash(buffer: bv64, data: Bytes): bv64
    requires |data| <= 3
  {
    if |data| == 0 then Xor(buffer, POOL[0]) else WeakMix(ShortWord(data))
  }

  function ShortHash(buffer: bv64, data: Bytes): bv64
    requires 4 <= |data| <= 8
  {
    var size := |data|;
    Mix(Xor(Pair32(Read4(data, size - 4), Read4(data, 0)), buffer), SampleAlignedRandomData(size - 1))
  }

  function MediumHash(buffer: bv64, data: Bytes): bv64
    requires 9 <= |data| <= 16
  {
    var size := |data|;
    Mix(Xor(Read8(data, 0), SampleRandomData(size)), Xor(Read8(data, size - 8), buffer))
  }

  function LongHash(buffer: bv64, data: Bytes): bv64
    requires 17 <= |data| <= 32
  {
    var size := |data|;
    var seeded := Xor(buffer, SampleRandomData(size));
    Xor(Mix16(data, 0, POOL[1], seeded), Mix16(data, size - 16, POOL[3], seeded))
  }

  function SizedHash(buffer: bv64, data: Bytes): bv64
    requires |data| < 0x8000_0000_0000_0000
  {
    if |data| <= 3 then TinyHash(buffer, data)
    else if |data| <= 8 then ShortHash(buffer, data)
    else if |data| <= 16 then MediumHash(buffer, data)
    else if |data| <= 32 then LongHash(buffer, data)
    else LargeHash(buffer, data)
  }

  // -------- What the seed does to short strings --------

  ghost predicate IgnoresSeed(data: Bytes)
    requires |data| < 0x8000_0000_0000_0000
  {
    forall s1, s2 :: SizedHash(s1, data) == SizedHash(s2, data)
  }

  // Multiplying by zero forgets the other factor, multiplying by one keeps it.
  lemma MixUnits(w: bv64)
    ensures Mix(0, w) == 0 && Mix(w, 0) == 0
    ensures Mix(1, w) == w && Mix(w, 1) == w
  {
  }

  lemma XorSelf(w: bv64)
    ensures Xor(w, w) == 0 && Xor(w, Xor(w, 1)) == 1
  {
  }

  lemma XorZero(a: bv64, b: bv64)
    ensures Xor(a, b) == 0 <==> a == b
  {
    hide Xor;
    XorSelf(a);
    XorInjective(a, b, a);
  }

  lemma PoolNonZero(i: nat)
    requires i < 8
    ensures POOL[i] != 0
  {
  }

  lemma EmptyUsesSeed(data: Bytes)
    requires |data| == 0
    ensures !IgnoresSeed(data)
  {
    assert SizedHash(0, data) != SizedHash(1, data);
  }

  lemma ShortUsesSeed(data: Bytes)
    requires 4 <= |data| <= 8
    ensures !IgnoresSeed(data)
  {
    hide Mix, Xor, Read4, Pair32;
    var word := Pair32(Read4(data, |data| - 4), Read4(data, 0));
    MixUnits(POOL[|data| - 1]);
    PoolNonZero(|data| - 1);
    XorSelf(word);
    assert SizedHash(word, data) != SizedHash(Xor(word, 1), data);
  }

  lemma MediumSeed(data: Bytes)
    requires 9 <= |data| <= 16
    ensures IgnoresSeed(data) <==> Read8(data, 0) == SampleRandomData(|data|)
  {
    hide Mix, Xor, Read8, SampleRandomData;
    var low, high := Xor(Read8(data, 0), SampleRandomData(|data|)), Read8(data, |data| - 8);
    XorZero(Read8(data, 0), SampleRandomData(|data|));
    if low == 0 {
      forall s1, s2
        ensures SizedHash(s1, data) == SizedHash(s2, data)
      {
        MixUnits(Xor(high, s1));
        MixUnits(Xor(high, s2));
      }
    } else {
      MixUnits(low);
      XorSelf(high);
      assert SizedHash(high, data) != SizedHash(Xor(high, 1), data);
    }
  }

  // Up to 16 bytes, the hash ignores the seed exactly for strings of one to three bytes, and for
  // longer ones whose first word cancels the sampled one.
  lemma SeedIgnored(data: Bytes)
    requires |data| <= 16
    ensures IgnoresSeed(data)
      <==> 1 <= |data| <= 3 || (9 <= |data| && Read8(data, 0) == SampleRandomData(|data|))
  {
    hide SizedHash, IgnoresSeed, Read8, SampleRandomData;
    if |data| == 0 {
      EmptyUsesSeed(data);
    } else if |data| <= 3 {
      TinyIgnoresSeed(data);
    } else if |data| <= 8 {
      ShortUsesSeed(data);
    } else {
      MediumSeed(data);
    }
  }

  // The four words that the hash of 17 to 32 bytes is mixed from: two of them are left factors, the
  // other two are combined with the seed.
  function Factors(data: Bytes): (bv64, bv64)
    requires 17 <= |data| <= 32
  {
    (Xor(Read8(data, 0), POOL[1]), Xor(Read8(data, |data| - 16), POOL[3]))
  }

  function SeededWords(data: Bytes): (bv64, bv64)
    requires 17 <= |data| <= 32
  {
    (Read8(data, 8), Read8(data, |data| - 8))
  }

  function SumOfMixes(a: bv64, b: bv64, x: bv64, y: bv64, seeded: bv64): bv64 {
    Xor(Mix(a, Xor(x, seeded)), Mix(b, Xor(y, seeded)))
  }

  lemma LongIsSum(buffer: bv64, data: Bytes)
    requires 17 <= |data| <= 32
    ensures var (a, b) := Factors(data);
      var (x, y) := SeededWords(data);
      SizedHash(buffer, data) == SumOfMixes(a, b, x, y, Xor(buffer, SampleRandomData(|data|)))
  {
    hide Mix, Xor, Read8, SampleRandomData;
  }

  lemma XorBack(w: bv64, r: bv64)
    ensures Xor(Xor(w, r), r) == w
  {
  }

  // Two equal mixes cancel, and so do two that multiply by zero.
  lemma MixesCancel(a: bv64, b: bv64, x: bv64, y: bv64, seeded: bv64)
    requires a == b && (a == 0 || x == y)
    ensures SumOfMixes(a, b, x, y, seeded) == 0
  {
    hide Mix, Xor;
    MixUnits(Xor(x, seeded));
    MixUnits(Xor(y, seeded));
    XorSelf(Mix(a, Xor(x, seeded)));
  }

  lemma MixesDiffer(a: bv64, b: bv64, x: bv64, y: bv64)
    requires a != b && (a == 0 || b == 0 || x == y)
    ensures exists s1, s2 :: SumOfMixes(a, b, x, y, s1) != SumOfMixes(a, b, x, y, s2)
  {
    hide Mix, Xor;
    var z := if a == 0 then y else x;
    MixUnits(a);
    MixUnits(b);
    MixUnits(Xor(x, z));
    MixUnits(Xor(x, Xor(z, 1)));
    MixUnits(Xor(y, z));
    MixUnits(Xor(y, Xor(z, 1)));
    XorSelf(z);
    XorSelf(0);
    XorZero(0, a);
    XorZero(0, b);
    XorZero(a, 0);
    XorZero(a, b);
    assert SumOfMixes(a, b, x, y, z) != SumOfMixes(a, b, x, y, Xor(z, 1));
  }

  // From 17 to 32 bytes: equal factors forget the seed if they are zero or the seeded words agree,
  // and where one factor is zero or those words agree nothing else does.
  lemma LongSeed(data: Bytes)
    requires 17 <= |data| <= 32
    ensures var (a, b) := Factors(data);
      var (x, y) := SeededWords(data);
      && (a == b && (a == 0 || x == y) ==> IgnoresSeed(data) && SizedHash(0, data) == 0)
      && (a == 0 || b == 0 || x == y ==> (IgnoresSeed(data) <==> a == b))
  {
    hide Mix, Xor, Factors, SeededWords, SumOfMixes, SizedHash, SampleRandomData;
    var (a, b) := Factors(data);
    var (x, y) := SeededWords(data);
    if a == b && (a == 0 || x == y) {
      forall s
        ensures SizedHash(s, data) == 0
      {
        LongIsSum(s, data);
        MixesCancel(a, b, x, y, Xor(s, SampleRandomData(|data|)));
      }
    } else if a == 0 || b == 0 || x == y {
      MixesDiffer(a, b, x, y);
      var s1, s2 :| SumOfMixes(a, b, x, y, s1) != SumOfMixes(a, b, x, y, s2);
      var r := SampleRandomData(|data|);
      XorBack(s1, r);
      XorBack(s2, r);
      LongIsSum(Xor(s1, r), data);
      LongIsSum(Xor(s2, r), data);
      assert SizedHash(Xor(s1, r), data) != SizedHash(Xor(s2, r), data);
    }
  }

  // The words of the string cancel the constants they are mixed with.
  ghost predicate SeedCancelled(data: Bytes) {
    || (9 <= |data| <= 16 && Read8(data, 0) == SampleRandomData(|data|))
    || (17 <= |data| <= 32 && Read8(data, 0) == POOL[1] && Read8(data, |data| - 16) == POOL[3])
    || (17 <= |data| <= 32 && Read8(data, 8) == Read8(data, |data| - 8)
        && Xor(Read8(data, 0), POOL[1]) == Xor(Read8(data, |data| - 16), POOL[3]))
  }

  // All such strings, of whatever length, collide under every seed.
  lemma SeedCancelledCollide(a: Bytes, b: Bytes, seed: bv64)
    requires SeedCancelled(a) && SeedCancelled(b)
    ensures IgnoresSeed(a) && SizedHash(seed, a) == SizedHash(seed, b) == 0
  {
    hide SizedHash, IgnoresSeed;
    CancelledIsZero(a, seed);
    CancelledIsZero(b, seed);
  }

  lemma CancelledIsZero(data: Bytes, seed: bv64)
    requires SeedCancelled(data)
    ensures IgnoresSeed(data) && SizedHash(seed, data) == 0
  {
    hide Mix, Xor, Read8, SampleRandomData, SizedHash;
    if |data| <= 16 {
      MediumSeed(data);
      MediumIsZero(data, seed);
    } else {
      XorZero(Read8(data, 0), POOL[1]);
      XorZero(Read8(data, |data| - 16), POOL[3]);
      LongSeed(data);
      assert SizedHash(seed, data) == SizedHash(0, data);
    }
  }

  lemma MediumIsZero(data: Bytes, seed: bv64)
    requires 9 <= |data| <= 16 && Read8(data, 0) == SampleRandomData(|data|)
    ensures SizedHash(seed, data) == 0
  {
    hide Mix, Xor, Read8, SampleRandomData;
    XorSelf(Read8(data, 0));
    MixUnits(Xor(Read8(data, |data| - 8), seed));
  }

  // Half of such a string of 32 bytes is arbitrary.
  lemma CancelledStrings(p: Bytes, q: Bytes)
    requires |p| == |q| == 8
    ensures SeedCancelled([0x44, 0x73, 0x70, 0x03, 0x2e, 0x8a, 0x19, 0x13] + p
                          + [0x89, 0x6c, 0x4e, 0xec, 0x98, 0xfa, 0x2e, 0x08] + q)
  {
    var data := [0x44, 0x73, 0x70, 0x03, 0x2e, 0x8a, 0x19, 0x13] + p + [0x89, 0x6c, 0x4e, 0xec, 0x98, 0xfa, 0x2e, 0x08] + q;
    ReadBytes(data, 0, 0x44, 0x73, 0x70, 0x03, 0x2e, 0x8a, 0x19, 0x13);
    ReadBytes(data, 16, 0x89, 0x6c, 0x4e, 0xec, 0x98, 0xfa, 0x2e, 0x08);
  }

  // Nine bytes are enough, the last of them arbitrary.
  lemma CancelledNine(last: bv8)
    ensures SeedCancelled([0x73, 0x70, 0x03, 0x2e, 0x8a, 0x19, 0x13, 0xd0] + [last])
  {
    var data := [0x73, 0x70, 0x03, 0x2e, 0x8a, 0x19, 0x13, 0xd0] + [last];
    ReadBytes(data, 0, 0x73, 0x70, 0x03, 0x2e, 0x8a, 0x19, 0x13, 0xd0);
    assert SampleRandomData(9) == Read8(data, 0);
  }

  lemma ReadBytes(data: Bytes, at: nat, b0: bv8, b1: bv8, b2: bv8, b3: bv8, b4: bv8, b5: bv8, b6: bv8, b7: bv8)
    requires at + 8 <= |data| && data[at..at + 8] == [b0, b1, b2, b3, b4, b5, b6, b7]
    ensures Read8(data, at) == Pair32(Pair16(Pair8(b0 as bv64, b1 as bv64), Pair8(b2 as bv64, b3 as bv64)),
                                      Pair16(Pair8(b4 as bv64, b5 as bv64), Pair8(b6 as bv64, b7 as bv64)))
  {
    hide Pair8, Pair16, Pair32, Read1;
    ReadByte(data, at, 0);
    ReadByte(data, at, 1);
    ReadByte(data, at, 2);
    ReadByte(data, at, 3);
    ReadByte(data, at, 4);
    ReadByte(data, at, 5);
    ReadByte(data, at, 6);
    ReadByte(data, at, 7);
  }

  lemma ReadByte(data: Bytes, at: nat, i: nat)
    requires at + 8 <= |data| && i < 8
    ensures Read1(data, at + i) == data[at..at + 8][i] as bv64
  {
  }

  lemma TinyIgnoresSeed(data: Bytes)
    requires 1 <= |data| <= 3
    ensures IgnoresSeed(data)
  {
    hide WeakMix, ShortWord;
  }

  // -------- The hasher --------

  ghost function Span(from: nat, to: nat): (s: set<nat>)
    ensures forall i: nat :: i in s <==> from <= i < to
  {
    if to <= from then {} else Span(from, to - 1) + {to - 1}
  }

  function SizeWord(size: nat): bv64
    requires size < 0x8000_0000_0000_0000
  {
    size as bv64
  }

  class Hasher {
    var buffer: bv64
    ghost var touched: set<nat>  // the offsets of the bytes read since construction

    constructor (seed: bv64)
      ensures buffer == seed && touched == {}
    {
      buffer := seed;
      touched := {};
    }

    method Load1(data: Bytes, at: nat) returns (w: bv64)
      requires at + 1 <= |data|
      modifies this`touched
      ensures w == Read1(data, at) && touched == old(touched) + Span(at, at + 1)
    {
      w := Read1(data, at);
      touched := touched + Span(at, at + 1);
    }

    method Load4(data: Bytes, at: nat) returns (w: bv64)
      requires at + 4 <= |data|
      modifies this`touched
      ensures w == Read4(data, at) && touched == old(touched) + Span(at, at + 4)
    {
      w := Read4(data, at);
      touched := touched + Span(at, at + 4);
    }

    method Load8(data: Bytes, at: nat) returns (w: bv64)
      requires at + 8 <= |data|
      modifies this`touched
      ensures w == Read8(data, at) && touched == old(touched) + Span(at, at + 8)
    {
      w := Read8(data, at);
      touched := touched + Span(at, at + 8);
    }

    method LoadMix16(data: Bytes, at: nat, random: bv64, seed: bv64) returns (h: bv64)
      requires at + 16 <= |data|
      modifies this`touched
      ensures h == Mix16(data, at, random, seed) && touched == old(touched) + Span(at, at + 16)
    {
      hide Mix, Read8, Xor;
      var a := Load8(data, at);
      var b := Load8(data, at + 8);
      h := Mix(Xor(a, random), Xor(b, seed));
    }

    method LoadMix32(data: Bytes, at: nat, seed: bv64, random0: bv64, random1: bv64) returns (h: bv64)
      requires at + 32 <= |data|
      modifies this`touched
      ensures h == Mix32(data, at, seed, random0, random1)
      ensures touched == old(touched) + Span(at, at + 32)
    {
      hide Mix16, Xor;
      var m0 := LoadMix16(data, at, random0, seed);
      var m1 := LoadMix16(data, at + 16, random1, seed);
      h := Xor(m0, m1);
    }

    // Every byte is read, and none out of bounds.
    method HashSizedBytes(data: Bytes)
      requires |data| < 0x8000_0000_0000_0000
      modifies this
      ensures touched == old(touched) + Span(0, |data|)
      ensures buffer == SizedHash(old(buffer), data)
    {
      hide TinyHash, ShortHash, MediumHash, LongHash, LargeHash;
      if |data| <= 8 {
        if |data| >= 4 {
          HashShort(data);
        } else {
          HashTiny(data);
        }
      } else if |data| <= 16 {
        HashMedium(data);
      } else if |data| <= 32 {
        HashLong(data);
      } else {
        HashSizedBytesLarge(data);
      }
    }

    method HashTiny(data: Bytes)
      requires |data| <= 3
      modifies this
      ensures touched == old(touched) + Span(0, |data|) && buffer == TinyHash(old(buffer), data)
    {
      hide Read1, Quad, WeakMix, SizeByte, Xor;
      if |data| == 0 {
        buffer := Xor(buffer, POOL[0]);
      } else {
        var byte0 := Load1(data, 0);
        var byte1 := Load1(data, |data| - 1);
        var byte2 := Load1(data, |data| / 2);
        buffer := WeakMix(Quad(byte2, byte0, byte1, SizeByte(|data|)));
      }
    }

    method HashShort(data: Bytes)
      requires 4 <= |data| <= 8
      modifies this
      ensures touched == old(touched) + Span(0, |data|) && buffer == ShortHash(old(buffer), data)
    {
      hide Mix, Read4, Pair32, Xor, SampleAlignedRandomData;
      var low := Load4(data, 0);
      var high := Load4(data, |data| - 4);
      buffer := Mix(Xor(Pair32(high, low), buffer), SampleAlignedRandomData(|data| - 1));
    }

    method HashMedium(data: Bytes)
      requires 9 <= |data| <= 16
      modifies this
      ensures touched == old(touched) + Span(0, |data|) && buffer == MediumHash(old(buffer), data)
    {
      hide Mix, Read8, Xor, SampleRandomData;
      var sizeHash := SampleRandomData(|data|);
      var low := Load8(data, 0);
      var high := Load8(data, |data| - 8);
      buffer := Mix(Xor(low, sizeHash), Xor(high, buffer));
    }

    method HashLong(data: Bytes)
      requires 17 <= |data| <= 32
      modifies this
      ensures touched == old(touched) + Span(0, |data|) && buffer == LongHash(old(buffer), data)
    {
      hide Mix16, Xor, SampleRandomData;
      buffer := Xor(buffer, SampleRandomData(|data|));
      var m0 := LoadMix16(data, 0, POOL[1], buffer);
      var m1 := LoadMix16(data, |data| - 16, POOL[3], buffer);
      buffer := Xor(m0, m1);
    }

    method HashSizedBytesLarge(data: Bytes)
      requires 32 < |data| < 0x8000_0000_0000_0000
      modifies this
      ensures touched == old(touched) + Span(0, |data|)
      ensures buffer == LargeHash(old(buffer), data)
    {
      hide Mix, Read8, Mix32, Xor, SizeWord, TailHash, Blocks, BlockBytes;
      var size, at := |data|, 0;
      var buffer0, buffer1 := Xor(buffer, POOL[0]), Xor(buffer, POOL[2]);
      NoBlocks(data, buffer);
      while at < size - 64
        invariant at % 64 == 0 && at < size
        invariant touched == old(touched) + Span(0, at) && buffer == old(buffer)
        invariant (buffer0, buffer1) == Blocks(data, at, buffer)
      {
        OneMoreBlock(data, at, buffer);
        buffer0 := LoadMix32(data, at, buffer0, POOL[4], POOL[5]);
        buffer1 := LoadMix32(data, at + 32, buffer1, POOL[6], POOL[7]);
        at := at + 64;
      }
      LoopStops(at, size);
      buffer0, buffer1 := HashTail(data, at, buffer0, buffer1);
      buffer := Xor(buffer0, buffer1);
      buffer := Mix(Xor(SizeWord(size), buffer), 0x79d5_f9e0_de1e_8cf5);
    }

    method HashTail(data: Bytes, start: nat, b0: bv64, b1: bv64) returns (buffer0: bv64, buffer1: bv64)
      requires 32 < |data| && start < |data| <= start + 64 && Span(0, start) <= touched
      modifies this`touched
      ensures touched == old(touched) + Span(0, |data|)
      ensures (buffer0, buffer1) == TailHash(data, start, b0, b1)
    {
      hide Mix16, Mix32, Xor;
      var size, at := |data|, start;
      buffer0, buffer1 := b0, b1;
      if at < size - 32 {
        buffer0 := LoadMix32(data, at, buffer0, POOL[4], POOL[5]);
        at := at + 32;
      }
      if at < size - 16 {
        buffer1 := LoadMix32(data, size - 32, buffer1, POOL[6], POOL[7]);
      } else {
        buffer1 := LoadMix16(data, size - 16, POOL[6], buffer1);
      }
    }
  }

  lemma NoBlocks(data: Bytes, buffer: bv64)
    ensures Blocks(data, 0, buffer) == (Xor(buffer, POOL[0]), Xor(buffer, POOL[2]))
  {
    hide Xor;
  }

  lemma OneMoreBlock(data: Bytes, at: nat, buffer: bv64)
    requires at + 64 <= |data| && at % 64 == 0
    ensures Blocks(data, at + 64, buffer)
      == (Mix32(data, at, Blocks(data, at, buffer).0, POOL[4], POOL[5]),
          Mix32(data, at + 32, Blocks(data, at, buffer).1, POOL[6], POOL[7]))
  {
    hide Mix32, Xor;
  }

  lemma LoopStops(at: nat, size: nat)
    requires size > 32 && at % 64 == 0 && at < size <= at + 64
    ensures at == BlockBytes(size)
  {
  }
}
