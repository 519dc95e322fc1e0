// What the hash of a long byte string depends on: the block loop as a walk over chunks of 32 bytes, and
// strings that show that every word read, the seed and the size matter.
module HashWords {
  import opened Hashing

  // -------- Words and single bytes --------

  function Word(b0: bv8, b1: bv8, b2: bv8, b3: bv8, b4: bv8, b5: bv8, b6: bv8, b7: bv8): bv64 {
    (b0 as bv64) | ((b1 as bv64) << 8) | ((b2 as bv64) << 16) | ((b3 as bv64) << 24)
    | ((b4 as bv64) << 32) | ((b5 as bv64) << 40) | ((b6 as bv64) << 48) | ((b7 as bv64) << 56)
  }

  lemma WordOfPairs(b0: bv8, b1: bv8, b2: bv8, b3: bv8, b4: bv8, b5: bv8, b6: bv8, b7: bv8)
    ensures Word(b0, b1, b2, b3, b4, b5, b6, b7)
      == Pair32(Pair16(Pair8(b0 as bv64, b1 as bv64), Pair8(b2 as bv64, b3 as bv64)),
                Pair16(Pair8(b4 as bv64, b5 as bv64), Pair8(b6 as bv64, b7 as bv64)))
  {
    Regrouped(b0 as bv64, b1 as bv64, b2 as bv64, b3 as bv64, b4 as bv64, b5 as bv64, b6 as bv64, b7 as bv64);
  }

  lemma Regrouped(a0: bv64, a1: bv64, a2: bv64, a3: bv64, a4: bv64, a5: bv64, a6: bv64, a7: bv64)
    ensures a0 | (a1 << 8) | (a2 << 16) | (a3 << 24) | (a4 << 32) | (a5 << 40) | (a6 << 48) | (a7 << 56)
      == ((a0 | (a1 << 8)) | ((a2 | (a3 << 8)) << 16)) | (((a4 | (a5 << 8)) | ((a6 | (a7 << 8)) << 16)) << 32)
  {
  }

  lemma ReadIsWord(s: Bytes, at: nat)
    requires at + 8 <= |s|
    ensures var u := s[at..at + 8]; Read8(s, at) == Word(u[0], u[1], u[2], u[3], u[4], u[5], u[6], u[7])
  {
    hide Pair8, Pair16, Pair32, Read8, Word;
    var u := s[at..at + 8];
    ReadBytes(s, at, u[0], u[1], u[2], u[3], u[4], u[5], u[6], u[7]);
    WordOfPairs(u[0], u[1], u[2], u[3], u[4], u[5], u[6], u[7]);
  }

  function LowByte(w: bv64): bv8 {
    (w & 0xFF) as bv8
  }

  function Above(w: bv64): bv64 {
    w >> 8
  }

  function WordBytes(w: bv64): (s: Bytes)
    ensures |s| == 8
  {
    var w1 := Above(w);
    var w2 := Above(w1);
    var w3 := Above(w2);
    var w4 := Above(w3);
    var w5 := Above(w4);
    var w6 := Above(w5);
    [LowByte(w), LowByte(w1), LowByte(w2), LowByte(w3), LowByte(w4), LowByte(w5), LowByte(w6), LowByte(Above(w6))]
  }

  lemma BytesOfWord(w: bv64)
    ensures var w4 := w >> 8 >> 8 >> 8 >> 8;
      Word((w & 0xFF) as bv8, ((w >> 8) & 0xFF) as bv8, ((w >> 8 >> 8) & 0xFF) as bv8, ((w >> 8 >> 8 >> 8) & 0xFF) as bv8,
           (w4 & 0xFF) as bv8, ((w4 >> 8) & 0xFF) as bv8, ((w4 >> 8 >> 8) & 0xFF) as bv8,
           ((w4 >> 8 >> 8 >> 8) & 0xFF) as bv8) == w
  {
  }

  lemma ReadWordBytes(w: bv64)
    ensures Read8(WordBytes(w), 0) == w
  {
    hide Word, Read8;
    ReadIsWord(WordBytes(w), 0);
    BytesOfWord(w);
    assert WordBytes(w)[0..0 + 8] == WordBytes(w);
  }

  // A read depends on its eight bytes only.
  lemma ReadSame(s: Bytes, i: nat, t: Bytes, j: nat)
    requires i + 8 <= |s| && j + 8 <= |t| && s[i..i + 8] == t[j..j + 8]
    ensures Read8(s, i) == Read8(t, j)
  {
    hide Word, Read8;
    ReadIsWord(s, i);
    ReadIsWord(t, j);
  }

  function Toggled(b: bv8): (c: bv8)
    ensures c != b
  {
    b ^ 1
  }

  // The same string with the lowest bit of one byte toggled.
  function Flip(s: Bytes, p: nat): (t: Bytes)
    requires p < |s|
    ensures |t| == |s| && t[p] != s[p] && forall i | 0 <= i < |s| && i != p :: t[i] == s[i]
  {
    s[p := Toggled(s[p])]
  }

  function Unit(j: nat): bv64
    requires j < 8
  {
    match j
    case 0 => 1
    case 1 => 0x100
    case 2 => 0x1_0000
    case 3 => 0x100_0000
    case 4 => 0x1_0000_0000
    case 5 => 0x100_0000_0000
    case 6 => 0x1_0000_0000_0000
    case 7 => 0x100_0000_0000_0000
  }

  lemma Flip0(b0: bv8, b1: bv8, b2: bv8, b3: bv8, b4: bv8, b5: bv8, b6: bv8, b7: bv8)
    ensures Word(Toggled(b0), b1, b2, b3, b4, b5, b6, b7) == Xor(Word(b0, b1, b2, b3, b4, b5, b6, b7), Unit(0))
  {
  }

  lemma Flip1(b0: bv8, b1: bv8, b2: bv8, b3: bv8, b4: bv8, b5: bv8, b6: bv8, b7: bv8)
    ensures Word(b0, Toggled(b1), b2, b3, b4, b5, b6, b7) == Xor(Word(b0, b1, b2, b3, b4, b5, b6, b7), Unit(1))
  {
  }

  lemma Flip2(b0: bv8, b1: bv8, b2: bv8, b3: bv8, b4: bv8, b5: bv8, b6: bv8, b7: bv8)
    ensures Word(b0, b1, Toggled(b2), b3, b4, b5, b6, b7) == Xor(Word(b0, b1, b2, b3, b4, b5, b6, b7), Unit(2))
  {
  }

  lemma Flip3(b0: bv8, b1: bv8, b2: bv8, b3: bv8, b4: bv8, b5: bv8, b6: bv8, b7: bv8)
    ensures Word(b0, b1, b2, Toggled(b3), b4, b5, b6, b7) == Xor(Word(b0, b1, b2, b3, b4, b5, b6, b7), Unit(3))
  {
  }

  lemma Flip4(b0: bv8, b1: bv8, b2: bv8, b3: bv8, b4: bv8, b5: bv8, b6: bv8, b7: bv8)
    ensures Word(b0, b1, b2, b3, Toggled(b4), b5, b6, b7) == Xor(Word(b0, b1, b2, b3, b4, b5, b6, b7), Unit(4))
  {
  }

  lemma Flip5(b0: bv8, b1: bv8, b2: bv8, b3: bv8, b4: bv8, b5: bv8, b6: bv8, b7: bv8)
    ensures Word(b0, b1, b2, b3, b4, Toggled(b5), b6, b7) == Xor(Word(b0, b1, b2, b3, b4, b5, b6, b7), Unit(5))
  {
  }

  lemma Flip6(b0: bv8, b1: bv8, b2: bv8, b3: bv8, b4: bv8, b5: bv8, b6: bv8, b7: bv8)
    ensures Word(b0, b1, b2, b3, b4, b5, Toggled(b6), b7) == Xor(Word(b0, b1, b2, b3, b4, b5, b6, b7), Unit(6))
  {
  }

  lemma Flip7(b0: bv8, b1: bv8, b2: bv8, b3: bv8, b4: bv8, b5: bv8, b6: bv8, b7: bv8)
    ensures Word(b0, b1, b2, b3, b4, b5, b6, Toggled(b7)) == Xor(Word(b0, b1, b2, b3, b4, b5, b6, b7), Unit(7))
  {
  }

  lemma ReadFlip(s: Bytes, at: nat, j: nat)
    requires at + 8 <= |s| && j < 8
    ensures Read8(Flip(s, at + j), at) == Xor(Read8(s, at), Unit(j))
  {
    hide Word, Read8, Xor, Unit, Flip, Toggled;
    var u, v := s[at..at + 8], Flip(s, at + j)[at..at + 8];
    ReadIsWord(s, at);
    ReadIsWord(Flip(s, at + j), at);
    FlipPart(s, at, j);
    FlipWord(u, j);
  }

  lemma FlipWord(u: Bytes, j: nat)
    requires |u| == 8 && j < 8
    ensures var v := u[j := Toggled(u[j])];
      Word(v[0], v[1], v[2], v[3], v[4], v[5], v[6], v[7])
      == Xor(Word(u[0], u[1], u[2], u[3], u[4], u[5], u[6], u[7]), Unit(j))
  {
    hide Word, Xor, Unit, Toggled;
    match j
    case 0 => Flip0(u[0], u[1], u[2], u[3], u[4], u[5], u[6], u[7]);
    case 1 => Flip1(u[0], u[1], u[2], u[3], u[4], u[5], u[6], u[7]);
    case 2 => Flip2(u[0], u[1], u[2], u[3], u[4], u[5], u[6], u[7]);
    case 3 => Flip3(u[0], u[1], u[2], u[3], u[4], u[5], u[6], u[7]);
    case 4 => Flip4(u[0], u[1], u[2], u[3], u[4], u[5], u[6], u[7]);
    case 5 => Flip5(u[0], u[1], u[2], u[3], u[4], u[5], u[6], u[7]);
    case 6 => Flip6(u[0], u[1], u[2], u[3], u[4], u[5], u[6], u[7]);
    case 7 => Flip7(u[0], u[1], u[2], u[3], u[4], u[5], u[6], u[7]);
  }

  lemma FlipPart(s: Bytes, at: nat, j: nat)
    requires at + 8 <= |s| && j < 8
    ensures Flip(s, at + j)[at..at + 8] == s[at..at + 8][j := Toggled(s[at..at + 8][j])]
  {
  }

  lemma ReadElsewhere(s: Bytes, at: nat, p: nat)
    requires at + 8 <= |s| && p < |s| && !(at <= p < at + 8)
    ensures Read8(Flip(s, p), at) == Read8(s, at)
  {
    hide Read8;
    assert Flip(s, p)[at..at + 8] == s[at..at + 8];
    ReadSame(Flip(s, p), at, s, at);
  }

  // -------- The walk over chunks --------

  // The constants that the left words of a chunk are combined with: the even chunks go to the first
  // buffer and the odd ones to the second.
  function Randoms(k: nat): (bv64, bv64) {
    if k % 2 == 0 then (POOL[4], POOL[5]) else (POOL[6], POOL[7])
  }

  function Advance(data: Bytes, k: nat, buffers: (bv64, bv64)): (bv64, bv64)
    requires 32 * k + 32 <= |data|
  {
    var (r0, r1) := Randoms(k);
    if k % 2 == 0 then (Mix32(data, 32 * k, buffers.0, r0, r1), buffers.1)
    else (buffers.0, Mix32(data, 32 * k, buffers.1, r0, r1))
  }

  // The two buffers after the first `k` chunks.
  function Chunks(data: Bytes, k: nat, seed: bv64): (bv64, bv64)
    requires 32 * k <= |data|
  {
    if k == 0 then (Xor(seed, POOL[0]), Xor(seed, POOL[2]))
    else Advance(data, k - 1, Chunks(data, k - 1, seed))
  }

  // The last 16 or 32 bytes, which may overlap the last chunk.
  function Tail(data: Bytes, rest: nat, buffer: bv64): bv64
    requires 16 <= rest < |data| <= rest + 32
  {
    if rest + 16 < |data| then Mix32(data, |data| - 32, buffer, POOL[6], POOL[7])
    else Mix16(data, |data| - 16, POOL[6], buffer)
  }

  function ChunkCount(size: nat): (n: nat)
    requires size > 32
    ensures n > 0 && 32 * n < size <= 32 * n + 32
  {
    (size - 1) / 32
  }

  function Final(size: nat, mixed: bv64): bv64
    requires size < 0x8000_0000_0000_0000
  {
    Mix(Xor(SizeWord(size), mixed), 0x79d5_f9e0_de1e_8cf5)
  }

  lemma {:induction false} BlocksAreChunks(data: Bytes, at: nat, seed: bv64)
    requires at <= |data| && at % 64 == 0
    ensures Blocks(data, at, seed) == Chunks(data, at / 32, seed)
  {
    hide Mix32, Xor;
    if at > 0 {
      BlocksAreChunks(data, at - 64, seed);
      var k := (at - 64) / 32;
      assert at / 32 == k + 2 && 32 * k == at - 64 && k % 2 == 0;
      assert Chunks(data, k + 2, seed) == Advance(data, k + 1, Advance(data, k, Chunks(data, k, seed)));
    }
  }

  // The hash of more than 32 bytes: whole chunks in turn to the two buffers, then the tail, then the size.
  lemma LargeIsChunks(seed: bv64, data: Bytes)
    requires 32 < |data| < 0x8000_0000_0000_0000
    ensures var n := ChunkCount(|data|);
      var (b0, b1) := Chunks(data, n, seed);
      SizedHash(seed, data) == Final(|data|, Xor(b0, Tail(data, 32 * n, b1)))
  {
    hide Chunks, Blocks, TailHash, Advance, Tail, Xor, Mix, SizeWord, BlockBytes, ChunkCount;
    var at := BlockBytes(|data|);
    BlocksAreChunks(data, at, seed);
    TailIsChunks(data, at, seed);
  }

  lemma TailIsChunks(data: Bytes, at: nat, seed: bv64)
    requires 32 < |data| && at == BlockBytes(|data|)
    ensures var (b0, b1) := Chunks(data, at / 32, seed);
      var n := ChunkCount(|data|);
      var (c0, c1) := Chunks(data, n, seed);
      TailHash(data, at, b0, b1) == (c0, Tail(data, 32 * n, c1))
  {
    hide Mix32, Mix16, Chunks, ChunkCount, BlockBytes;
    var k := at / 32;
    CountOfBlocks(|data|);
    if at + 32 < |data| {
      AdvanceEven(data, k, seed);
    }
  }

  lemma CountOfBlocks(size: nat)
    requires size > 32
    ensures var at := BlockBytes(size);
      at % 64 == 0 && 32 * (at / 32) == at && at / 32 % 2 == 0
      && ChunkCount(size) == at / 32 + if at + 32 < size then 1 else 0
  {
    var q := (size - 1) / 64;
    HalfOf64(q);
    ByThirtyTwo(size - 1, 2 * q);
  }

  lemma HalfOf64(q: nat)
    ensures 64 * q % 64 == 0 && 64 * q / 32 == 2 * q && 2 * q % 2 == 0
  {
  }

  lemma ByThirtyTwo(x: nat, k: nat)
    requires 32 * k <= x < 32 * k + 64
    ensures x / 32 == k + if x < 32 * k + 32 then 0 else 1
  {
  }

  lemma AdvanceEven(data: Bytes, k: nat, seed: bv64)
    requires k % 2 == 0 && 32 * k + 32 <= |data|
    ensures var (b0, b1) := Chunks(data, k, seed);
      Chunks(data, k + 1, seed) == (Mix32(data, 32 * k, b0, POOL[4], POOL[5]), b1)
  {
    hide Mix32, Xor;
  }

  // -------- One chunk --------

  // What a chunk of four words makes of its buffer.
  function Step(x0: bv64, x1: bv64, x2: bv64, x3: bv64, b: bv64, r0: bv64, r1: bv64): bv64 {
    Xor(Mix(Xor(x0, r0), Xor(x1, b)), Mix(Xor(x2, r1), Xor(x3, b)))
  }

  lemma XorCommutes(a: bv64, b: bv64)
    ensures Xor(a, b) == Xor(b, a)
  {
  }

  lemma XorNothing(a: bv64)
    ensures Xor(a, 0) == a
  {
  }

  // A left factor of 1 keeps what it multiplies, and one of 0 drops it.
  lemma StepSets(v: bv64, b: bv64, x3: bv64, r0: bv64, r1: bv64)
    ensures Step(Xor(r0, 1), Xor(v, b), r1, x3, b, r0, r1) == v
  {
    hide Mix, Xor;
    XorCancels(1, r0);
    XorBack(v, b);
    XorSelf(r1);
    XorNothing(v);
    MixUnits(v);
    MixUnits(Xor(x3, b));
  }

  lemma XorCancels(w: bv64, r: bv64)
    ensures Xor(Xor(r, w), r) == w
  {
    hide Xor;
    XorCommutes(r, w);
    XorBack(w, r);
  }

  lemma XorBetween(v: bv64, r: bv64)
    ensures Xor(Xor(Xor(v, r), 1), r) == Xor(v, 1)
  {
  }

  // -------- Chunks as four words --------

  datatype Four = Four(x0: bv64, x1: bv64, x2: bv64, x3: bv64)

  function FourAt(data: Bytes, at: nat): Four
    requires at + 32 <= |data|
  {
    Four(Read8(data, at), Read8(data, at + 8), Read8(data, at + 16), Read8(data, at + 24))
  }

  function Chunk(w: Four): (s: Bytes)
    ensures |s| == 32
  {
    WordBytes(w.x0) + WordBytes(w.x1) + WordBytes(w.x2) + WordBytes(w.x3)
  }

  function StepOf(k: nat, w: Four, b: bv64): bv64 {
    var (r0, r1) := Randoms(k);
    Step(w.x0, w.x1, w.x2, w.x3, b, r0, r1)
  }

  lemma ReadWord(d: Bytes, w: bv64, e: Bytes)
    ensures Read8(d + WordBytes(w) + e, |d|) == w
  {
    hide Read8, WordBytes;
    var s := d + WordBytes(w) + e;
    assert s[|d|..|d| + 8] == WordBytes(w) && WordBytes(w)[0..0 + 8] == WordBytes(w);
    ReadSame(s, |d|, WordBytes(w), 0);
    ReadWordBytes(w);
  }

  lemma ReadChunk(d: Bytes, w: Four, e: Bytes)
    ensures FourAt(d + Chunk(w) + e, |d|) == w
  {
    hide Read8, WordBytes;
    var s := d + Chunk(w) + e;
    var b0, b1, b2, b3 := WordBytes(w.x0), WordBytes(w.x1), WordBytes(w.x2), WordBytes(w.x3);
    assert s == d + b0 + (b1 + b2 + b3 + e);
    assert s == (d + b0) + b1 + (b2 + b3 + e);
    assert s == (d + b0 + b1) + b2 + (b3 + e);
    assert s == (d + b0 + b1 + b2) + b3 + e;
    ReadWord(d, w.x0, b1 + b2 + b3 + e);
    ReadWord(d + b0, w.x1, b2 + b3 + e);
    ReadWord(d + b0 + b1, w.x2, b3 + e);
    ReadWord(d + b0 + b1 + b2, w.x3, e);
  }

  // The walk over chunks, by their words.
  lemma ChunksStep(data: Bytes, k: nat, seed: bv64)
    requires 32 * k + 32 <= |data|
    ensures var (b0, b1) := Chunks(data, k, seed);
      Chunks(data, k + 1, seed) ==
        if k % 2 == 0 then (StepOf(k, FourAt(data, 32 * k), b0), b1) else (b0, StepOf(k, FourAt(data, 32 * k), b1))
  {
    hide Xor, Mix, Read8;
  }

  lemma {:induction false} ChunksSame(s: Bytes, t: Bytes, k: nat, seed: bv64)
    requires 32 * k <= |s| && 32 * k <= |t| && s[..32 * k] == t[..32 * k]
    ensures Chunks(s, k, seed) == Chunks(t, k, seed)
  {
    hide Chunks, StepOf, FourAt;
    if k > 0 {
      assert s[..32 * k][..32 * (k - 1)] == s[..32 * (k - 1)] && t[..32 * k][..32 * (k - 1)] == t[..32 * (k - 1)];
      ChunksSame(s, t, k - 1, seed);
      ChunksStep(s, k - 1, seed);
      ChunksStep(t, k - 1, seed);
      FourSame(s, t, 32 * (k - 1));
    } else {
      ChunksStart(s, seed);
      ChunksStart(t, seed);
    }
  }

  lemma ChunksStart(s: Bytes, seed: bv64)
    ensures Chunks(s, 0, seed) == (Xor(seed, POOL[0]), Xor(seed, POOL[2]))
  {
  }

  lemma FourSame(s: Bytes, t: Bytes, at: nat)
    requires at + 32 <= |s| && at + 32 <= |t| && s[..at + 32] == t[..at + 32]
    ensures FourAt(s, at) == FourAt(t, at)
  {
    hide Read8;
    ReadWithin(s, t, at + 32, at);
    ReadWithin(s, t, at + 32, at + 8);
    ReadWithin(s, t, at + 32, at + 16);
    ReadWithin(s, t, at + 32, at + 24);
  }

  lemma ReadWithin(s: Bytes, t: Bytes, n: nat, at: nat)
    requires at + 8 <= n <= |s| && n <= |t| && s[..n] == t[..n]
    ensures Read8(s, at) == Read8(t, at)
  {
    hide Read8;
    assert s[at..at + 8] == s[..n][at..at + 8] && t[at..at + 8] == t[..n][at..at + 8];
    ReadSame(s, at, t, at);
  }

  // One more chunk.
  lemma ChunksAppend(d: Bytes, k: nat, w: Four, e: Bytes, seed: bv64)
    requires |d| == 32 * k
    ensures var (b0, b1) := Chunks(d, k, seed);
      Chunks(d + Chunk(w) + e, k + 1, seed) ==
        if k % 2 == 0 then (StepOf(k, w, b0), b1) else (b0, StepOf(k, w, b1))
  {
    hide Chunks, StepOf, FourAt, Chunk;
    var s := d + Chunk(w) + e;
    assert s[..32 * k] == d[..32 * k];
    ChunksSame(s, d, k, seed);
    ChunksStep(s, k, seed);
    ReadChunk(d, w, e);
  }

  // -------- A chunk that is sensitive to one of its words --------

  // A chunk that gives `v`, and gives something else when word `m` changes.
  function Sensitive(m: nat, v: bv64, b: bv64, r0: bv64, r1: bv64): Four {
    match m
    case 0 => Four(Xor(v, r0), Xor(b, 1), r1, 0)
    case 1 => Four(Xor(r0, 1), Xor(v, b), r1, 0)
    case 2 => Four(Xor(r0, 1), Xor(v, b), r1, Xor(b, 1))
    case _ => Four(Xor(r0, 1), Xor(v, b), Xor(r1, 1), b)
  }

  function Changed(w: Four, m: nat): Four {
    match m
    case 0 => w.(x0 := Xor(w.x0, 1))
    case 1 => w.(x1 := Xor(w.x1, 1))
    case 2 => w.(x2 := Xor(w.x2, 1))
    case _ => w.(x3 := Xor(w.x3, 1))
  }

  function StepWith(w: Four, b: bv64, r0: bv64, r1: bv64): bv64 {
    Step(w.x0, w.x1, w.x2, w.x3, b, r0, r1)
  }

  // The second pair of words is dropped.
  lemma StepFirst(x0: bv64, x1: bv64, x3: bv64, b: bv64, r0: bv64, r1: bv64)
    ensures Step(x0, x1, r1, x3, b, r0, r1) == Mix(Xor(x0, r0), Xor(x1, b))
  {
    hide Mix, Xor;
    XorSelf(r1);
    MixUnits(Xor(x3, b));
    XorNothing(Mix(Xor(x0, r0), Xor(x1, b)));
  }

  // The first pair gives `v`.
  lemma StepAdds(v: bv64, x2: bv64, x3: bv64, b: bv64, r0: bv64, r1: bv64)
    ensures Step(Xor(r0, 1), Xor(v, b), x2, x3, b, r0, r1) == Xor(v, Mix(Xor(x2, r1), Xor(x3, b)))
  {
    hide Mix, Xor;
    XorCancels(1, r0);
    XorBack(v, b);
    MixUnits(v);
  }

  lemma XorSwaps(a: bv64, b: bv64)
    ensures Xor(Xor(a, b), 1) == Xor(Xor(a, 1), b)
  {
  }

  lemma SensitiveGives(m: nat, v: bv64, b: bv64, r0: bv64, r1: bv64)
    ensures StepWith(Sensitive(m, v, b, r0, r1), b, r0, r1) == v
    ensures StepWith(Changed(Sensitive(m, v, b, r0, r1), m), b, r0, r1) == Xor(v, 1)
  {
    hide Mix, Xor, Step;
    match m
    case 0 => Sensitive0(v, b, r0, r1);
    case 1 => Sensitive1(v, b, r0, r1);
    case 2 => Sensitive2(v, b, r0, r1);
    case _ => Sensitive3(v, b, r0, r1);
  }

  lemma Sensitive0(v: bv64, b: bv64, r0: bv64, r1: bv64)
    ensures Step(Xor(v, r0), Xor(b, 1), r1, 0, b, r0, r1) == v
    ensures Step(Xor(Xor(v, r0), 1), Xor(b, 1), r1, 0, b, r0, r1) == Xor(v, 1)
  {
    hide Mix, Xor, Step;
    StepFirst(Xor(v, r0), Xor(b, 1), 0, b, r0, r1);
    StepFirst(Xor(Xor(v, r0), 1), Xor(b, 1), 0, b, r0, r1);
    XorBack(v, r0);
    XorBetween(v, r0);
    XorCancels(1, b);
    MixUnits(v);
    MixUnits(Xor(v, 1));
  }

  lemma Sensitive1(v: bv64, b: bv64, r0: bv64, r1: bv64)
    ensures Step(Xor(r0, 1), Xor(v, b), r1, 0, b, r0, r1) == v
    ensures Step(Xor(r0, 1), Xor(Xor(v, b), 1), r1, 0, b, r0, r1) == Xor(v, 1)
  {
    hide Mix, Xor, Step;
    XorSwaps(v, b);
    StepSets(v, b, 0, r0, r1);
    StepSets(Xor(v, 1), b, 0, r0, r1);
  }

  lemma Sensitive2(v: bv64, b: bv64, r0: bv64, r1: bv64)
    ensures Step(Xor(r0, 1), Xor(v, b), r1, Xor(b, 1), b, r0, r1) == v
    ensures Step(Xor(r0, 1), Xor(v, b), Xor(r1, 1), Xor(b, 1), b, r0, r1) == Xor(v, 1)
  {
    hide Mix, Xor, Step;
    StepAdds(v, r1, Xor(b, 1), b, r0, r1);
    StepAdds(v, Xor(r1, 1), Xor(b, 1), b, r0, r1);
    XorSelf(r1);
    XorCancels(1, r1);
    XorCancels(1, b);
    XorNothing(v);
    MixUnits(1);
  }

  lemma Sensitive3(v: bv64, b: bv64, r0: bv64, r1: bv64)
    ensures Step(Xor(r0, 1), Xor(v, b), Xor(r1, 1), b, b, r0, r1) == v
    ensures Step(Xor(r0, 1), Xor(v, b), Xor(r1, 1), Xor(b, 1), b, r0, r1) == Xor(v, 1)
  {
    hide Mix, Xor, Step;
    StepAdds(v, Xor(r1, 1), b, b, r0, r1);
    StepAdds(v, Xor(r1, 1), Xor(b, 1), b, r0, r1);
    XorSelf(b);
    XorCancels(1, r1);
    XorCancels(1, b);
    XorNothing(v);
    MixUnits(1);
  }

  // A chunk that leaves any buffer as it is.
  lemma PassingGives(b: bv64, r0: bv64, r1: bv64)
    ensures StepWith(Four(Xor(r0, 1), 0, r1, 0), b, r0, r1) == b
  {
    hide Mix, Xor;
    XorCommutes(0, b);
    XorNothing(b);
    XorCancels(1, r0);
    XorSelf(r1);
    MixUnits(b);
  }

  // The seed for which the second buffer starts with `v`.
  function SeedFor(v: bv64): bv64 {
    Xor(v, POOL[2])
  }

  lemma SeedStarts(v: bv64, s: Bytes)
    ensures Chunks(s, 0, SeedFor(v)).1 == v
  {
    hide Xor;
    XorBack(v, POOL[2]);
  }

  // Chunks that set the two buffers to given values.
  lemma {:induction false} SetPrefix(k: nat, v0: bv64, v1: bv64) returns (d: Bytes)
    ensures |d| == 32 * k && Chunks(d, k, SeedFor(v1)).1 == v1
    ensures k > 0 ==> Chunks(d, k, SeedFor(v1)).0 == v0
  {
    hide Chunks, Sensitive, Changed, Chunk, SeedFor, Xor, Randoms, Step;
    if k == 0 {
      d := [];
      SeedStarts(v1, d);
    } else {
      var p := SetPrefix(k - 1, v0, v1);
      var (b0, b1) := Chunks(p, k - 1, SeedFor(v1));
      var (r0, r1) := Randoms(k - 1);
      var w := if (k - 1) % 2 == 0 then Sensitive(1, v0, b0, r0, r1) else Sensitive(1, v1, b1, r0, r1);
      SensitiveGives(1, v0, b0, r0, r1);
      SensitiveGives(1, v1, b1, r0, r1);
      ChunksAppend(p, k - 1, w, [], SeedFor(v1));
      d := p + Chunk(w);
      assert d == p + Chunk(w) + [];
    }
  }

  // The same, so that a change of the lowest bit of word `m` of chunk `i` changes its buffer by 1.
  lemma {:induction false} SensitivePrefix(i: nat, m: nat, k: nat, v0: bv64, v1: bv64) returns (d: Bytes)
    requires i < k && m < 4
    ensures |d| == 32 * k && Chunks(d, k, SeedFor(v1)) == (v0, v1)
    ensures Chunks(Flip(d, 32 * i + 8 * m), k, SeedFor(v1)) == if i % 2 == 0 then (Xor(v0, 1), v1) else (v0, Xor(v1, 1))
    decreases k
  {
    hide Chunks, Sensitive, Changed, Chunk, SeedFor, Xor, Flip, Randoms, Step;
    var p := 32 * i + 8 * m;
    var (r0, r1) := Randoms(k - 1);
    if k == i + 1 {
      var s := SetPrefix(i, v0, v1);
      var (b0, b1) := Chunks(s, i, SeedFor(v1));
      var (v, b) := if i % 2 == 0 then (v0, b0) else (v1, b1);
      var w := Sensitive(m, v, b, r0, r1);
      SensitiveGives(m, v, b, r0, r1);
      ChunksAppend(s, i, w, [], SeedFor(v1));
      d := s + Chunk(w);
      assert d == s + Chunk(w) + [];
      FlippedChunk(s, i, w, m, SeedFor(v1));
    } else {
      var s := SensitivePrefix(i, m, k - 1, v0, v1);
      var w := Four(Xor(r0, 1), 0, r1, 0);
      PassingGives(v0, r0, r1);
      PassingGives(v1, r0, r1);
      PassingGives(Xor(v0, 1), r0, r1);
      PassingGives(Xor(v1, 1), r0, r1);
      ChunksAppend(s, k - 1, w, [], SeedFor(v1));
      ChunksAppend(Flip(s, p), k - 1, w, [], SeedFor(v1));
      d := s + Chunk(w);
      FlipFirst(s, Chunk(w), p);
      assert d == s + Chunk(w) + [] && Flip(d, p) == Flip(s, p) + Chunk(w) + [];
    }
  }

  lemma FlipFirst(s: Bytes, t: Bytes, p: nat)
    requires p < |s|
    ensures Flip(s + t, p) == Flip(s, p) + t
  {
  }

  lemma FlippedChunk(s: Bytes, i: nat, w: Four, m: nat, seed: bv64)
    requires |s| == 32 * i && m < 4
    ensures var (b0, b1) := Chunks(s, i, seed);
      Chunks(Flip(s + Chunk(w), 32 * i + 8 * m), i + 1, seed) ==
        if i % 2 == 0 then (StepOf(i, Changed(w, m), b0), b1) else (b0, StepOf(i, Changed(w, m), b1))
  {
    hide Chunks, StepOf, Chunk, Flip, FourAt, Changed;
    var d, p := s + Chunk(w), 32 * i + 8 * m;
    assert d == s + Chunk(w) + [] && d[..32 * i] == s;
    assert Flip(d, p)[..32 * i] == s[..32 * i];
    ChunksSame(Flip(d, p), s, i, seed);
    ChunksStep(Flip(d, p), i, seed);
    ReadChunk(s, w, []);
    FourFlipped(d, 32 * i, m);
  }

  lemma FourFlipped(d: Bytes, at: nat, m: nat)
    requires at + 32 <= |d| && m < 4
    ensures FourAt(Flip(d, at + 8 * m), at) == Changed(FourAt(d, at), m)
  {
    hide Read8, Flip, Xor;
    var p := at + 8 * m;
    ReadFlip(d, p, 0);
    assert Unit(0) == 1;
    if m != 0 { ReadElsewhere(d, at, p); }
    if m != 1 { ReadElsewhere(d, at + 8, p); }
    if m != 2 { ReadElsewhere(d, at + 16, p); }
    if m != 3 { ReadElsewhere(d, at + 24, p); }
  }

  // -------- The last chunk and the tail --------

  // A string from its first chunks, two words of the last chunk, and the rest.
  function Whole(d: Bytes, q0: bv64, q1: bv64, last: Bytes): (s: Bytes)
    ensures |s| == |d| + 16 + |last|
  {
    d + WordBytes(q0) + WordBytes(q1) + last
  }

  function LastFour(q0: bv64, q1: bv64, last: Bytes): Four
    requires |last| > 16
  {
    Four(q0, q1, Read8(last, 0), Read8(last, 8))
  }

  // What is combined with the size at the end, when chunk `k` is the last one.
  function Mixed(k: nat, buffers: (bv64, bv64), q0: bv64, q1: bv64, last: Bytes): bv64
    requires 16 < |last| <= 48
  {
    if k % 2 == 0 then Xor(StepOf(k, LastFour(q0, q1, last), buffers.0), Tail(last, 16, buffers.1))
    else Xor(buffers.0, Tail(last, 16, StepOf(k, LastFour(q0, q1, last), buffers.1)))
  }

  lemma WholeWords(d: Bytes, q0: bv64, q1: bv64, last: Bytes)
    requires |last| > 16
    ensures FourAt(Whole(d, q0, q1, last), |d|) == LastFour(q0, q1, last)
  {
    hide Read8, WordBytes;
    var s := Whole(d, q0, q1, last);
    assert s == d + WordBytes(q0) + (WordBytes(q1) + last);
    ReadWord(d, q0, WordBytes(q1) + last);
    ReadWord(d + WordBytes(q0), q1, last);
    ReadLast(s, last, 0);
    ReadLast(s, last, 8);
  }

  lemma ReadLast(s: Bytes, last: Bytes, at: nat)
    requires |last| <= |s| && s[|s| - |last|..] == last && at + 8 <= |last|
    ensures Read8(s, |s| - |last| + at) == Read8(last, at)
  {
    hide Read8;
    var i := |s| - |last| + at;
    assert s[i..i + 8] == s[|s| - |last|..][at..at + 8];
    ReadSame(s, i, last, at);
  }

  lemma WholeTail(s: Bytes, last: Bytes, rest: nat, b: bv64)
    requires 16 < |last| <= 48 && |last| <= |s| && s[|s| - |last|..] == last && rest == |s| - |last| + 16
    ensures Tail(s, rest, b) == Tail(last, 16, b)
  {
    hide Read8, Mix, Xor;
    var n := |last|;
    ReadLast(s, last, n - 8);
    ReadLast(s, last, n - 16);
    if n > 32 {
      ReadLast(s, last, n - 24);
      ReadLast(s, last, n - 32);
    }
  }

  lemma WholeHash(d: Bytes, k: nat, q0: bv64, q1: bv64, last: Bytes, seed: bv64)
    requires |d| == 32 * k && 16 < |last| <= 48 && |Whole(d, q0, q1, last)| < 0x8000_0000_0000_0000
    ensures SizedHash(seed, Whole(d, q0, q1, last))
      == Final(|Whole(d, q0, q1, last)|, Mixed(k, Chunks(d, k, seed), q0, q1, last))
  {
    hide SizedHash, Final, Chunks, Tail, StepOf, LastFour, Read8, Xor, FourAt, ChunkCount;
    var s := Whole(d, q0, q1, last);
    LargeIsChunks(seed, s);
    assert ChunkCount(|s|) == k + 1;
    assert s[..32 * k] == d[..32 * k] && d[..32 * k] == d && s[|s| - |last|..] == last;
    ChunksSame(s, d, k, seed);
    ChunksStep(s, k, seed);
    WholeWords(d, q0, q1, last);
    var (b0, b1) := Chunks(s, k + 1, seed);
    WholeTail(s, last, 32 * (k + 1), b1);
  }

  // -------- What a difference comes to --------

  lemma UnitsMix()
    ensures forall j: nat | j < 8 :: Mix(Unit(j), 0x79d5_f9e0_de1e_8cf5) != 0
  {
    hide Mix;
    UnitMix0();
    UnitMix1();
    UnitMix2();
    UnitMix3();
    UnitMix4();
    UnitMix5();
    UnitMix6();
    UnitMix7();
  }

  lemma UnitMix0()
    ensures Mix(1, 0x79d5_f9e0_de1e_8cf5) != 0
  {
  }

  lemma UnitMix1()
    ensures Mix(0x100, 0x79d5_f9e0_de1e_8cf5) != 0
  {
  }

  lemma UnitMix2()
    ensures Mix(0x1_0000, 0x79d5_f9e0_de1e_8cf5) != 0
  {
  }

  lemma UnitMix3()
    ensures Mix(0x100_0000, 0x79d5_f9e0_de1e_8cf5) != 0
  {
  }

  lemma UnitMix4()
    ensures Mix(0x1_0000_0000, 0x79d5_f9e0_de1e_8cf5) != 0
  {
  }

  lemma UnitMix5()
    ensures Mix(0x100_0000_0000, 0x79d5_f9e0_de1e_8cf5) != 0
  {
  }

  lemma UnitMix6()
    ensures Mix(0x1_0000_0000_0000, 0x79d5_f9e0_de1e_8cf5) != 0
  {
  }

  lemma UnitMix7()
    ensures Mix(0x100_0000_0000_0000, 0x79d5_f9e0_de1e_8cf5) != 0
  {
  }

  // The size cancels in one string and leaves one bit in the other.
  lemma FinalDiffers(size: nat, j: nat)
    requires size < 0x8000_0000_0000_0000 && j < 8
    ensures Final(size, SizeWord(size)) != Final(size, Xor(SizeWord(size), Unit(j)))
  {
    hide Mix, Xor, SizeWord, Unit;
    XorSelf(SizeWord(size));
    XorCommutes(SizeWord(size), Xor(SizeWord(size), Unit(j)));
    XorCancels(Unit(j), SizeWord(size));
    MixUnits(0x79d5_f9e0_de1e_8cf5);
    UnitsMix();
  }

  // The hash of `s` changes with the lowest bit of byte `p`.
  ghost predicate Sees(seed: bv64, s: Bytes, p: nat)
    requires p < |s| < 0x8000_0000_0000_0000
  {
    SizedHash(seed, s) != SizedHash(seed, Flip(s, p))
  }

  // Byte `p` matters for strings of this size.
  ghost predicate Matters(size: nat, p: nat)
    requires p < size < 0x8000_0000_0000_0000
  {
    exists seed, s: Bytes :: |s| == size && Sees(seed, s, p)
  }

  lemma SeesOneBit(seed: bv64, s: Bytes, p: nat, j: nat)
    requires p < |s| < 0x8000_0000_0000_0000 && j < 8
    requires SizedHash(seed, s) == Final(|s|, SizeWord(|s|))
    requires SizedHash(seed, Flip(s, p)) == Final(|s|, Xor(SizeWord(|s|), Unit(j)))
    ensures Sees(seed, s, p) && Matters(|s|, p)
  {
    hide SizedHash, Final, SizeWord, Unit, Xor;
    FinalDiffers(|s|, j);
  }

  // -------- Changing one byte of a whole string --------

  lemma FlipWordBytes(w: bv64)
    ensures Flip(WordBytes(w), 0) == WordBytes(Xor(w, 1))
  {
    hide LowByte, Above, Toggled, Xor;
    FlipFirstByte(w);
    FlipOtherBytes(w);
  }

  lemma FlipFirstByte(w: bv64)
    ensures LowByte(Xor(w, 1)) == Toggled(LowByte(w))
  {
  }

  lemma FlipOtherBytes(w: bv64)
    ensures Above(Xor(w, 1)) == Above(w)
  {
  }

  lemma FlipFirstWord(d: Bytes, q0: bv64, q1: bv64, last: Bytes)
    ensures Flip(Whole(d, q0, q1, last), |d|) == Whole(d, Xor(q0, 1), q1, last)
  {
    hide WordBytes, Flip, Xor;
    FlipWordBytes(q0);
    FlipInside(d, WordBytes(q0), WordBytes(q1) + last, 0);
    assert Whole(d, q0, q1, last) == d + WordBytes(q0) + (WordBytes(q1) + last);
    assert Whole(d, Xor(q0, 1), q1, last) == d + WordBytes(Xor(q0, 1)) + (WordBytes(q1) + last);
  }

  lemma FlipSecondWord(d: Bytes, q0: bv64, q1: bv64, last: Bytes)
    ensures Flip(Whole(d, q0, q1, last), |d| + 8) == Whole(d, q0, Xor(q1, 1), last)
  {
    hide WordBytes, Flip, Xor;
    FlipWordBytes(q1);
    FlipInside(d + WordBytes(q0), WordBytes(q1), last, 0);
  }

  lemma FlipRest(d: Bytes, q0: bv64, q1: bv64, last: Bytes, p: nat)
    requires p < |last|
    ensures Flip(Whole(d, q0, q1, last), |d| + 16 + p) == Whole(d, q0, q1, Flip(last, p))
  {
    hide WordBytes, Flip;
    var first := d + WordBytes(q0) + WordBytes(q1);
    FlipInside(first, last, [], p);
    assert first + last + [] == Whole(d, q0, q1, last) && first + Flip(last, p) + [] == Whole(d, q0, q1, Flip(last, p));
  }

  lemma FlipPrefix(d: Bytes, q0: bv64, q1: bv64, last: Bytes, p: nat)
    requires p < |d|
    ensures Flip(Whole(d, q0, q1, last), p) == Whole(Flip(d, p), q0, q1, last)
  {
    hide WordBytes, Flip;
    var rest := WordBytes(q0) + WordBytes(q1) + last;
    FlipInside([], d, rest, p);
    assert [] + d + rest == Whole(d, q0, q1, last) && [] + Flip(d, p) + rest == Whole(Flip(d, p), q0, q1, last);
  }

  lemma FlipInside(a: Bytes, b: Bytes, c: Bytes, p: nat)
    requires p < |b|
    ensures Flip(a + b + c, |a| + p) == a + Flip(b, p) + c
  {
  }

  // -------- Tails --------

  function Zeros(n: nat): (s: Bytes)
    ensures |s| == n
  {
    seq(n, _ => 0)
  }

  lemma ReadZeros(s: Bytes, at: nat)
    requires at + 8 <= |s| && forall i | at <= i < at + 8 :: s[i] == 0
    ensures Read8(s, at) == 0
  {
    hide Word, Read8;
    ReadIsWord(s, at);
    NoBits();
  }

  lemma NoBits()
    ensures Word(0, 0, 0, 0, 0, 0, 0, 0) == 0
  {
  }

  // How much of the rest lies before the tail.
  function Before(size: nat): (n: nat)
    requires 16 < size <= 48
    ensures 1 <= n <= 16
  {
    if size > 32 then size - 32 else size - 16
  }

  // A tail that passes its buffer on.
  function PassingTail(size: nat): (s: Bytes)
    requires 16 < size <= 48
    ensures |s| == size - Before(size)
  {
    if size > 32 then WordBytes(POOL[6]) + WordBytes(0) + WordBytes(Xor(POOL[7], 1)) + WordBytes(0)
    else WordBytes(Xor(POOL[6], 1)) + WordBytes(0)
  }

  lemma TailWords(last: Bytes, b: bv64)
    requires 16 < |last| <= 48
    ensures Tail(last, 16, b) ==
      if |last| > 32 then StepWith(FourAt(last, |last| - 32), b, POOL[6], POOL[7])
      else Mix(Xor(Read8(last, |last| - 16), POOL[6]), Xor(Read8(last, |last| - 8), b))
  {
    hide Read8, Mix, Xor;
  }

  lemma PassingTailPasses(pad: Bytes, size: nat, b: bv64)
    requires 16 < size <= 48 && |pad| == Before(size)
    ensures Tail(pad + PassingTail(size), 16, b) == b
  {
    hide Read8, Mix, Xor, WordBytes, Step, Tail, FourAt;
    var last := pad + PassingTail(size);
    TailWords(last, b);
    if size > 32 {
      var w := Four(POOL[6], 0, Xor(POOL[7], 1), 0);
      assert last == pad + Chunk(w) + [];
      ReadChunk(pad, w, []);
      PassingSecond(b, POOL[6], POOL[7]);
    } else {
      var w0 := Xor(POOL[6], 1);
      assert last == pad + WordBytes(w0) + WordBytes(0);
      assert last == pad + WordBytes(w0) + WordBytes(0) + [];
      ReadWord(pad, w0, WordBytes(0));
      ReadWord(pad + WordBytes(w0), 0, []);
      KeptByOne(b, POOL[6]);
    }
  }

  lemma KeptByOne(b: bv64, r: bv64)
    ensures Mix(Xor(Xor(r, 1), r), Xor(0, b)) == b
  {
    hide Mix, Xor;
    XorCancels(1, r);
    XorCommutes(0, b);
    XorNothing(b);
    MixUnits(b);
  }

  lemma PassingSecond(b: bv64, r0: bv64, r1: bv64)
    ensures StepWith(Four(r0, 0, Xor(r1, 1), 0), b, r0, r1) == b
  {
    hide Mix, Xor;
    KeptByOne(b, r1);
    XorSelf(r0);
    MixUnits(Xor(0, b));
    XorCommutes(0, b);
    XorNothing(b);
  }

  // -------- The last chunk --------

  lemma LastSets0(v: bv64, x2: bv64, x3: bv64, b: bv64, r0: bv64, r1: bv64)
    ensures var s := Mix(Xor(x2, r1), Xor(x3, b));
      && Step(Xor(Xor(v, s), r0), Xor(b, 1), x2, x3, b, r0, r1) == v
      && Step(Xor(Xor(Xor(v, s), r0), 1), Xor(b, 1), x2, x3, b, r0, r1) == Xor(v, 1)
  {
    hide Mix, Xor;
    var s := Mix(Xor(x2, r1), Xor(x3, b));
    XorBack(Xor(v, s), r0);
    XorBetween(Xor(v, s), r0);
    XorCancels(1, b);
    MixUnits(Xor(v, s));
    MixUnits(Xor(Xor(v, s), 1));
    XorBack(v, s);
    XorBetween(v, s);
  }

  lemma LastSets1(v: bv64, x2: bv64, x3: bv64, b: bv64, r0: bv64, r1: bv64)
    ensures var s := Mix(Xor(x2, r1), Xor(x3, b));
      && Step(Xor(r0, 1), Xor(Xor(v, s), b), x2, x3, b, r0, r1) == v
      && Step(Xor(r0, 1), Xor(Xor(Xor(v, s), b), 1), x2, x3, b, r0, r1) == Xor(v, 1)
  {
    hide Mix, Xor, Step;
    var s := Mix(Xor(x2, r1), Xor(x3, b));
    StepAdds(Xor(v, s), x2, x3, b, r0, r1);
    StepAdds(Xor(Xor(v, s), 1), x2, x3, b, r0, r1);
    XorSwaps(Xor(v, s), b);
    XorBack(v, s);
    XorBetween(v, s);
  }

  lemma LastSets2(v: bv64, x2: bv64, b: bv64, r0: bv64, r1: bv64)
    ensures var q1 := Xor(Xor(v, Xor(x2, r1)), b);
      && Step(Xor(r0, 1), q1, x2, Xor(b, 1), b, r0, r1) == v
      && Step(Xor(r0, 1), q1, Xor(x2, 1), Xor(b, 1), b, r0, r1) == Xor(v, 1)
  {
    hide Mix, Xor, Step;
    var s := Xor(x2, r1);
    StepAdds(Xor(v, s), x2, Xor(b, 1), b, r0, r1);
    StepAdds(Xor(v, s), Xor(x2, 1), Xor(b, 1), b, r0, r1);
    XorCancels(1, b);
    MixUnits(s);
    MixUnits(Xor(Xor(x2, 1), r1));
    XorBack(v, s);
    XorSwaps(x2, r1);
    XorMeets(v, s, 1);
  }

  lemma LastSets3(v: bv64, x3: bv64, b: bv64, r0: bv64, r1: bv64)
    ensures var q1 := Xor(Xor(v, Xor(x3, b)), b);
      && Step(Xor(r0, 1), q1, Xor(r1, 1), x3, b, r0, r1) == v
      && Step(Xor(r0, 1), q1, Xor(r1, 1), Xor(x3, 1), b, r0, r1) == Xor(v, 1)
  {
    hide Mix, Xor, Step;
    var s := Xor(x3, b);
    StepAdds(Xor(v, s), Xor(r1, 1), x3, b, r0, r1);
    StepAdds(Xor(v, s), Xor(r1, 1), Xor(x3, 1), b, r0, r1);
    XorCancels(1, r1);
    MixUnits(s);
    MixUnits(Xor(Xor(x3, 1), b));
    XorBack(v, s);
    XorSwaps(x3, b);
    XorMeets(v, s, 1);
  }

  lemma XorMeets(a: bv64, t: bv64, u: bv64)
    ensures Xor(Xor(a, t), Xor(t, u)) == Xor(a, u)
  {
  }

  // -------- Every byte at the start of a word of a chunk --------

  // Two strings that differ in one byte and end in the size and the size with one bit changed.
  lemma Conclude(d: Bytes, k: nat, q0: bv64, q1: bv64, last: Bytes, p: nat, seed: bv64,
                 d': Bytes, q0': bv64, q1': bv64, last': Bytes, j: nat)
    requires |d| == |d'| == 32 * k && 16 < |last| == |last'| <= 48 && j < 8
    requires p < |Whole(d, q0, q1, last)| < 0x8000_0000_0000_0000
    requires Flip(Whole(d, q0, q1, last), p) == Whole(d', q0', q1', last')
    requires Mixed(k, Chunks(d, k, seed), q0, q1, last) == SizeWord(|Whole(d, q0, q1, last)|)
    requires Mixed(k, Chunks(d', k, seed), q0', q1', last') == Xor(SizeWord(|Whole(d, q0, q1, last)|), Unit(j))
    ensures Matters(|Whole(d, q0, q1, last)|, p)
  {
    hide Mixed, Chunks, SizeWord, Unit, Xor, Final, SizedHash, Matters, Sees, Flip;
    WholeHash(d, k, q0, q1, last, seed);
    WholeHash(d', k, q0', q1', last', seed);
    SeesOneBit(seed, Whole(d, q0, q1, last), p, j);
  }

  // The size, and what is left of it for the rest after chunk `k` has begun.
  ghost predicate Fits(size: nat, k: nat, last: nat) {
    size == 32 * k + 16 + last && 16 < last <= 48 && size < 0x8000_0000_0000_0000
  }

  lemma PrefixEvenEven(size: nat, k: nat, n: nat, i: nat, m: nat)
    requires Fits(size, k, n) && i < k && m < 4 && i % 2 == 0 && k % 2 == 0
    ensures Matters(size, 32 * i + 8 * m)
  {
    hide Chunks, SizeWord, Xor, Matters, Flip, Whole, WordBytes, Read8, Randoms, Tail, Step, Zeros;
    var (r0, r1) := Randoms(k);
    var last := WordBytes(r1) + Zeros(n - 8);
    var t, p := Tail(last, 16, 0), 32 * i + 8 * m;
    var v0, q0 := Xor(SizeWord(size), t), Xor(r0, 1);
    var d := SensitivePrefix(i, m, k, v0, 0);
    ReadWord([], r1, Zeros(n - 8));
    assert [] + WordBytes(r1) + Zeros(n - 8) == last;
    PassingFirst(v0, Read8(last, 8), r0, r1);
    PassingFirst(Xor(v0, 1), Read8(last, 8), r0, r1);
    XorBack(SizeWord(size), t);
    XorBetween(SizeWord(size), t);
    FlipPrefix(d, q0, 0, last, p);
    Conclude(d, k, q0, 0, last, p, SeedFor(0), Flip(d, p), q0, 0, last, 0);
  }

  lemma PassingFirst(b: bv64, x3: bv64, r0: bv64, r1: bv64)
    ensures StepWith(Four(Xor(r0, 1), 0, r1, x3), b, r0, r1) == b
  {
    hide Mix, Xor;
    XorCommutes(0, b);
    XorNothing(b);
    XorCancels(1, r0);
    XorSelf(r1);
    MixUnits(b);
    MixUnits(Xor(x3, b));
  }

  lemma PrefixEvenOdd(size: nat, k: nat, n: nat, i: nat, m: nat)
    requires Fits(size, k, n) && i < k && m < 4 && i % 2 == 0 && k % 2 == 1
    ensures Matters(size, 32 * i + 8 * m)
  {
    hide Chunks, SizeWord, Xor, Matters, Flip, Whole, WordBytes, Read8, Randoms, Tail, Step, Zeros, Mix, PassingTail;
    var last, p := Zeros(n), 32 * i + 8 * m;
    var t := Tail(last, 16, StepOf(k, LastFour(0, 0, last), 0));
    var v0 := Xor(SizeWord(size), t);
    var d := SensitivePrefix(i, m, k, v0, 0);
    XorBack(SizeWord(size), t);
    XorBetween(SizeWord(size), t);
    FlipPrefix(d, 0, 0, last, p);
    Conclude(d, k, 0, 0, last, p, SeedFor(0), Flip(d, p), 0, 0, last, 0);
  }

  // A rest whose tail passes its buffer on.
  function PassingRest(head: Bytes, n: nat): (s: Bytes)
    requires 16 < n <= 48 && |head| <= Before(n)
    ensures |s| == n && s[..|head|] == head
  {
    head + Zeros(Before(n) - |head|) + PassingTail(n)
  }

  lemma PassingRestPasses(head: Bytes, n: nat, b: bv64)
    requires 16 < n <= 48 && |head| <= Before(n)
    ensures Tail(PassingRest(head, n), 16, b) == b
  {
    hide Tail, PassingTail;
    PassingTailPasses(head + Zeros(Before(n) - |head|), n, b);
  }

  lemma PrefixOddEven(size: nat, k: nat, n: nat, i: nat, m: nat)
    requires Fits(size, k, n) && i < k && m < 4 && i % 2 == 1 && k % 2 == 0
    ensures Matters(size, 32 * i + 8 * m)
  {
    hide Chunks, SizeWord, Xor, Matters, Flip, Whole, WordBytes, Read8, Randoms, Tail, Step, Zeros, Mix, PassingRest;
    var (r0, r1) := Randoms(k);
    var last, p, v := PassingRest([], n), 32 * i + 8 * m, SizeWord(size);
    var d := SensitivePrefix(i, m, k, 0, 0);
    var s := Mix(Xor(Read8(last, 0), r1), Xor(Read8(last, 8), 0));
    var q0, q1 := Xor(r0, 1), Xor(Xor(v, s), 0);
    LastSets1(v, Read8(last, 0), Read8(last, 8), 0, r0, r1);
    PassingRestPasses([], n, 0);
    PassingRestPasses([], n, Xor(0, 1));
    XorCommutes(0, 1);
    XorNothing(1);
    XorNothing(v);
    FlipPrefix(d, q0, q1, last, p);
    Conclude(d, k, q0, q1, last, p, SeedFor(0), Flip(d, p), q0, q1, last, 0);
  }

  // Two left factors that differ by 1 pass a change of the buffer on, whatever they are.
  lemma Compensated(x2: bv64, b: bv64, r0: bv64, r1: bv64)
    ensures var q0 := Xor(r0, Xor(Xor(x2, r1), 1));
      && Step(q0, b, x2, b, b, r0, r1) == 0
      && Step(q0, b, x2, b, Xor(b, 1), r0, r1) == 1
  {
    hide Mix, Xor;
    var g := Xor(x2, r1);
    XorCancels(Xor(g, 1), r0);
    XorSelf(b);
    XorSelf(0);
    XorCommutes(b, Xor(b, 1));
    XorCancels(1, b);
    MixUnits(g);
    MixUnits(Xor(g, 1));
    XorCancels(1, g);
  }

  lemma PrefixOddOdd(size: nat, k: nat, n: nat, i: nat, m: nat)
    requires Fits(size, k, n) && i < k && m < 4 && i % 2 == 1 && k % 2 == 1
    ensures Matters(size, 32 * i + 8 * m)
  {
    hide Chunks, SizeWord, Xor, Matters, Flip, Whole, WordBytes, Read8, Randoms, Tail, Step, Zeros, Mix, PassingRest;
    var (r0, r1) := Randoms(k);
    var last, p, v := PassingRest([], n), 32 * i + 8 * m, SizeWord(size);
    var g2, b := Read8(last, 0), Read8(last, 8);
    var d := SensitivePrefix(i, m, k, v, b);
    var q0 := Xor(r0, Xor(Xor(g2, r1), 1));
    Compensated(g2, b, r0, r1);
    PassingRestPasses([], n, 0);
    PassingRestPasses([], n, 1);
    XorNothing(v);
    FlipPrefix(d, q0, b, last, p);
    Conclude(d, k, q0, b, last, p, SeedFor(b), Flip(d, p), q0, b, last, 0);
  }

  // The first two words of the last chunk.
  lemma LastEven01(size: nat, k: nat, n: nat, m: nat)
    requires Fits(size, k, n) && m < 2 && k % 2 == 0
    ensures Matters(size, 32 * k + 8 * m)
  {
    hide Chunks, SizeWord, Xor, Matters, Flip, Whole, WordBytes, Read8, Randoms, Tail, Step, Zeros, Mix, PassingTail;
    var (r0, r1) := Randoms(k);
    var last := Zeros(n);
    var d := SetPrefix(k, 0, 0);
    var (b0, b1) := Chunks(d, k, SeedFor(0));
    var t := Tail(last, 16, b1);
    var v := Xor(SizeWord(size), t);
    XorBack(SizeWord(size), t);
    XorBetween(SizeWord(size), t);
    LastChanges(d, k, m, v, b0, last, size);
  }

  lemma LastOdd01(size: nat, k: nat, n: nat, m: nat)
    requires Fits(size, k, n) && m < 2 && k % 2 == 1
    ensures Matters(size, 32 * k + 8 * m)
  {
    hide Chunks, SizeWord, Xor, Matters, Flip, Whole, WordBytes, Read8, Randoms, Tail, Step, Zeros, Mix, PassingRest;
    var last := PassingRest([], n);
    var d := SetPrefix(k, 0, 0);
    var (b0, b1) := Chunks(d, k, SeedFor(0));
    var v := SizeWord(size);
    PassingRestPasses([], n, v);
    PassingRestPasses([], n, Xor(v, 1));
    XorCommutes(0, v);
    XorNothing(v);
    XorCommutes(0, Xor(v, 1));
    XorNothing(Xor(v, 1));
    LastChanges(d, k, m, v, b1, last, size);
  }

  // The last chunk gives `v` in one string and differs by 1 in the other, and nothing else differs.
  ghost predicate Arranged(d: Bytes, k: nat, v: bv64, b: bv64, last: Bytes, size: nat, seed: bv64) {
    && Fits(size, k, |last|) && |d| == 32 * k
    && var (b0, b1) := Chunks(d, k, seed);
      && b == (if k % 2 == 0 then b0 else b1)
      && SizeWord(size) == (if k % 2 == 0 then Xor(v, Tail(last, 16, b1)) else Xor(b0, Tail(last, 16, v)))
      && Xor(SizeWord(size), 1)
         == (if k % 2 == 0 then Xor(Xor(v, 1), Tail(last, 16, b1)) else Xor(b0, Tail(last, 16, Xor(v, 1))))
  }

  lemma LastShows(d: Bytes, k: nat, v: bv64, b: bv64, size: nat, seed: bv64, p: nat,
                  q0: bv64, q1: bv64, last: Bytes, q0': bv64, q1': bv64, last': Bytes)
    requires Arranged(d, k, v, b, last, size, seed) && |last'| == |last| && p < size
    requires StepOf(k, LastFour(q0, q1, last), b) == v
    requires StepOf(k, LastFour(q0', q1', last'), b) == Xor(v, 1)
    requires forall x :: Tail(last', 16, x) == Tail(last, 16, x)
    requires Flip(Whole(d, q0, q1, last), p) == Whole(d, q0', q1', last')
    ensures Matters(size, p)
  {
    hide StepOf, LastFour, Chunks, SizeWord, Xor, Matters, Flip, Whole, Tail;
    UnitZero();
    Conclude(d, k, q0, q1, last, p, seed, d, q0', q1', last', 0);
  }

  lemma UnitZero()
    ensures Unit(0) == 1
  {
  }

  lemma LastChanges(d: Bytes, k: nat, m: nat, v: bv64, b: bv64, last: Bytes, size: nat)
    requires Arranged(d, k, v, b, last, size, SeedFor(0)) && m < 2
    ensures Matters(size, 32 * k + 8 * m)
  {
    hide Arranged, Chunks, SizeWord, Xor, Matters, Flip, Whole, WordBytes, Read8, Randoms, Tail, Step, Zeros, Mix,
         PassingTail;
    assert Fits(size, k, |last|) && |d| == 32 * k by { ArrangedFits(d, k, v, b, last, size, SeedFor(0)); }
    var (r0, r1) := Randoms(k);
    var x2, x3 := Read8(last, 0), Read8(last, 8);
    var s := Mix(Xor(x2, r1), Xor(x3, b));
    if m == 0 {
      var q0, q1 := Xor(Xor(v, s), r0), Xor(b, 1);
      LastSets0(v, x2, x3, b, r0, r1);
      FlipFirstWord(d, q0, q1, last);
      LastShows(d, k, v, b, size, SeedFor(0), 32 * k, q0, q1, last, Xor(q0, 1), q1, last);
    } else {
      var q0, q1 := Xor(r0, 1), Xor(Xor(v, s), b);
      LastSets1(v, x2, x3, b, r0, r1);
      FlipSecondWord(d, q0, q1, last);
      LastShows(d, k, v, b, size, SeedFor(0), 32 * k + 8, q0, q1, last, q0, Xor(q1, 1), last);
    }
  }

  lemma ArrangedFits(d: Bytes, k: nat, v: bv64, b: bv64, last: Bytes, size: nat, seed: bv64)
    requires Arranged(d, k, v, b, last, size, seed)
    ensures Fits(size, k, |last|) && |d| == 32 * k
  {
  }

  // A byte before the tail does not change it.
  lemma TailElsewhere(last: Bytes, p: nat, b: bv64)
    requires 16 < |last| <= 48 && p < Before(|last|)
    ensures Tail(Flip(last, p), 16, b) == Tail(last, 16, b)
  {
    hide Read8, Mix, Xor, Flip;
    var n := |last|;
    ReadElsewhere(last, n - 8, p);
    ReadElsewhere(last, n - 16, p);
    if n > 32 {
      ReadElsewhere(last, n - 24, p);
      ReadElsewhere(last, n - 32, p);
    }
  }

  // The third word of the last chunk, next to one that differs from the buffer by 1.
  lemma LastThird(d: Bytes, k: nat, v: bv64, b: bv64, last: Bytes, size: nat, seed: bv64)
    requires Arranged(d, k, v, b, last, size, seed) && Read8(last, 8) == Xor(b, 1)
    ensures Matters(size, 32 * k + 16)
  {
    hide Arranged, Chunks, SizeWord, Xor, Matters, Flip, Whole, WordBytes, Read8, Randoms, Tail, Step, Zeros, Mix,
         PassingTail;
    assert Fits(size, k, |last|) && |d| == 32 * k by { ArrangedFits(d, k, v, b, last, size, seed); }
    var (r0, r1) := Randoms(k);
    var x2, q0 := Read8(last, 0), Xor(r0, 1);
    var q1 := Xor(Xor(v, Xor(x2, r1)), b);
    LastSets2(v, x2, b, r0, r1);
    UnitZero();
    ReadFlip(last, 0, 0);
    ReadElsewhere(last, 8, 0);
    TailStays(last, 0);
    FlipRest(d, q0, q1, last, 0);
    LastShows(d, k, v, b, size, seed, 32 * k + 16, q0, q1, last, q0, q1, Flip(last, 0));
  }

  lemma TailStays(last: Bytes, p: nat)
    requires 16 < |last| <= 48 && p < Before(|last|)
    ensures forall x :: Tail(Flip(last, p), 16, x) == Tail(last, 16, x)
  {
    hide Tail, Flip;
    forall x
      ensures Tail(Flip(last, p), 16, x) == Tail(last, 16, x)
    {
      TailElsewhere(last, p, x);
    }
  }

  lemma LastEven2(size: nat, k: nat, n: nat)
    requires Fits(size, k, n) && k % 2 == 0
    ensures Matters(size, 32 * k + 16)
  {
    hide Chunks, SizeWord, Xor, Matters, Flip, Whole, WordBytes, Read8, Randoms, Tail, Step, Zeros, Mix, PassingTail;
    var d := SetPrefix(k, 0, 0);
    var (b0, b1) := Chunks(d, k, SeedFor(0));
    var last := Zeros(8) + WordBytes(Xor(b0, 1)) + Zeros(n - 16);
    ReadWord(Zeros(8), Xor(b0, 1), Zeros(n - 16));
    var t := Tail(last, 16, b1);
    XorBack(SizeWord(size), t);
    XorBetween(SizeWord(size), t);
    LastThird(d, k, Xor(SizeWord(size), t), b0, last, size, SeedFor(0));
  }

  lemma LastOdd2(size: nat, k: nat, n: nat)
    requires Fits(size, k, n) && k % 2 == 1
    ensures Matters(size, 32 * k + 16)
  {
    hide Chunks, SizeWord, Xor, Matters, Flip, Whole, WordBytes, Read8, Randoms, Tail, Step, Zeros, Mix, PassingRest;
    var last, v := PassingRest([], n), SizeWord(size);
    var b := Xor(Read8(last, 8), 1);
    var d := SetPrefix(k, 0, b);
    XorBack(Read8(last, 8), 1);
    PassesOn(last, n, v);
    LastThird(d, k, v, b, last, size, SeedFor(b));
  }

  lemma PassesOn(last: Bytes, n: nat, v: bv64)
    requires 16 < n <= 48 && last == PassingRest([], n)
    ensures Xor(0, Tail(last, 16, v)) == v && Xor(0, Tail(last, 16, Xor(v, 1))) == Xor(v, 1)
  {
    hide Xor, Tail, PassingRest;
    PassingRestPasses([], n, v);
    PassingRestPasses([], n, Xor(v, 1));
    XorCommutes(0, v);
    XorNothing(v);
    XorCommutes(0, Xor(v, 1));
    XorNothing(Xor(v, 1));
  }

  // The fourth word of the last chunk, if the tail does not read its first byte.
  lemma LastFourth(d: Bytes, k: nat, v: bv64, b: bv64, last: Bytes, size: nat)
    requires Arranged(d, k, v, b, last, size, SeedFor(0))
    requires Read8(last, 0) == Xor(Randoms(k).1, 1) && 8 < Before(|last|)
    ensures Matters(size, 32 * k + 24)
  {
    hide Arranged, Chunks, SizeWord, Xor, Matters, Flip, Whole, WordBytes, Read8, Randoms, Tail, Step, Zeros, Mix,
         PassingTail;
    assert Fits(size, k, |last|) && |d| == 32 * k by { ArrangedFits(d, k, v, b, last, size, SeedFor(0)); }
    var (r0, r1) := Randoms(k);
    var x3, q0 := Read8(last, 8), Xor(r0, 1);
    var q1 := Xor(Xor(v, Xor(x3, b)), b);
    LastSets3(v, x3, b, r0, r1);
    UnitZero();
    ReadFlip(last, 8, 0);
    ReadElsewhere(last, 0, 8);
    TailStays(last, 8);
    FlipRest(d, q0, q1, last, 8);
    LastShows(d, k, v, b, size, SeedFor(0), 32 * k + 24, q0, q1, last, q0, q1, Flip(last, 8));
  }

  lemma LastEven3(size: nat, k: nat, n: nat)
    requires Fits(size, k, n) && k % 2 == 0 && 8 < Before(n)
    ensures Matters(size, 32 * k + 24)
  {
    hide Chunks, SizeWord, Xor, Matters, Flip, Whole, WordBytes, Read8, Randoms, Tail, Step, Zeros, Mix, PassingTail;
    var d := SetPrefix(k, 0, 0);
    var (b0, b1) := Chunks(d, k, SeedFor(0));
    var w := Xor(Randoms(k).1, 1);
    var last := WordBytes(w) + Zeros(n - 8);
    ReadWord([], w, Zeros(n - 8));
    assert [] + WordBytes(w) + Zeros(n - 8) == last;
    var t := Tail(last, 16, b1);
    XorBack(SizeWord(size), t);
    XorBetween(SizeWord(size), t);
    LastFourth(d, k, Xor(SizeWord(size), t), b0, last, size);
  }

  lemma LastOdd3(size: nat, k: nat, n: nat)
    requires Fits(size, k, n) && k % 2 == 1 && 8 < Before(n)
    ensures Matters(size, 32 * k + 24)
  {
    hide Chunks, SizeWord, Xor, Matters, Flip, Whole, WordBytes, Read8, Randoms, Tail, Step, Zeros, Mix, PassingRest;
    var d := SetPrefix(k, 0, 0);
    var (b0, b1) := Chunks(d, k, SeedFor(0));
    var w, v := Xor(Randoms(k).1, 1), SizeWord(size);
    var last := PassingRest(WordBytes(w), n);
    ReadWithin(last, WordBytes(w), 8, 0);
    ReadWordBytes(w);
    PassingRestPasses(WordBytes(w), n, v);
    PassingRestPasses(WordBytes(w), n, Xor(v, 1));
    XorCommutes(0, v);
    XorNothing(v);
    XorCommutes(0, Xor(v, 1));
    XorNothing(Xor(v, 1));
    LastFourth(d, k, v, b1, last, size);
  }

  // -------- Bytes of the tail --------

  // Words for which the last chunk gives `v`, also when byte `p` of the rest changes.
  lemma LastKeeps(k: nat, v: bv64, b: bv64, last: Bytes, p: nat) returns (q0: bv64, q1: bv64)
    requires 16 < |last| <= 48 && 8 <= p < |last| && (p >= 16 || Read8(last, 0) == Randoms(k).1)
    ensures StepOf(k, LastFour(q0, q1, last), b) == StepOf(k, LastFour(q0, q1, Flip(last, p)), b) == v
  {
    hide Xor, Flip, Read8, Randoms, Step, Mix;
    var (r0, r1) := Randoms(k);
    q0, q1 := Xor(r0, 1), Xor(Xor(v, Mix(Xor(Read8(last, 0), r1), Xor(Read8(last, 8), b))), b);
    LastSets1(v, Read8(last, 0), Read8(last, 8), b, r0, r1);
    ReadElsewhere(last, 0, p);
    if p >= 16 {
      ReadElsewhere(last, 8, p);
    } else {
      StepIgnores(q0, q1, Read8(last, 8), Read8(Flip(last, p), 8), b, r0, r1);
    }
  }

  // A byte that the tail reads, for a buffer of 1, and that does not change the last chunk.
  lemma TailMatters(size: nat, k: nat, last: Bytes, p: nat, j: nat)
    requires Fits(size, k, |last|) && 8 <= p < |last| && j < 8
    requires p >= 16 || Read8(last, 0) == Randoms(k).1
    requires Tail(Flip(last, p), 16, 1) == Xor(Tail(last, 16, 1), Unit(j))
    ensures Matters(size, 32 * k + 16 + p)
  {
    hide StepOf, LastFour, Chunks, SizeWord, Xor, Matters, Flip, Whole, WordBytes, Read8, Randoms, Tail, Step, Zeros,
         Unit, Mix, PassingTail;
    var t, z := Tail(last, 16, 1), SizeWord(size);
    var d := SetPrefix(k, Xor(z, t), 1);
    var (b0, b1) := Chunks(d, k, SeedFor(1));
    var (v, b) := if k % 2 == 0 then (Xor(z, t), b0) else (1, b1);
    var q0, q1 := LastKeeps(k, v, b, last, p);
    XorBack(z, t);
    XorMeets(z, t, Unit(j));
    FlipRest(d, q0, q1, last, p);
    Conclude(d, k, q0, q1, last, 32 * k + 16 + p, SeedFor(1), d, q0, q1, Flip(last, p), j);
  }

  lemma StepIgnores(x0: bv64, x1: bv64, x3: bv64, x3': bv64, b: bv64, r0: bv64, r1: bv64)
    ensures Step(x0, x1, r1, x3, b, r0, r1) == Step(x0, x1, r1, x3', b, r0, r1)
  {
    hide Mix, Xor, Step;
    StepFirst(x0, x1, x3, b, r0, r1);
    StepFirst(x0, x1, x3', b, r0, r1);
  }

  // One of the words of a tail, with the others such that it shows.
  lemma LeftWordShows(x: bv64, u: bv64, r: bv64)
    ensures Mix(Xor(Xor(x, u), r), Xor(0, 1)) == Xor(Mix(Xor(x, r), Xor(0, 1)), u)
  {
    hide Mix, Xor;
    XorCommutes(0, 1);
    XorNothing(1);
    MixUnits(Xor(Xor(x, u), r));
    MixUnits(Xor(x, r));
    XorExchange(x, u, r);
  }

  lemma XorExchange(a: bv64, b: bv64, c: bv64)
    ensures Xor(Xor(a, b), c) == Xor(Xor(a, c), b)
  {
    hide Xor;
    XorRegroups(a, b, c);
    XorRegroups(a, c, b);
    XorCommutes(b, c);
  }

  lemma XorRegroups(a: bv64, b: bv64, c: bv64)
    ensures Xor(Xor(a, b), c) == Xor(a, Xor(b, c))
  {
    hide Xor;
    XorMeets(a, b, Xor(b, c));
    XorCommutes(b, Xor(b, c));
    XorCancels(c, b);
  }

  lemma RightWordShows(x: bv64, u: bv64, b: bv64, r: bv64)
    ensures Mix(Xor(Xor(r, 1), r), Xor(Xor(x, u), b)) == Xor(Mix(Xor(Xor(r, 1), r), Xor(x, b)), u)
  {
    hide Mix, Xor;
    XorCancels(1, r);
    MixUnits(Xor(Xor(x, u), b));
    MixUnits(Xor(x, b));
    XorExchange(x, u, b);
  }

  lemma ShowsInSum(a: bv64, c: bv64, u: bv64)
    ensures Xor(Xor(a, u), c) == Xor(Xor(a, c), u) && Xor(c, Xor(a, u)) == Xor(Xor(c, a), u)
  {
    hide Xor;
    XorExchange(a, u, c);
    XorRegroups(c, a, u);
  }

  // A narrow tail, word by word.
  lemma NarrowTail(last: Bytes, b: bv64)
    requires 16 < |last| <= 32
    ensures Tail(last, 16, b) == Mix(Xor(Read8(last, |last| - 16), POOL[6]), Xor(Read8(last, |last| - 8), b))
  {
    hide Read8, Mix, Xor;
  }

  // A wide tail, word by word.
  lemma WideTail(last: Bytes, b: bv64)
    requires 32 < |last| <= 48
    ensures Tail(last, 16, b)
      == Xor(Mix(Xor(Read8(last, |last| - 32), POOL[6]), Xor(Read8(last, |last| - 24), b)),
             Mix(Xor(Read8(last, |last| - 16), POOL[7]), Xor(Read8(last, |last| - 8), b)))
  {
    hide Read8, Mix, Xor;
  }

  lemma NarrowLeft(last: Bytes, j: nat)
    requires 16 < |last| <= 32 && j < 8 && Read8(last, |last| - 8) == 0
    ensures Tail(Flip(last, |last| - 16 + j), 16, 1) == Xor(Tail(last, 16, 1), Unit(j))
  {
    hide Read8, Mix, Xor, Flip, Unit, Tail;
    var n := |last|;
    var p := n - 16 + j;
    NarrowTail(last, 1);
    NarrowTail(Flip(last, p), 1);
    ReadFlip(last, n - 16, j);
    ReadElsewhere(last, n - 8, p);
    LeftWordShows(Read8(last, n - 16), Unit(j), POOL[6]);
  }

  lemma NarrowRight(last: Bytes, j: nat)
    requires 16 < |last| <= 32 && j < 8 && Read8(last, |last| - 16) == Xor(POOL[6], 1)
    ensures Tail(Flip(last, |last| - 8 + j), 16, 1) == Xor(Tail(last, 16, 1), Unit(j))
  {
    hide Read8, Mix, Xor, Flip, Unit, Tail;
    var n := |last|;
    var p := n - 8 + j;
    NarrowTail(last, 1);
    NarrowTail(Flip(last, p), 1);
    ReadFlip(last, n - 8, j);
    ReadElsewhere(last, n - 16, p);
    RightWordShows(Read8(last, n - 8), Unit(j), 1, POOL[6]);
  }

  lemma WideLeft(last: Bytes, j: nat)
    requires 32 < |last| <= 48 && j < 8 && Read8(last, |last| - 24) == 0
    ensures Tail(Flip(last, |last| - 32 + j), 16, 1) == Xor(Tail(last, 16, 1), Unit(j))
  {
    hide Read8, Mix, Xor, Flip, Unit, Tail;
    var n := |last|;
    var p := n - 32 + j;
    WideTail(last, 1);
    WideTail(Flip(last, p), 1);
    ReadFlip(last, n - 32, j);
    ReadElsewhere(last, n - 24, p);
    ReadElsewhere(last, n - 16, p);
    ReadElsewhere(last, n - 8, p);
    LeftWordShows(Read8(last, n - 32), Unit(j), POOL[6]);
    ShowsInSum(Mix(Xor(Read8(last, n - 32), POOL[6]), Xor(0, 1)),
               Mix(Xor(Read8(last, n - 16), POOL[7]), Xor(Read8(last, n - 8), 1)), Unit(j));
  }

  lemma WideRight(last: Bytes, j: nat)
    requires 32 < |last| <= 48 && j < 8 && Read8(last, |last| - 32) == Xor(POOL[6], 1)
    ensures Tail(Flip(last, |last| - 24 + j), 16, 1) == Xor(Tail(last, 16, 1), Unit(j))
  {
    hide Read8, Mix, Xor, Flip, Unit, Tail;
    var n := |last|;
    var p := n - 24 + j;
    WideTail(last, 1);
    WideTail(Flip(last, p), 1);
    ReadFlip(last, n - 24, j);
    ReadElsewhere(last, n - 32, p);
    ReadElsewhere(last, n - 16, p);
    ReadElsewhere(last, n - 8, p);
    RightWordShows(Read8(last, n - 24), Unit(j), 1, POOL[6]);
    ShowsInSum(Mix(Xor(Xor(POOL[6], 1), POOL[6]), Xor(Read8(last, n - 24), 1)),
               Mix(Xor(Read8(last, n - 16), POOL[7]), Xor(Read8(last, n - 8), 1)), Unit(j));
  }

  lemma WideSecondLeft(last: Bytes, j: nat)
    requires 32 < |last| <= 48 && j < 8 && Read8(last, |last| - 8) == 0
    ensures Tail(Flip(last, |last| - 16 + j), 16, 1) == Xor(Tail(last, 16, 1), Unit(j))
  {
    hide Read8, Mix, Xor, Flip, Unit, Tail;
    var n := |last|;
    var p := n - 16 + j;
    WideTail(last, 1);
    WideTail(Flip(last, p), 1);
    ReadFlip(last, n - 16, j);
    ReadElsewhere(last, n - 32, p);
    ReadElsewhere(last, n - 24, p);
    ReadElsewhere(last, n - 8, p);
    LeftWordShows(Read8(last, n - 16), Unit(j), POOL[7]);
    ShowsInSum(Mix(Xor(Read8(last, n - 16), POOL[7]), Xor(0, 1)),
               Mix(Xor(Read8(last, n - 32), POOL[6]), Xor(Read8(last, n - 24), 1)), Unit(j));
  }

  lemma WideSecondRight(last: Bytes, j: nat)
    requires 32 < |last| <= 48 && j < 8 && Read8(last, |last| - 16) == Xor(POOL[7], 1)
    ensures Tail(Flip(last, |last| - 8 + j), 16, 1) == Xor(Tail(last, 16, 1), Unit(j))
  {
    hide Read8, Mix, Xor, Flip, Unit, Tail;
    var n := |last|;
    var p := n - 8 + j;
    WideTail(last, 1);
    WideTail(Flip(last, p), 1);
    ReadFlip(last, n - 8, j);
    ReadElsewhere(last, n - 32, p);
    ReadElsewhere(last, n - 24, p);
    ReadElsewhere(last, n - 16, p);
    RightWordShows(Read8(last, n - 8), Unit(j), 1, POOL[7]);
    ShowsInSum(Mix(Xor(Xor(POOL[7], 1), POOL[7]), Xor(Read8(last, n - 8), 1)),
               Mix(Xor(Read8(last, n - 32), POOL[6]), Xor(Read8(last, n - 24), 1)), Unit(j));
  }

  // The last byte, and the last byte of each other word of the tail, if it lies after the last chunk.
  lemma TailBytes(size: nat, k: nat, n: nat, c: nat)
    requires Fits(size, k, n) && c < (if n > 32 then 4 else 2) && n >= 17 + 8 * c
    ensures Matters(size, size - 1 - 8 * c)
  {
    hide Matters, Read8, Xor, Flip, Unit, Tail, Zeros, WordBytes, Randoms;
    var zeros := Zeros(n);
    ZeroWord(n, n - 8);
    if c == 0 {
      var w := if n > 32 then Xor(POOL[7], 1) else Xor(POOL[6], 1);
      var last := Zeros(n - 16) + WordBytes(w) + Zeros(8);
      ReadWord(Zeros(n - 16), w, Zeros(8));
      if n > 32 { WideSecondRight(last, 7); } else { NarrowRight(last, 7); }
      TailMatters(size, k, last, n - 1, 7);
    } else if c == 1 {
      if n > 32 { WideSecondLeft(zeros, 7); } else { NarrowLeft(zeros, 7); }
      TailMatters(size, k, zeros, n - 9, 7);
    } else if c == 2 {
      var last := Zeros(n - 32) + WordBytes(Xor(POOL[6], 1)) + Zeros(24);
      ReadWord(Zeros(n - 32), Xor(POOL[6], 1), Zeros(24));
      WideRight(last, 7);
      TailMatters(size, k, last, n - 17, 7);
    } else {
      ZeroWord(n, n - 24);
      WideLeft(zeros, 7);
      TailMatters(size, k, zeros, n - 25, 7);
    }
  }

  lemma ZeroWord(n: nat, at: nat)
    requires at + 8 <= n
    ensures Read8(Zeros(n), at) == 0
  {
    hide Read8;
    ReadZeros(Zeros(n), at);
  }

  // The fourth word of the last chunk, if the tail begins before its first byte.
  lemma LastInTail(size: nat, k: nat, n: nat)
    requires Fits(size, k, n) && Before(n) <= 8
    ensures Matters(size, 32 * k + 24)
  {
    hide Matters, Read8, Xor, Flip, Unit, Tail, WordBytes, Randoms;
    var w := Randoms(k).1;
    var last := WordBytes(w) + Zeros(n - 8);
    ReadWord([], w, Zeros(n - 8));
    assert [] + WordBytes(w) + Zeros(n - 8) == last;
    var at := Before(n) + 8;
    ReadZeros(last, at);
    if n > 32 { WideLeft(last, 8 - Before(n)); } else { NarrowLeft(last, 8 - Before(n)); }
    TailMatters(size, k, last, 8, 8 - Before(n));
  }

  // -------- Every word that is read matters --------

  // The offsets at which the hash of this many bytes reads eight bytes.
  ghost predicate ReadsAt(size: nat, at: nat)
    requires size > 32
  {
    var chunks := ChunkCount(size);
    || (at % 8 == 0 && at + 8 <= 32 * chunks)
    || at == size - 8 || at == size - 16
    || (size > 32 * chunks + 16 && (at == size - 24 || at == size - 32))
  }

  lemma ChunkWords(size: nat, k: nat, n: nat, i: nat, m: nat)
    requires Fits(size, k, n) && i <= k && m < 4
    ensures Matters(size, 32 * i + 8 * m)
  {
    hide Matters;
    if i < k {
      if i % 2 == 0 {
        if k % 2 == 0 { PrefixEvenEven(size, k, n, i, m); } else { PrefixEvenOdd(size, k, n, i, m); }
      } else {
        if k % 2 == 0 { PrefixOddEven(size, k, n, i, m); } else { PrefixOddOdd(size, k, n, i, m); }
      }
    } else if m < 2 {
      if k % 2 == 0 { LastEven01(size, k, n, m); } else { LastOdd01(size, k, n, m); }
    } else if m == 2 {
      if k % 2 == 0 { LastEven2(size, k, n); } else { LastOdd2(size, k, n); }
    } else if Before(n) <= 8 {
      LastInTail(size, k, n);
    } else {
      if k % 2 == 0 { LastEven3(size, k, n); } else { LastOdd3(size, k, n); }
    }
  }

  // Above 32 bytes, for every word that the hash reads there are a seed and two strings that differ in
  // one byte of the word and have different hashes.
  lemma EveryWordMatters(size: nat, at: nat) returns (p: nat)
    requires 32 < size < 0x8000_0000_0000_0000 && ReadsAt(size, at)
    ensures at <= p < at + 8 && p < size && Matters(size, p)
  {
    hide Matters;
    var k := ChunkCount(size) - 1;
    var n := size - 32 * k - 16;
    assert Fits(size, k, n);
    if at % 8 == 0 && at + 8 <= 32 * ChunkCount(size) {
      p := at;
      WordInChunk(at, k);
      ChunkWords(size, k, n, at / 32, at % 32 / 8);
    } else {
      var c := (size - 8 - at) / 8;
      assert at == size - 8 - 8 * c;
      if n >= 17 + 8 * c {
        p := size - 1 - 8 * c;
        TailBytes(size, k, n, c);
      } else {
        p := 32 * k + 24;
        ChunkWords(size, k, n, k, 3);
      }
    }
  }

  lemma WordInChunk(at: nat, k: nat)
    requires at % 8 == 0 && at + 8 <= 32 * k + 32
    ensures at / 32 <= k && at % 32 / 8 < 4 && at == 32 * (at / 32) + 8 * (at % 32 / 8)
  {
  }

  // -------- The seed and the size --------

  // Chunks that leave both buffers as the seed sets them.
  lemma {:induction false} PassingPrefix(k: nat) returns (d: Bytes)
    ensures |d| == 32 * k && forall seed :: Chunks(d, k, seed) == (Xor(seed, POOL[0]), Xor(seed, POOL[2]))
  {
    hide Chunks, Chunk, Xor, Randoms, Step;
    if k == 0 {
      d := [];
      forall seed
        ensures Chunks(d, k, seed) == (Xor(seed, POOL[0]), Xor(seed, POOL[2]))
      {
        ChunksStart(d, seed);
      }
    } else {
      var p := PassingPrefix(k - 1);
      var (r0, r1) := Randoms(k - 1);
      var w := Four(Xor(r0, 1), 0, r1, 0);
      d := p + Chunk(w);
      forall seed
        ensures Chunks(d, k, seed) == (Xor(seed, POOL[0]), Xor(seed, POOL[2]))
      {
        assert d == p + Chunk(w) + [];
        ChunksAppend(p, k - 1, w, [], seed);
        PassingGives(Xor(seed, POOL[0]), r0, r1);
        PassingGives(Xor(seed, POOL[2]), r0, r1);
      }
    }
  }

  // Two equal pairs cancel, whatever the buffer.
  lemma EqualPairs(x2: bv64, x3: bv64, b: bv64, r0: bv64, r1: bv64)
    ensures Step(Xor(r0, Xor(x2, r1)), x3, x2, x3, b, r0, r1) == 0
  {
    hide Mix, Xor;
    XorCancels(Xor(x2, r1), r0);
    XorSelf(Mix(Xor(x2, r1), Xor(x3, b)));
  }

  // For some seed, `v` is combined with the size.
  ghost predicate Gives(s: Bytes, v: bv64)
    requires |s| < 0x8000_0000_0000_0000
  {
    exists seed :: SizedHash(seed, s) == Final(|s|, v)
  }

  // Strings of any size in which what is combined with the size is any value, depending on the seed.
  lemma Chosen(size: nat) returns (s: Bytes)
    requires 32 < size < 0x8000_0000_0000_0000
    ensures |s| == size && forall v :: Gives(s, v)
  {
    hide Chunks, Xor, Whole, WordBytes, Read8, Randoms, Tail, Step, Mix, PassingRest, SizedHash, Final;
    var k := ChunkCount(size) - 1;
    var n := size - 32 * k - 16;
    var (r0, r1) := Randoms(k);
    var last := PassingRest([], n);
    var x2, x3 := Read8(last, 0), Read8(last, 8);
    var d := PassingPrefix(k);
    var q0 := Xor(r0, Xor(x2, r1));
    s := Whole(d, q0, x3, last);
    forall v
      ensures Gives(s, v)
    {
      var seed := if k % 2 == 0 then Xor(v, POOL[2]) else Xor(v, POOL[0]);
      WholeHash(d, k, q0, x3, last, seed);
      EqualPairs(x2, x3, Xor(seed, POOL[0]), r0, r1);
      EqualPairs(x2, x3, Xor(seed, POOL[2]), r0, r1);
      PassingRestPasses([], n, Xor(seed, POOL[2]));
      PassingRestPasses([], n, 0);
      XorBack(v, POOL[2]);
      XorBack(v, POOL[0]);
      XorCommutes(0, v);
      XorNothing(v);
    }
  }

  // The seed matters to some string of every size above 32.
  lemma SeedMatters(size: nat) returns (s: Bytes, seed: bv64, seed': bv64)
    requires 32 < size < 0x8000_0000_0000_0000
    ensures |s| == size && SizedHash(seed, s) != SizedHash(seed', s)
  {
    hide SizedHash, Final, SizeWord, Xor, Unit;
    s := Chosen(size);
    FinalDiffers(size, 0);
    assert Gives(s, SizeWord(size)) && Gives(s, Xor(SizeWord(size), Unit(0)));
    seed :| SizedHash(seed, s) == Final(size, SizeWord(size));
    seed' :| SizedHash(seed', s) == Final(size, Xor(SizeWord(size), Unit(0)));
  }

  // And the size matters to strings that are alike in what is combined with it.
  lemma SizeMatters(size: nat) returns (s: Bytes, seed: bv64, t: Bytes, seed': bv64)
    requires 32 < size < 0x8000_0000_0000_0000
    ensures |s| == size && SizedHash(seed, s) == Final(size, 0)
    ensures |t| > 32 && |t| < 0x8000_0000_0000_0000 && SizedHash(seed', t) == Final(|t|, 0)
    ensures SizedHash(seed, s) != SizedHash(seed', t)
  {
    hide SizedHash, Final;
    s := Chosen(size);
    assert Gives(s, 0);
    seed :| SizedHash(seed, s) == Final(size, 0);
    TwoSizes();
    t := Chosen(if Final(size, 0) == Final(64, 0) then 128 else 64);
    assert Gives(t, 0);
    seed' :| SizedHash(seed', t) == Final(|t|, 0);
  }

  lemma TwoSizes()
    ensures Final(64, 0) == 0x757e_7837_87a3_3d5e && Final(128, 0) == 0xeafc_f06f_0f46_7abc
  {
  }

  // The left words of 64 bytes cancel the constants: the hash is the same for every seed, and whatever
  // the other words are.
  lemma FamilyOf64(w1: bv64, w3: bv64, w5: bv64, w7: bv64, seed: bv64)
    ensures SizedHash(seed, Chunk(Four(POOL[4], w1, POOL[5], w3)) + Chunk(Four(POOL[6], w5, POOL[7], w7)))
      == 0x757e_7837_87a3_3d5e
  {
    hide SizedHash, Final, Chunks, Chunk, Xor, Step, Read8, FourAt, Mix;
    var even, odd := Four(POOL[4], w1, POOL[5], w3), Four(POOL[6], w5, POOL[7], w7);
    var s := Chunk(even) + Chunk(odd);
    assert s == [] + Chunk(even) + Chunk(odd) && s == Chunk(even) + Chunk(odd) + [];
    LargeIsChunks(seed, s);
    ChunksStart(s, seed);
    ChunksStep(s, 0, seed);
    ReadChunk([], even, Chunk(odd));
    ReadChunk(Chunk(even), odd, []);
    assert FourAt(s, 0) == even && FourAt(s, 32) == odd;
    WordsStep(s, Chunks(s, 1, seed).1);
    BothDropped(w1, w3, Chunks(s, 0, seed).0, POOL[4], POOL[5]);
    BothDropped(w5, w7, Chunks(s, 1, seed).1, POOL[6], POOL[7]);
    XorSelf(0);
    TwoSizes();
  }

  lemma WordsStep(s: Bytes, b: bv64)
    requires |s| == 64
    ensures Tail(s, 32, b) == StepWith(FourAt(s, 32), b, POOL[6], POOL[7])
    ensures ChunkCount(64) == 1 && Randoms(0) == (POOL[4], POOL[5])
  {
    hide Read8, Mix, Xor;
  }

  lemma BothDropped(x1: bv64, x3: bv64, b: bv64, r0: bv64, r1: bv64)
    ensures Step(r0, x1, r1, x3, b, r0, r1) == 0
  {
    hide Mix, Xor;
    XorSelf(r0);
    XorSelf(r1);
    XorSelf(0);
    MixUnits(Xor(x1, b));
    MixUnits(Xor(x3, b));
  }

  // -------- Sizes from 4 to 32 --------

  // For a changed bit among others that are zero the product shows it.
  lemma ShortFactors(w: bv64)
    ensures Mix(0x1_0000_0000, w) == 0 ==> w == 0
  {
  }

  lemma ShortFactorsLow(w: bv64)
    ensures Mix(0x100_0000, w) == 0 ==> w == 0
  {
  }

  lemma FourByteFactor()
    ensures Mix(0x1_0000_0001, 0x082e_fa98_ec4e_6c89) != 0
  {
  }

  lemma FourByteFactorHigh()
    ensures Mix(0x100_0000_0100_0000, 0x082e_fa98_ec4e_6c89) != 0
  {
  }

  // The word that four to eight bytes are hashed as.
  function ShortWordOf(s: Bytes): bv64
    requires 4 <= |s| <= 8
  {
    Pair32(Read4(s, |s| - 4), Read4(s, 0))
  }

  // For a string of zeros and a seed of zero, one bit makes the difference.
  lemma ShortMatters(size: nat, p: nat)
    requires 4 <= size <= 8 && (p == 0 || p == size - 1)
    ensures Sees(0, Zeros(size), p)
  {
    hide Mix, Xor, Read4, Pair32;
    var s := Zeros(size);
    var w := ShortWordOf(Flip(s, p));
    ShortZeros(size);
    ShortFlip(size, p);
    XorNothing(0);
    XorNothing(w);
    MixUnits(POOL[size - 1]);
    PoolNonZero(size - 1);
    ShortFactors(POOL[size - 1]);
    ShortFactorsLow(POOL[size - 1]);
    FourByteFactor();
    FourByteFactorHigh();
  }

  lemma ShortZeros(size: nat)
    requires 4 <= size <= 8
    ensures ShortWordOf(Zeros(size)) == 0
  {
  }

  lemma ShortFlip(size: nat, p: nat)
    requires 4 <= size <= 8 && (p == 0 || p == size - 1)
    ensures ShortWordOf(Flip(Zeros(size), p)) ==
      if size == 4 then (if p == 0 then 0x1_0000_0001 else 0x100_0000_0100_0000)
      else if p == 0 then 0x1_0000_0000 else 0x100_0000
  {
    hide Read4, Pair32, Pair16, Pair8;
    var s := Flip(Zeros(size), p);
    assert s[p] == 1;
    Read4Of(s, 0);
    Read4Of(s, size - 4);
    FourBytes();
    EightBytes();
  }

  lemma FourBytes()
    ensures Pair16(Pair8(0, 0), Pair8(0, 0)) == 0 && Pair16(Pair8(1, 0), Pair8(0, 0)) == 1
    ensures Pair16(Pair8(0, 0), Pair8(0, 1)) == 0x100_0000
  {
  }

  lemma EightBytes()
    ensures Pair32(1, 1) == 0x1_0000_0001 && Pair32(0x100_0000, 0x100_0000) == 0x100_0000_0100_0000
    ensures Pair32(0, 1) == 0x1_0000_0000 && Pair32(0x100_0000, 0) == 0x100_0000
  {
  }

  lemma Read4Of(s: Bytes, at: nat)
    requires at + 4 <= |s|
    ensures Read4(s, at) == Pair16(Pair8(s[at] as bv64, s[at + 1] as bv64), Pair8(s[at + 2] as bv64, s[at + 3] as bv64))
  {
    hide Pair8, Pair16;
  }

  lemma OneBitDiffers(v: bv64, j: nat)
    requires j < 8
    ensures Xor(v, Unit(j)) != v
  {
    hide Xor, Unit;
    if Xor(v, Unit(j)) == v {
      XorCancels(Unit(j), v);
      XorSelf(v);
      UnitNonZero(j);
    }
  }

  lemma UnitNonZero(j: nat)
    requires j < 8
    ensures Unit(j) != 0
  {
  }

  lemma MediumMatters(size: nat, p: nat)
    requires 9 <= size <= 16 && (p == 0 || p == size - 1)
    ensures Matters(size, p)
  {
    hide Mix, Xor, Read8, SampleRandomData, WordBytes, Zeros, Unit, Flip;
    if p == 0 {
      var s := Zeros(size);
      ReadFlip(s, 0, 0);
      ReadElsewhere(s, size - 8, 0);
      ZeroWord(size, size - 8);
      LeftWordShows(Read8(s, 0), Unit(0), SampleRandomData(size));
      OneBitDiffers(Mix(Xor(Read8(s, 0), SampleRandomData(size)), Xor(0, 1)), 0);
      assert Sees(1, s, 0);
    } else {
      var w := Xor(SampleRandomData(size), 1);
      var s := WordBytes(w) + Zeros(size - 8);
      ReadWord([], w, Zeros(size - 8));
      assert [] + WordBytes(w) + Zeros(size - 8) == s;
      ReadFlip(s, size - 8, 7);
      ReadElsewhere(s, 0, p);
      RightWordShows(Read8(s, size - 8), Unit(7), 0, SampleRandomData(size));
      OneBitDiffers(Mix(Xor(w, SampleRandomData(size)), Xor(Read8(s, size - 8), 0)), 7);
      assert Sees(0, s, p);
    }
  }

  // The hash of 17 to 32 bytes, from four words and the seed combined with the size.
  lemma LongByWords(s: Bytes, seeded: bv64)
    requires 17 <= |s| <= 32
    ensures SizedHash(Xor(seeded, SampleRandomData(|s|)), s)
      == Xor(Mix(Xor(Read8(s, 0), POOL[1]), Xor(Read8(s, 8), seeded)),
             Mix(Xor(Read8(s, |s| - 16), POOL[3]), Xor(Read8(s, |s| - 8), seeded)))
  {
    hide Mix, Xor, Read8, SampleRandomData;
    XorBack(seeded, SampleRandomData(|s|));
  }

  lemma LongDiffers(s: Bytes, p: nat, seeded: bv64, v: bv64, j: nat)
    requires 17 <= |s| <= 32 && p < |s| && j < 8
    requires Xor(Mix(Xor(Read8(s, 0), POOL[1]), Xor(Read8(s, 8), seeded)),
                 Mix(Xor(Read8(s, |s| - 16), POOL[3]), Xor(Read8(s, |s| - 8), seeded))) == v
    requires var t := Flip(s, p);
      Xor(Mix(Xor(Read8(t, 0), POOL[1]), Xor(Read8(t, 8), seeded)),
          Mix(Xor(Read8(t, |s| - 16), POOL[3]), Xor(Read8(t, |s| - 8), seeded))) == Xor(v, Unit(j))
    ensures Matters(|s|, p)
  {
    hide Mix, Xor, Read8, SampleRandomData, Unit, Flip, SizedHash;
    LongByWords(s, seeded);
    LongByWords(Flip(s, p), seeded);
    OneBitDiffers(v, j);
    assert Sees(Xor(seeded, SampleRandomData(|s|)), s, p);
  }

  // The first word of each pair.
  lemma LongFirst(size: nat)
    requires 17 <= size <= 32
    ensures Matters(size, 0)
  {
    hide Matters, Mix, Xor, Read8, SampleRandomData, WordBytes, Zeros, Unit, Flip;
    var s := Zeros(size);
    ReadFlip(s, 0, 0);
    ReadElsewhere(s, 8, 0);
    ReadElsewhere(s, size - 16, 0);
    ReadElsewhere(s, size - 8, 0);
    ZeroWord(size, 8);
    LeftWordShows(Read8(s, 0), Unit(0), POOL[1]);
    var a := Mix(Xor(Read8(s, 0), POOL[1]), Xor(0, 1));
    var c := Mix(Xor(Read8(s, size - 16), POOL[3]), Xor(Read8(s, size - 8), 1));
    ShowsInSum(a, c, Unit(0));
    LongDiffers(s, 0, 1, Xor(a, c), 0);
  }

  lemma LongSecond(size: nat)
    requires 17 <= size <= 32
    ensures Matters(size, 8)
  {
    hide Matters, Mix, Xor, Read8, SampleRandomData, WordBytes, Zeros, Unit, Flip;
    var w := Xor(POOL[1], 1);
    var s := WordBytes(w) + Zeros(size - 8);
    ReadWord([], w, Zeros(size - 8));
    assert [] + WordBytes(w) + Zeros(size - 8) == s;
    ReadFlip(s, 8, 0);
    ReadElsewhere(s, 0, 8);
    ReadElsewhere(s, size - 8, 8);
    ZeroAfter(s, w, size - 8);
    RightWordShows(Read8(s, 8), Unit(0), 0, POOL[1]);
    XorSelf(0);
    MixUnits(Xor(Read8(s, size - 16), POOL[3]));
    MixUnits(Xor(Read8(Flip(s, 8), size - 16), POOL[3]));
    var a := Mix(Xor(w, POOL[1]), Xor(Read8(s, 8), 0));
    ShowsInSum(a, 0, Unit(0));
    LongDiffers(s, 8, 0, Xor(a, 0), 0);
  }

  lemma ZeroAfter(s: Bytes, w: bv64, at: nat)
    requires |s| >= 8 && s == WordBytes(w) + Zeros(|s| - 8) && 8 <= at && at + 8 <= |s|
    ensures Read8(s, at) == 0
  {
    hide Read8, WordBytes;
    ReadZeros(s, at);
  }

  lemma LongThird(size: nat)
    requires 17 <= size <= 32
    ensures Matters(size, size - 9)
  {
    hide Matters, Mix, Xor, Read8, SampleRandomData, WordBytes, Zeros, Unit, Flip;
    var w, p := POOL[1], size - 9;
    var s := WordBytes(w) + Zeros(size - 8);
    ReadWord([], w, Zeros(size - 8));
    assert [] + WordBytes(w) + Zeros(size - 8) == s;
    ReadFlip(s, size - 16, 7);
    ReadElsewhere(s, 0, p);
    ReadElsewhere(s, size - 8, p);
    ZeroAfter(s, w, size - 8);
    LeftWordShows(Read8(s, size - 16), Unit(7), POOL[3]);
    XorSelf(w);
    MixUnits(Xor(Read8(s, 8), 1));
    MixUnits(Xor(Read8(Flip(s, p), 8), 1));
    var a := Mix(Xor(Read8(s, size - 16), POOL[3]), Xor(0, 1));
    ShowsInSum(a, 0, Unit(7));
    LongDiffers(s, p, 1, Xor(0, a), 7);
  }

  lemma LongFourth(size: nat)
    requires 17 <= size <= 32
    ensures Matters(size, size - 1)
  {
    hide Matters, Mix, Xor, Read8, SampleRandomData, WordBytes, Zeros, Unit, Flip;
    var w, p := Xor(POOL[3], 1), size - 1;
    var s := Zeros(size - 16) + WordBytes(w) + Zeros(8);
    ReadWord(Zeros(size - 16), w, Zeros(8));
    ReadFlip(s, size - 8, 7);
    ReadElsewhere(s, 0, p);
    ReadElsewhere(s, 8, p);
    ReadElsewhere(s, size - 16, p);
    RightWordShows(Read8(s, size - 8), Unit(7), 0, POOL[3]);
    var a := Mix(Xor(w, POOL[3]), Xor(Read8(s, size - 8), 0));
    var c := Mix(Xor(Read8(s, 0), POOL[1]), Xor(Read8(s, 8), 0));
    ShowsInSum(a, c, Unit(7));
    LongDiffers(s, p, 0, Xor(c, a), 7);
  }

  // The offsets and lengths of the reads for 4 to 32 bytes.
  ghost predicate ReadsShortAt(size: nat, at: nat, length: nat) {
    if size <= 8 then length == 4 && (at == 0 || at == size - 4)
    else length == 8 && (at == 0 || at == size - 8 || (size > 16 && (at == 8 || at == size - 16)))
  }

  // The same for 4 to 32 bytes.
  lemma EveryShortWordMatters(size: nat, at: nat, length: nat) returns (p: nat)
    requires 4 <= size <= 32 && ReadsShortAt(size, at, length)
    ensures at <= p < at + length && p < size && Matters(size, p)
  {
    hide Matters, Sees, Zeros;
    if size <= 8 {
      p := if at == 0 then 0 else size - 1;
      ShortMatters(size, p);
      SeenMatters(0, Zeros(size), p);
    } else if size <= 16 {
      p := if at == 0 then 0 else size - 1;
      MediumMatters(size, p);
    } else if at == 0 {
      p := 0;
      LongFirst(size);
    } else if at == 8 {
      p := 8;
      LongSecond(size);
    } else if at == size - 16 {
      p := size - 9;
      LongThird(size);
    } else {
      p := size - 1;
      LongFourth(size);
    }
  }

  lemma SeenMatters(seed: bv64, s: Bytes, p: nat)
    requires p < |s| < 0x8000_0000_0000_0000 && Sees(seed, s, p)
    ensures Matters(|s|, p)
  {
  }
}
