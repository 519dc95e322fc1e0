// Groups of metadata bytes: what each group operation means byte by byte, and
// the portable eight-byte word operations that compute it.
module MetadataGroups {
  import opened Words

  // `MetadataGroup::Size`: 8 for the portable code, 16 with x86 SIMD.
  type GroupWidth = g: nat | g == 8 || g == 16 witness 8

  const GroupSize: GroupWidth

  // Seven bits of hash, in a word.
  type Tag = t: bv64 | t <= 0x7F witness 0

  // The meaning of one metadata byte.
  datatype Control = Empty | Deleted | Present(tag: Tag)

  // What a group can be searched for.
  datatype Query = Tagged(t: Tag) | AnyPresent | AnyEmpty | AnyDeleted

  predicate Hits(q: Query, c: Control) {
    match q
    case Tagged(t) => c == Present(t)
    case AnyPresent => c.Present?
    case AnyEmpty => c == Empty
    case AnyDeleted => c == Deleted
  }

  // The positions a search must report, in ascending order.
  function Matches(q: Query, g: seq<Control>): seq<nat> {
    MatchesFrom(q, g, 0)
  }

  function MatchesFrom(q: Query, g: seq<Control>, from: nat): (r: seq<nat>)
    requires from <= |g|
    ensures forall i: nat :: i in r <==> from <= i < |g| && Hits(q, g[i])
    ensures forall a, b :: 0 <= a < b < |r| ==> r[a] < r[b]
    decreases |g| - from
  {
    if from == |g| then [] else
      var rest := MatchesFrom(q, g, from + 1);
      assert forall a | 0 <= a < |rest| :: rest[a] in rest;
      if Hits(q, g[from]) then [from] + rest else rest
  }

  // Between one reported position and the next nothing matches.
  lemma NextMatch(q: Query, g: seq<Control>, n: nat)
    requires n <= |Matches(q, g)|
    ensures var r := Matches(q, g);
      forall b: nat | b < |g| && (n == 0 || r[n - 1] < b) && (n < |r| ==> b < r[n]) :: !Hits(q, g[b])
    ensures n < |Matches(q, g)| ==> Matches(q, g)[n] < |g| && Hits(q, g[Matches(q, g)[n]])
  {
    var r := Matches(q, g);
    forall b: nat | b in r ensures (n > 0 && b <= r[n - 1]) || (n < |r| && r[n] <= b) {
      var k :| 0 <= k < |r| && r[k] == b;
    }
    if n < |r| {
      assert r[n] in r;
    }
  }

  // `ClearDeleted` on a loaded group
  function ClearDeleted(g: seq<Control>): (r: seq<Control>)
    ensures |r| == |g|
    ensures forall i | 0 <= i < |g| :: r[i] == if g[i] == Deleted then Empty else g[i]
  {
    seq(|g|, i requires 0 <= i < |g| => if g[i] == Deleted then Empty else g[i])
  }

  // -------- Eight bytes in a word, the byte at position 0 lowest --------

  const MSBS: bv64 := 0x8080_8080_8080_8080
  const LSBS: bv64 := 0x0101_0101_0101_0101

  function Turn(w: bv64): bv64 {
    (w >> 8) | (w << 56)
  }

  function Lane(w: bv64, i: nat): bv64
    decreases i
  {
    if i == 0 then w & 0xFF else Lane(Turn(w), i - 1)
  }

  function Encode(c: Control): (b: bv64)
    ensures b <= 0xFF
    ensures c == Empty <==> b & 0x81 == 0
    ensures c == Deleted <==> b & 0x81 == 1
    ensures c.Present? <==> b & 0x80 != 0
    ensures forall t: Tag :: c == Present(t) <==> b == t | 0x80
  {
    match c
    case Empty => 0
    case Deleted => 1
    case Present(t) => t | 0x80
  }

  function Word(b0: bv64, b1: bv64, b2: bv64, b3: bv64, b4: bv64, b5: bv64, b6: bv64, b7: bv64): bv64 {
    b0 | (b1 << 8) | (b2 << 16) | (b3 << 24) | (b4 << 32) | (b5 << 40) | (b6 << 48) | (b7 << 56)
  }

  // `PortableLoad` of a group of eight
  function Load(g: seq<Control>): bv64
    requires |g| == 8
  {
    Word(Encode(g[0]), Encode(g[1]), Encode(g[2]), Encode(g[3]),
         Encode(g[4]), Encode(g[5]), Encode(g[6]), Encode(g[7]))
  }

  lemma TurnWord(b0: bv64, b1: bv64, b2: bv64, b3: bv64, b4: bv64, b5: bv64, b6: bv64, b7: bv64)
    requires b0 <= 0xFF && b1 <= 0xFF && b2 <= 0xFF && b3 <= 0xFF
    requires b4 <= 0xFF && b5 <= 0xFF && b6 <= 0xFF && b7 <= 0xFF
    ensures Turn(Word(b0, b1, b2, b3, b4, b5, b6, b7)) == Word(b1, b2, b3, b4, b5, b6, b7, b0)
    ensures Word(b0, b1, b2, b3, b4, b5, b6, b7) & 0xFF == b0
  {
  }

  lemma TurnLoad(g: seq<Control>)
    requires |g| == 8
    ensures Turn(Load(g)) == Load(g[1..] + g[..1])
    ensures Load(g) & 0xFF == Encode(g[0])
  {
    hide Turn, Word, Encode;
    TurnWord(Encode(g[0]), Encode(g[1]), Encode(g[2]), Encode(g[3]),
             Encode(g[4]), Encode(g[5]), Encode(g[6]), Encode(g[7]));
  }

  lemma {:induction false} LoadLane(g: seq<Control>, i: nat)
    requires |g| == 8 && i < 8
    ensures Lane(Load(g), i) == Encode(g[i])
    decreases i
  {
    hide Turn, Load, Encode;
    TurnLoad(g);
    if i > 0 {
      LoadLane(g[1..] + g[..1], i - 1);
    }
  }

  // -------- The portable searches --------

  // The tag in every byte, with every high bit set.
  function Broadcast(tag: Tag): bv64 {
    (LSBS * tag) + MSBS
  }

  // Zero exactly in the low seven bits of the bytes that carry the tag.
  function Residue(word: bv64, broadcast: bv64): bv64 {
    (word | MSBS) ^ broadcast
  }

  function KeepPresent(bits: bv64, word: bv64): bv64 {
    bits & (word & MSBS)
  }

  function PortableMatch(word: bv64, tag: Tag): bv64 {
    KeepPresent(MSBS - Residue(word, Broadcast(tag)), word)
  }

  function PortableMatchPresent(word: bv64): bv64 {
    word & MSBS
  }

  function PortableMatchEmpty(word: bv64): bv64 {
    !(word | (word << 7)) & MSBS
  }

  function PortableMatchDeleted(word: bv64): bv64 {
    !(word | (!word << 7)) & MSBS
  }

  function PortableClearDeleted(word: bv64): bv64 {
    word & (!LSBS | (word >> 7))
  }

  function Search(q: Query, word: bv64): bv64 {
    match q
    case Tagged(t) => PortableMatch(word, t)
    case AnyPresent => PortableMatchPresent(word)
    case AnyEmpty => PortableMatchEmpty(word)
    case AnyDeleted => PortableMatchDeleted(word)
  }

  // The tag reaches every byte, and adding the high bits never carries.
  lemma BroadcastNoCarry(tag: Tag)
    ensures Broadcast(tag) == (LSBS * tag) | MSBS
    ensures Turn(Broadcast(tag)) == Broadcast(tag)
    ensures Broadcast(tag) & MSBS == MSBS
  {
  }

  lemma TurnResidue(w: bv64, b: bv64)
    ensures Turn(Residue(w, b)) == Residue(Turn(w), Turn(b))
    ensures b & MSBS == MSBS ==> Residue(w, b) & MSBS == 0
  {
  }

  // Subtracting bytes below 0x80 from bytes 0x80 never borrows between bytes.
  lemma NoBorrow(x: bv64)
    requires x & MSBS == 0
    ensures Turn(MSBS - x) == MSBS - Turn(x)
  {
    NoBorrowHigh(x);
    NoBorrowLow(x);
    NoBorrowJoined(x);
  }

  lemma NoBorrowHigh(x: bv64)
    requires x & MSBS == 0
    ensures (MSBS - x) >> 8 == (MSBS >> 8) - (x >> 8)
  {
  }

  lemma NoBorrowLow(x: bv64)
    ensures (MSBS - x) << 56 == (0x80 - x) << 56
  {
  }

  lemma NoBorrowJoined(x: bv64)
    requires x & MSBS == 0
    ensures MSBS - ((x >> 8) | (x << 56)) == ((MSBS >> 8) - (x >> 8)) | ((0x80 - x) << 56)
  {
  }

  lemma TurnKeep(bits: bv64, w: bv64)
    ensures Turn(KeepPresent(bits, w)) == KeepPresent(Turn(bits), Turn(w))
  {
  }

  lemma TurnMatch(w: bv64, tag: Tag)
    ensures Turn(PortableMatch(w, tag)) == PortableMatch(Turn(w), tag)
  {
    hide Turn, Residue, KeepPresent, Broadcast;
    var b := Broadcast(tag);
    BroadcastNoCarry(tag);
    TurnResidue(w, b);
    NoBorrow(Residue(w, b));
    TurnKeep(MSBS - Residue(w, b), w);
  }

  lemma TurnSearch(q: Query, w: bv64)
    ensures Turn(Search(q, w)) == Search(q, Turn(w))
  {
    hide Turn, PortableMatch, PortableMatchPresent, PortableMatchEmpty, PortableMatchDeleted;
    match q
    case Tagged(t) => TurnMatch(w, t);
    case AnyPresent => TurnPresent(w);
    case AnyEmpty => TurnEmpty(w);
    case AnyDeleted => TurnDeleted(w);
  }

  lemma TurnPresent(w: bv64)
    ensures Turn(PortableMatchPresent(w)) == PortableMatchPresent(Turn(w))
  {
  }

  lemma TurnEmpty(w: bv64)
    ensures Turn(PortableMatchEmpty(w)) == PortableMatchEmpty(Turn(w))
  {
  }

  lemma TurnDeleted(w: bv64)
    ensures Turn(PortableMatchDeleted(w)) == PortableMatchDeleted(Turn(w))
  {
  }

  // For every word and tag: 0x80 in exactly the bytes equal to tag | 0x80.
  lemma {:induction false} MatchExact(w: bv64, tag: Tag, i: nat)
    ensures Lane(PortableMatch(w, tag), i) == if Lane(w, i) == tag | 0x80 then 0x80 else 0
    decreases i
  {
    if i == 0 {
      LowMatch(w, tag);
    } else {
      TurnMatch(w, tag);
      MatchExact(Turn(w), tag, i - 1);
    }
  }

  lemma LowMatch(w: bv64, tag: Tag)
    ensures PortableMatch(w, tag) & 0xFF == if w & 0xFF == tag | 0x80 then 0x80 else 0
  {
  }

  lemma {:induction false} PresentExact(w: bv64, i: nat)
    ensures Lane(PortableMatchPresent(w), i) == if Lane(w, i) & 0x80 != 0 then 0x80 else 0
    decreases i
  {
    if i > 0 {
      TurnSearch(AnyPresent, w);
      PresentExact(Turn(w), i - 1);
    }
  }

  lemma {:induction false} EmptyExact(w: bv64, i: nat)
    ensures Lane(PortableMatchEmpty(w), i) == if Lane(w, i) & 0x81 == 0 then 0x80 else 0
    decreases i
  {
    if i > 0 {
      TurnSearch(AnyEmpty, w);
      EmptyExact(Turn(w), i - 1);
    }
  }

  lemma {:induction false} DeletedExact(w: bv64, i: nat)
    ensures Lane(PortableMatchDeleted(w), i) == if Lane(w, i) & 0x81 == 1 then 0x80 else 0
    decreases i
  {
    if i > 0 {
      TurnSearch(AnyDeleted, w);
      DeletedExact(Turn(w), i - 1);
    }
  }

  // On valid metadata each search marks exactly the positions asked for.
  lemma SearchExact(q: Query, g: seq<Control>, i: nat)
    requires |g| == 8 && i < 8
    ensures Lane(Search(q, Load(g)), i) == if Hits(q, g[i]) then 0x80 else 0
  {
    hide Load, Lane, PortableMatch, PortableMatchPresent, PortableMatchEmpty, PortableMatchDeleted;
    LoadLane(g, i);
    match q
    case Tagged(t) => MatchExact(Load(g), t, i);
    case AnyPresent => PresentExact(Load(g), i);
    case AnyEmpty => EmptyExact(Load(g), i);
    case AnyDeleted => DeletedExact(Load(g), i);
  }

  // -------- Clearing bytes --------

  // `0xff << (position * 8)`
  function ByteMask(position: nat): bv64
    requires position < 8
  {
    match position
    case 0 => 0xFF
    case 1 => 0xFF00
    case 2 => 0xFF_0000
    case 3 => 0xFF00_0000
    case 4 => 0xFF_0000_0000
    case 5 => 0xFF00_0000_0000
    case 6 => 0xFF_0000_0000_0000
    case 7 => 0xFF00_0000_0000_0000
  }

  function ClearByte(word: bv64, position: nat): bv64
    requires position < 8
  {
    ClearBits(word, ByteMask(position))
  }

  function ClearBits(word: bv64, mask: bv64): bv64 {
    word & !mask
  }

  lemma TurnClearByte(w: bv64, position: nat)
    requires position < 8
    ensures Turn(ClearByte(w, position)) == ClearByte(Turn(w), (position + 7) % 8)
  {
    hide Turn, ByteMask, ClearBits;
    TurnMask(position);
    TurnClearBits(w, ByteMask(position));
  }

  lemma LowClearByte(w: bv64, position: nat)
    requires position < 8
    ensures ClearByte(w, position) & 0xFF == if position == 0 then 0 else w & 0xFF
  {
  }

  lemma TurnMask(position: nat)
    requires position < 8
    ensures Turn(ByteMask(position)) == ByteMask((position + 7) % 8)
  {
  }

  lemma TurnClearBits(w: bv64, m: bv64)
    ensures Turn(ClearBits(w, m)) == ClearBits(Turn(w), Turn(m))
  {
  }

  lemma {:induction false} ClearByteExact(w: bv64, position: nat, i: nat)
    requires position < 8 && i < 8
    ensures Lane(ClearByte(w, position), i) == if i == position then 0 else Lane(w, i)
    decreases i
  {
    hide Turn, ClearByte;
    LowClearByte(w, position);
    TurnClearByte(w, position);
    if i > 0 {
      ClearByteExact(Turn(w), (position + 7) % 8, i - 1);
    }
  }

  lemma {:induction false} ClearDeletedExact(w: bv64, i: nat)
    ensures Lane(PortableClearDeleted(w), i)
         == if Lane(w, i) & 0x80 != 0 then Lane(w, i) else Lane(w, i) & 0xFE
    decreases i
  {
    TurnClearDeleted(w);
    if i > 0 {
      ClearDeletedExact(Turn(w), i - 1);
    }
  }

  lemma TurnClearDeleted(w: bv64)
    ensures Turn(PortableClearDeleted(w)) == PortableClearDeleted(Turn(w))
    ensures PortableClearDeleted(w) & 0xFF == if w & 0x80 != 0 then w & 0xFF else w & 0xFE
  {
  }

  // On valid metadata only the tombstones change, and they become empty.
  lemma ClearDeletedMeaning(g: seq<Control>, i: nat)
    requires |g| == 8 && i < 8
    ensures Lane(PortableClearDeleted(Load(g)), i) == Encode(ClearDeleted(g)[i])
  {
    hide Load, Lane, PortableClearDeleted;
    LoadLane(g, i);
    ClearDeletedExact(Load(g), i);
  }

  lemma ClearByteMeaning(g: seq<Control>, position: nat, i: nat)
    requires |g| == 8 && position < 8 && i < 8
    ensures Lane(ClearByte(Load(g), position), i) == Encode(g[position := Empty][i])
  {
    hide Load, Lane, ClearByte;
    LoadLane(g, i);
    ClearByteExact(Load(g), position, i);
  }

  // -------- Walking the marked bytes --------

  function CountLeadingZeros(w: bv64, width: nat): nat
    decreases width
  {
    if width == 0 || w & 0x8000_0000_0000_0000 != 0 then 0 else 1 + CountLeadingZeros(w << 1, width - 1)
  }

  // `BitIndex::index` in the byte encoding
  function Index(bits: bv64): nat {
    CountLeadingZeros(Byteswap(bits), 64) / 8
  }

  function ClearLowestBit(bits: bv64): bv64 {
    bits & (bits - 1)
  }

  lemma SkipFour(w: bv64, width: nat)
    requires width >= 4 && w & 0xF000_0000_0000_0000 == 0
    ensures CountLeadingZeros(w, width) == 4 + CountLeadingZeros(w << 4, width - 4)
  {
    assert CountLeadingZeros(w, width) == 1 + CountLeadingZeros(w << 1, width - 1);
    assert CountLeadingZeros(w << 1, width - 1) == 1 + CountLeadingZeros(w << 2, width - 2) by {
      assert (w << 1) << 1 == w << 2;
    }
    assert CountLeadingZeros(w << 2, width - 2) == 1 + CountLeadingZeros(w << 3, width - 3) by {
      assert (w << 2) << 1 == w << 3;
    }
    assert CountLeadingZeros(w << 3, width - 3) == 1 + CountLeadingZeros(w << 4, width - 4) by {
      assert (w << 3) << 1 == w << 4;
    }
  }

  lemma SkipByte(w: bv64, width: nat)
    requires width >= 8 && w & 0xFF00_0000_0000_0000 == 0
    ensures CountLeadingZeros(w, width) == 8 + CountLeadingZeros(w << 8, width - 8)
  {
    hide CountLeadingZeros;
    SkipFour(w, width);
    assert (w << 4) & 0xF000_0000_0000_0000 == 0;
    SkipFour(w << 4, width - 4);
    assert (w << 4) << 4 == w << 8;
  }

  lemma SwapTurn(bits: bv64)
    requires bits & 0xFF == 0
    ensures Byteswap(bits) & 0xFF00_0000_0000_0000 == 0
    ensures Byteswap(Turn(bits)) == Byteswap(bits) << 8
  {
    hide Turn, Byteswap;
    TurnIsShift(bits);
    SwapShift(bits);
    SwapEnds(bits);
  }

  lemma TurnIsShift(bits: bv64)
    ensures bits & 0xFF == 0 ==> Turn(bits) == bits >> 8
  {
  }

  lemma SwapShift(bits: bv64)
    ensures Byteswap(bits >> 8) == Byteswap(bits) << 8
  {
  }

  lemma SwapEnds(bits: bv64)
    ensures bits & 0xFF == 0 ==> Byteswap(bits) & 0xFF00_0000_0000_0000 == 0
    ensures bits & 0x80 != 0 ==> Byteswap(bits) & 0x8000_0000_0000_0000 != 0
  {
  }

  // The index of a search result is its first marked byte.
  lemma {:induction false} IndexIsFirst(bits: bv64, i: nat, width: nat)
    requires i < 8 && width >= 8 * (i + 1)
    requires Lane(bits, i) & 0x80 != 0 && forall j: nat | j < i :: Lane(bits, j) == 0
    ensures CountLeadingZeros(Byteswap(bits), width) == 8 * i
    decreases i
  {
    hide Turn, Byteswap;
    SwapEnds(bits);
    if i > 0 {
      assert Lane(bits, 0) == 0;
      SwapTurn(bits);
      forall j: nat | j < i - 1 ensures Lane(Turn(bits), j) == 0 {
        assert Lane(bits, j + 1) == 0;
      }
      SkipByte(Byteswap(bits), width);
      IndexIsFirst(Turn(bits), i - 1, width - 8);
    }
  }

  // Clearing the lowest bit removes the first marked byte and no other.
  lemma {:induction false} ClearLowestExact(bits: bv64, first: nat, i: nat)
    requires first < 8 && i < 8
    requires Lane(bits, first) == 0x80 && forall j: nat | j < first :: Lane(bits, j) == 0
    ensures Lane(ClearLowestBit(bits), i) == if i == first then 0 else Lane(bits, i)
    decreases first
  {
    hide Turn, ClearLowestBit, ClearByte;
    TurnClearLowest(bits);
    if first == 0 {
      ClearByteExact(bits, 0, i);
    } else {
      assert Lane(bits, 0) == 0;
      forall j: nat | j < first - 1 ensures Lane(Turn(bits), j) == 0 {
        assert Lane(bits, j + 1) == 0;
      }
      if i > 0 {
        ClearLowestExact(Turn(bits), first - 1, i - 1);
      }
    }
  }

  lemma TurnClearLowest(bits: bv64)
    ensures bits & 0xFF == 0 ==> Turn(ClearLowestBit(bits)) == ClearLowestBit(Turn(bits))
    ensures bits & 0xFF == 0 ==> ClearLowestBit(bits) & 0xFF == 0
    ensures bits & 0xFF == 0x80 ==> ClearLowestBit(bits) == ClearByte(bits, 0)
  {
  }

  ghost predicate Wide(bits: bv64, n: nat) {
    if n == 0 then bits == 0 else Wide(bits >> 8, n - 1)
  }

  lemma EightBytesWide(bits: bv64)
    ensures Wide(bits, 8)
  {
    var four := (((bits >> 8) >> 8) >> 8) >> 8;
    assert (((four >> 8) >> 8) >> 8) >> 8 == 0;
    FourMoreBytes(four, 0);
    FourMoreBytes(bits, 4);
  }

  lemma FourMoreBytes(bits: bv64, n: nat)
    requires Wide((((bits >> 8) >> 8) >> 8) >> 8, n)
    ensures Wide(bits, n + 4)
  {
    var one := bits >> 8;
    var two := one >> 8;
    var three := two >> 8;
    assert Wide(three, n + 1);
    assert Wide(two, n + 2);
    assert Wide(one, n + 3);
  }

  lemma {:induction false} UnmarkedIsZero(bits: bv64, n: nat)
    requires Wide(bits, n) && forall i: nat | i < n :: Lane(bits, i) == 0
    ensures bits == 0
    decreases n
  {
    if n > 0 {
      var rest := bits >> 8;
      assert Lane(bits, 0) == 0;
      TurnIsShift(bits);
      forall i: nat | i < n - 1 ensures Lane(rest, i) == 0 {
        assert Lane(bits, i + 1) == 0;
      }
      UnmarkedIsZero(rest, n - 1);
    }
  }

  // -------- Iterating a range of matches --------

  ghost predicate IsMarks(bits: bv64) {
    forall i: nat | i < 8 :: Lane(bits, i) == 0 || Lane(bits, i) == 0x80
  }

  // The marked bytes at or after `from`, in ascending order.
  ghost function MarkedFrom(bits: bv64, from: nat): seq<nat>
    requires from <= 8
    decreases 8 - from
  {
    if from == 8 then []
    else (if Lane(bits, from) == 0 then [] else [from]) + MarkedFrom(bits, from + 1)
  }

  lemma FirstMark(bits: bv64) returns (first: nat)
    requires IsMarks(bits) && bits != 0
    ensures first < 8 && Lane(bits, first) == 0x80
    ensures forall j: nat | j < first :: Lane(bits, j) == 0
  {
    first := 0;
    while Lane(bits, first) == 0
      invariant first < 8
      invariant forall j: nat | j < first :: Lane(bits, j) == 0
      decreases 8 - first
    {
      if first == 7 {
        EightBytesWide(bits);
        UnmarkedIsZero(bits, 8);
      }
      first := first + 1;
    }
  }

  lemma {:induction false} MarkedAfterFirst(bits: bv64, next: bv64, first: nat, from: nat)
    requires from <= first < 8 && IsMarks(bits) && Lane(bits, first) == 0x80
    requires forall j: nat | j < first :: Lane(bits, j) == 0
    requires forall j: nat | j < 8 :: Lane(next, j) == if j == first then 0 else Lane(bits, j)
    ensures MarkedFrom(bits, from) == [first] + MarkedFrom(next, from)
    decreases 8 - from
  {
    if from < first {
      MarkedAfterFirst(bits, next, first, from + 1);
    } else {
      SameMarks(bits, next, from + 1);
    }
  }

  lemma {:induction false} SameMarks(a: bv64, b: bv64, from: nat)
    requires from <= 8 && forall j: nat | from <= j < 8 :: Lane(a, j) == Lane(b, j)
    ensures MarkedFrom(a, from) == MarkedFrom(b, from)
    decreases 8 - from
  {
    if from < 8 {
      SameMarks(a, b, from + 1);
    }
  }

  // A range-for over `BitIndexRange`: every marked byte once, ascending.
  method Walk(bits: bv64) returns (positions: seq<nat>)
    requires IsMarks(bits)
    ensures positions == MarkedFrom(bits, 0)
  {
    hide ClearLowestBit, IsMarks, Index, MarkedFrom;
    positions := [];
    var it := bits;
    while it != 0
      invariant IsMarks(it)
      invariant positions + MarkedFrom(it, 0) == MarkedFrom(bits, 0)
      decreases |MarkedFrom(it, 0)|
    {
      var next := ClearLowestBit(it);
      WalkStep(it);
      positions := positions + [Index(it)];
      it := next;
    }
    ZeroUnmarked(0);
  }

  lemma WalkStep(it: bv64)
    requires IsMarks(it) && it != 0
    ensures IsMarks(ClearLowestBit(it))
    ensures MarkedFrom(it, 0) == [Index(it)] + MarkedFrom(ClearLowestBit(it), 0)
  {
    hide ClearLowestBit, MarkedFrom, Lane, CountLeadingZeros, Byteswap;
    var first := FirstMark(it);
    IndexIsFirst(it, first, 64);
    forall i: nat | i < 8
      ensures Lane(ClearLowestBit(it), i) == if i == first then 0 else Lane(it, i)
    {
      ClearLowestExact(it, first, i);
    }
    MarkedAfterFirst(it, ClearLowestBit(it), first, 0);
  }

  lemma {:induction false} ZeroUnmarked(from: nat)
    requires from <= 8
    ensures MarkedFrom(0, from) == []
    decreases 8 - from
  {
    if from < 8 {
      ZeroLane(from);
      ZeroUnmarked(from + 1);
    }
  }

  lemma {:induction false} ZeroLane(i: nat)
    ensures Lane(0, i) == 0
  {
    if i > 0 {
      assert Turn(0) == 0;
      ZeroLane(i - 1);
    }
  }

  // The word search followed by the walk is the search of the group.
  lemma {:induction false} WalkedSearch(q: Query, g: seq<Control>, from: nat)
    requires |g| == 8 && from <= 8
    ensures IsMarks(Search(q, Load(g)))
    ensures MarkedFrom(Search(q, Load(g)), from) == MatchesFrom(q, g, from)
    decreases 8 - from
  {
    hide Search, Load, Hits, Lane;
    var bits := Search(q, Load(g));
    forall i: nat | i < 8 ensures Lane(bits, i) == if Hits(q, g[i]) then 0x80 else 0 {
      SearchExact(q, g, i);
    }
    if from < 8 {
      WalkedSearch(q, g, from + 1);
    }
  }

  // `BitIndex` of a search: empty exactly when nothing matches, else the first match.
  lemma FirstOfSearch(q: Query, g: seq<Control>)
    requires |g| == 8
    ensures Search(q, Load(g)) == 0 <==> Matches(q, g) == []
    ensures Matches(q, g) != [] ==> Index(Search(q, Load(g))) == Matches(q, g)[0]
  {
    hide Search, Load, Hits, Lane, MatchesFrom;
    var bits := Search(q, Load(g));
    WalkedSearch(q, g, 0);
    if bits == 0 {
      ZeroUnmarked(0);
    } else {
      WalkStep(bits);
    }
  }
}
