// String literals: unescaping, and an escaper that it inverts.
module StringHelpers {
  import opened Options

  type Byte = b: int | 0 <= b < 256

  function Code(c: char): Byte {
    if c as int < 256 then c as int else 0
  }

  // Only uppercase hexadecimal digits.
  function FromHex(b: Byte): (d: Option<nat>)
    ensures d.Some? ==> d.value < 16
  {
    if Code('0') <= b <= Code('9') then Some(b - Code('0'))
    else if Code('A') <= b <= Code('F') then Some(10 + b - Code('A'))
    else None
  }

  function ToHex(d: nat): (b: Byte)
    requires d < 16
    ensures FromHex(b) == Some(d)
  {
    if d < 10 then Code('0') + d else Code('A') + d - 10
  }

  // -------- Code points --------

  predicate IsScalar(v: nat) {
    v < 0xD800 || 0xE000 <= v < 0x110000
  }

  // The low six bits, and what is above them.
  function TailByte(v: nat): Byte {
    0x80 + v % 0x40
  }

  // The encoding of section 3 of RFC 3629.
  function EncodeUtf8(v: nat): (bytes: Option<seq<Byte>>)
    ensures bytes.Some? <==> IsScalar(v)
    ensures bytes.Some? ==> 1 <= |bytes.value| <= 4
  {
    var v1 := v / 0x40;
    var v2 := v1 / 0x40;
    var v3 := v2 / 0x40;
    if !IsScalar(v) then None
    else if v < 0x80 then Some([v])
    else if v < 0x800 then Some([0xC0 + v1, TailByte(v)])
    else if v < 0x10000 then Some([0xE0 + v2, TailByte(v1), TailByte(v)])
    else Some([0xF0 + v3, TailByte(v2), TailByte(v1), TailByte(v)])
  }

  // The bits of the code point, six to each byte but the first, by the number of bytes.
  lemma {:induction false} Utf8Value(v: nat)
    ensures EncodeUtf8(v).Some? <==> v <= 0xD7FF || 0xE000 <= v <= 0x10FFFF
    ensures EncodeUtf8(v).Some? ==>
      var s := EncodeUtf8(v).value;
      && (forall i | 0 < i < |s| :: 0x80 <= s[i] < 0xC0)
      && |s| == (if v < 0x80 then 1 else if v < 0x800 then 2 else if v < 0x10000 then 3 else 4)
      && match |s|
         case 1 => v == s[0]
         case 2 => 64 * s[0] as int + s[1] as int == v + 64 * 0xC0 + 0x80
         case 3 => 4096 * s[0] as int + 64 * s[1] as int + s[2] as int == v + 4096 * 0xE0 + 65 * 0x80
         case _ =>
           262144 * s[0] as int + 4096 * s[1] as int + 64 * s[2] as int + s[3] as int == v + 262144 * 0xF0 + 4161 * 0x80
  {
    var v1 := v / 0x40;
    var v2 := v1 / 0x40;
    assert v == 64 * v1 + v % 0x40 && v1 == 64 * v2 + v1 % 0x40 && v2 == 64 * (v2 / 0x40) + v2 % 0x40;
  }

  predicate IsTail(b: Byte) {
    0x80 <= b < 0xC0
  }

  function Less(b: Byte, mark: nat): int {
    b as int - mark
  }

  function Joined(v: int, tail: Byte): int {
    v * 0x40 + Less(tail, 0x80)
  }

  // The decoding of the same section: the first byte tells the length, overlong forms are not allowed.
  function DecodeUtf8(s: seq<Byte>): Option<nat> {
    if |s| == 1 && s[0] < 0x80 then Some(s[0])
    else if |s| == 2 && 0xC2 <= s[0] < 0xE0 && IsTail(s[1]) then Some(Joined(Less(s[0], 0xC0), s[1]))
    else if |s| == 3 && 0xE0 <= s[0] < 0xF0 && IsTail(s[1]) && IsTail(s[2]) then
      var v := Joined(Joined(Less(s[0], 0xE0), s[1]), s[2]);
      if v >= 0x800 && IsScalar(v) then Some(v) else None
    else if |s| == 4 && 0xF0 <= s[0] < 0xF5 && IsTail(s[1]) && IsTail(s[2]) && IsTail(s[3]) then
      var v := Joined(Joined(Joined(Less(s[0], 0xF0), s[1]), s[2]), s[3]);
      if 0x10000 <= v < 0x110000 then Some(v) else None
    else None
  }

  lemma {:induction false} JoinTail(v: nat)
    ensures IsTail(TailByte(v)) && Joined(v / 0x40, TailByte(v)) == v
  {
  }

  lemma {:induction false} SplitTail(v: nat, tail: Byte)
    requires IsTail(tail)
    ensures Joined(v, tail) >= 0 && Joined(v, tail) / 0x40 == v && TailByte(Joined(v, tail)) == tail
    ensures v * 0x40 <= Joined(v, tail) < (v + 1) * 0x40
  {
  }

  lemma {:induction false} Utf8RoundTrip(v: nat)
    requires IsScalar(v)
    ensures DecodeUtf8(EncodeUtf8(v).value) == Some(v)
  {
    hide TailByte, Joined, IsTail;
    JoinTail(v);
    JoinTail(v / 0x40);
    JoinTail(v / 0x40 / 0x40);
  }

  lemma {:induction false} Utf8Surjective(s: seq<Byte>)
    requires DecodeUtf8(s).Some?
    ensures EncodeUtf8(DecodeUtf8(s).value) == Some(s)
  {
    hide TailByte, Joined, IsTail;
    if |s| == 1 {
      assert s == [s[0]];
    } else if |s| == 2 {
      assert s == [s[0], s[1]];
      SplitTail(Less(s[0], 0xC0), s[1]);
    } else if |s| == 3 {
      assert s == [s[0], s[1], s[2]];
      SplitTail(Less(s[0], 0xE0), s[1]);
      SplitTail(Joined(Less(s[0], 0xE0), s[1]), s[2]);
    } else if |s| == 4 {
      assert s == [s[0], s[1], s[2], s[3]];
      SplitTail(Less(s[0], 0xF0), s[1]);
      SplitTail(Joined(Less(s[0], 0xF0), s[1]), s[2]);
      SplitTail(Joined(Joined(Less(s[0], 0xF0), s[1]), s[2]), s[3]);
    }
  }

  const Wrap: nat := 0x1_0000_0000

  // The accumulation of hexadecimal digits in an unsigned 32-bit integer.
  function Accumulate(v: nat, digit: nat): nat
    requires digit < 16
  {
    ((v * 16) % Wrap + digit) % Wrap
  }

  function Power16(n: nat): nat {
    if n == 0 then 1 else 16 * Power16(n - 1)
  }

  predicate AllHex(digits: seq<Byte>) {
    forall i | 0 <= i < |digits| :: FromHex(digits[i]).Some?
  }

  // The number that the digits stand for.
  ghost function HexValue(digits: seq<Byte>): (v: nat)
    requires AllHex(digits)
    ensures v < Power16(|digits|)
  {
    if digits == [] then 0
    else 16 * HexValue(digits[..|digits| - 1]) + FromHex(digits[|digits| - 1]).value
  }

  // The first digit counts for a power of sixteen.
  lemma {:induction false} HexValueFirst(digits: seq<Byte>)
    requires AllHex(digits) && digits != []
    ensures HexValue(digits) == FromHex(digits[0]).value * Power16(|digits| - 1) + HexValue(digits[1..])
    ensures Power16(|digits| - 1) == if |digits| == 1 then 1 else 16 * Power16(|digits| - 2)
  {
    hide FromHex;
    var n := |digits| - 1;
    if n == 0 {
      assert digits[..0] == [] && digits[1..] == [];
    } else {
      var rest := digits[1..];
      HexValueFirst(digits[..n]);
      assert digits[..n][1..] == rest[..n - 1] && rest[n - 1] == digits[n];
      Scaled(FromHex(digits[0]).value, Power16(n - 1));
    }
  }

  lemma {:induction false} Scaled(d: nat, p: nat)
    ensures 16 * (d * p) == d * (16 * p)
  {
  }

  lemma {:induction false} PowerMonotone(m: nat, n: nat)
    requires m <= n
    ensures Power16(m) <= Power16(n)
  {
    if m < n {
      PowerMonotone(m, n - 1);
    }
  }

  // Up to eight digits do not overflow.
  lemma {:induction false} AccumulateExact(digits: seq<Byte>)
    requires AllHex(digits) && 1 <= |digits| <= 8
    ensures HexValue(digits) < Wrap
    ensures Accumulate(HexValue(digits[..|digits| - 1]), FromHex(digits[|digits| - 1]).value) == HexValue(digits)
  {
    PowerMonotone(|digits|, 8);
    assert Power16(8) == Wrap;
  }

  // -------- What a string literal means --------

  function EscapeMark(hashtags: nat): (mark: seq<Byte>)
    ensures |mark| == hashtags + 1 && mark[0] == Code('\\') == 92
    ensures forall i | 0 < i <= hashtags :: mark[i] == 35
  {
    [Code('\\')] + seq(hashtags, _ => Code('#'))
  }

  predicate StartsEscape(s: seq<Byte>, hashtags: nat) {
    hashtags < |s| && s[..hashtags + 1] == EscapeMark(hashtags)
  }

  // What an escape stands for, and how long it is after its mark.
  datatype Escape = Escape(bytes: seq<Byte>, length: nat)

  ghost function HexRun(t: seq<Byte>): (n: nat)
    ensures n <= |t| && AllHex(t[..n])
    ensures n < |t| ==> FromHex(t[n]) == None
  {
    if t == [] || FromHex(t[0]) == None then 0
    else
      var n := 1 + HexRun(t[1..]);
      assert forall i | 1 <= i < n :: t[i] == t[1..][..n - 1][i - 1];
      n
  }

  // One to eight digits in braces, for a Unicode scalar value.
  ghost function UnicodeEscape(t: seq<Byte>): Option<Escape> {
    if |t| < 2 || t[1] != Code('{') then None
    else
      var n := HexRun(t[2..]);
      if 1 <= n <= 8 && n + 2 < |t| && t[n + 2] == Code('}') && EncodeUtf8(HexValue(t[2..][..n])).Some? then
        Some(Escape(EncodeUtf8(HexValue(t[2..][..n])).value, n + 3))
      else None
  }

  ghost function HexEscape(t: seq<Byte>): Option<Escape> {
    if |t| >= 3 && FromHex(t[1]).Some? && FromHex(t[2]).Some? then
      Some(Escape([16 * FromHex(t[1]).value + FromHex(t[2]).value], 3))
    else None
  }

  function IsDigit(b: Byte): bool {
    Code('0') <= b <= Code('9')
  }

  // The one-character escapes.
  function Simple(c: Byte): Option<Byte> {
    if c == Code('n') then Some(Code('\n'))
    else if c == Code('r') then Some(Code('\r'))
    else if c == Code('t') then Some(Code('\t'))
    else if c == Code('0') then Some(0)
    else if c == Code('"') then Some(c)
    else if c == Code('\'') then Some(c)
    else if c == Code('\\') then Some(c)
    else None
  }

  // `t` is what follows the mark.
  ghost function Decode(t: seq<Byte>, block: bool): Option<Escape> {
    if t == [] then None
    else if t[0] == Code('0') && |t| > 1 && IsDigit(t[1]) then None
    else if Simple(t[0]).Some? then Some(Escape([Simple(t[0]).value], 1))
    else if t[0] == Code('x') then HexEscape(t)
    else if t[0] == Code('u') then UnicodeEscape(t)
    else if t[0] == Code('\n') && block then Some(Escape([], 1))
    else None
  }

  lemma {:induction false} DecodeLength(t: seq<Byte>, block: bool)
    requires Decode(t, block).Some?
    ensures 1 <= Decode(t, block).value.length <= |t|
    ensures |Decode(t, block).value.bytes| <= Decode(t, block).value.length
  {
  }

  function Prepend(bytes: seq<Byte>, rest: Option<seq<Byte>>): Option<seq<Byte>> {
    if rest == None then None else Some(bytes + rest.value)
  }

  ghost function Unescape(s: seq<Byte>, hashtags: nat, block: bool): Option<seq<Byte>>
    decreases |s|
  {
    if s == [] then Some([])
    else if StartsEscape(s, hashtags) then
      var t := s[hashtags + 1..];
      if Decode(t, block) == None then None
      else
        DecodeLength(t, block);
        var e := Decode(t, block).value;
        Prepend(e.bytes, Unescape(t[e.length..], hashtags, block))
    else if s[0] == Code('\t') then None
    else Prepend([s[0]], Unescape(s[1..], hashtags, block))
  }

  // The result never outgrows the space reserved for it.
  lemma {:induction false} UnescapeShrinks(s: seq<Byte>, hashtags: nat, block: bool)
    requires Unescape(s, hashtags, block).Some?
    ensures |Unescape(s, hashtags, block).value| <= |s|
    decreases |s|
  {
    hide Decode, StartsEscape;
    if s == [] {
    } else if StartsEscape(s, hashtags) {
      Unmarked(s, hashtags);
      var t := s[hashtags + 1..];
      DecodeLength(t, block);
      UnescapeShrinks(t[Decode(t, block).value.length..], hashtags, block);
    } else {
      UnescapeShrinks(s[1..], hashtags, block);
    }
  }

  lemma {:induction false} Unmarked(s: seq<Byte>, hashtags: nat)
    requires StartsEscape(s, hashtags)
    ensures |s[hashtags + 1..]| == |s| - hashtags - 1
  {
  }

  // -------- An escaper --------

  // Bytes that stand for themselves wherever they are in a literal.
  predicate IsPlain(b: Byte) {
    Code(' ') < b < 127 && b != Code('\\')
  }

  ghost function EscapeByte(b: Byte, hashtags: nat): seq<Byte> {
    if IsPlain(b) then [b]
    else EscapeMark(hashtags) + [Code('x'), ToHex(b / 16), ToHex(b % 16)]
  }

  ghost function EscapeBytes(bytes: seq<Byte>, hashtags: nat): seq<Byte> {
    if bytes == [] then [] else EscapeByte(bytes[0], hashtags) + EscapeBytes(bytes[1..], hashtags)
  }

  // An escape at the front is decoded on its own.
  lemma {:induction false} UnescapeMarked(t: seq<Byte>, hashtags: nat, block: bool)
    ensures Unescape(EscapeMark(hashtags) + t, hashtags, block) ==
      match Decode(t, block)
      case None => None
      case Some(e) => (DecodeLength(t, block); Prepend(e.bytes, Unescape(t[e.length..], hashtags, block)))
  {
    hide Decode;
    var s := EscapeMark(hashtags) + t;
    assert s[..hashtags + 1] == EscapeMark(hashtags) && s[hashtags + 1..] == t;
    assert StartsEscape(s, hashtags);
  }

  lemma {:induction false} NotMarked(s: seq<Byte>, hashtags: nat)
    requires s != [] && s[0] != Code('\\')
    ensures !StartsEscape(s, hashtags)
  {
    if hashtags < |s| {
      assert s[..hashtags + 1][0] == s[0];
    }
  }

  lemma {:induction false} UnescapeRaw(b: Byte, rest: seq<Byte>, hashtags: nat, block: bool)
    requires b != Code('\\') && b != Code('\t')
    ensures Unescape([b] + rest, hashtags, block) == Prepend([b], Unescape(rest, hashtags, block))
  {
    hide StartsEscape;
    NotMarked([b] + rest, hashtags);
    assert ([b] + rest)[1..] == rest;
  }

  lemma {:induction false} UnescapeHex(b: Byte, rest: seq<Byte>, hashtags: nat, block: bool)
    ensures Unescape(EscapeMark(hashtags) + [Code('x'), ToHex(b / 16), ToHex(b % 16)] + rest, hashtags, block)
      == Prepend([b], Unescape(rest, hashtags, block))
  {
    hide StartsEscape, Unescape;
    var t := [Code('x'), ToHex(b / 16), ToHex(b % 16)] + rest;
    assert EscapeMark(hashtags) + [Code('x'), ToHex(b / 16), ToHex(b % 16)] + rest == EscapeMark(hashtags) + t;
    HexDecodes(b, rest, block);
    assert t[3..] == rest;
    UnescapeMarked(t, hashtags, block);
  }

  lemma {:induction false} HexDecodes(b: Byte, rest: seq<Byte>, block: bool)
    ensures Decode([Code('x'), ToHex(b / 16), ToHex(b % 16)] + rest, block) == Some(Escape([b], 3))
  {
    hide ToHex, FromHex;
  }

  lemma {:induction false} UnescapeByte(b: Byte, rest: seq<Byte>, hashtags: nat, block: bool)
    ensures Unescape(EscapeByte(b, hashtags) + rest, hashtags, block) == Prepend([b], Unescape(rest, hashtags, block))
  {
    hide StartsEscape, Unescape;
    if IsPlain(b) {
      UnescapeRaw(b, rest, hashtags, block);
    } else {
      UnescapeHex(b, rest, hashtags, block);
    }
  }

  lemma {:induction false} UnescapeEscaped(bytes: seq<Byte>, rest: seq<Byte>, hashtags: nat, block: bool)
    ensures Unescape(EscapeBytes(bytes, hashtags) + rest, hashtags, block)
      == Prepend(bytes, Unescape(rest, hashtags, block))
  {
    hide Unescape, EscapeByte;
    if bytes == [] {
      assert EscapeBytes(bytes, hashtags) + rest == rest;
      PrependNothing(Unescape(rest, hashtags, block));
    } else {
      var tail := EscapeBytes(bytes[1..], hashtags) + rest;
      UnescapeEscaped(bytes[1..], rest, hashtags, block);
      UnescapeByte(bytes[0], tail, hashtags, block);
      assert EscapeBytes(bytes, hashtags) + rest == EscapeByte(bytes[0], hashtags) + tail;
      PrependTwice([bytes[0]], bytes[1..], Unescape(rest, hashtags, block));
      assert [bytes[0]] + bytes[1..] == bytes;
    }
  }

  // Unescaping inverts the escaper, for every byte string and every number of hashtags.
  lemma {:induction false} UnescapeEscapes(bytes: seq<Byte>, hashtags: nat, block: bool)
    ensures Unescape(EscapeBytes(bytes, hashtags), hashtags, block) == Some(bytes)
  {
    UnescapeEscaped(bytes, [], hashtags, block);
    assert EscapeBytes(bytes, hashtags) + [] == EscapeBytes(bytes, hashtags);
    UnescapeEnd(bytes, hashtags, block);
  }

  // A run of digits ends where the digits end.
  lemma {:induction false} RunOfDigits(digits: seq<Byte>, rest: seq<Byte>)
    requires AllHex(digits) && (rest == [] || FromHex(rest[0]) == None)
    ensures HexRun(digits + rest) == |digits|
  {
    if digits == [] {
      assert digits + rest == rest;
    } else {
      RunOfDigits(digits[1..], rest);
      assert (digits + rest)[1..] == digits[1..] + rest;
    }
  }

  // -------- Every escape --------

  // The hexadecimal digits: not the lowercase letters, nor anything else.
  lemma HexDigits(b: Byte)
    ensures FromHex(b) == if 48 <= b <= 57 then Some(b - 48) else if 65 <= b <= 70 then Some(b - 55) else None
  {
  }

  // What the byte after the mark says, in codes: `n`, `r`, `t`, the two quotation marks and the backslash
  // stand for one byte, `0` for the byte 0 unless a digit follows, `x` takes two digits, and a newline is
  // left out of a block. Nothing else follows a mark but `u`.
  lemma {:induction false} EscapeMeaning(c: Byte, rest: seq<Byte>, hashtags: nat, block: bool)
    requires c != 117
    ensures Unescape(EscapeMark(hashtags) + ([c] + rest), hashtags, block) ==
      if c == 110 then Prepend([10], Unescape(rest, hashtags, block))
      else if c == 114 then Prepend([13], Unescape(rest, hashtags, block))
      else if c == 116 then Prepend([9], Unescape(rest, hashtags, block))
      else if c == 34 || c == 39 || c == 92 then Prepend([c], Unescape(rest, hashtags, block))
      else if c == 48 then
        if rest != [] && 48 <= rest[0] <= 57 then None else Prepend([0], Unescape(rest, hashtags, block))
      else if c == 120 then
        if |rest| < 2 || FromHex(rest[0]) == None || FromHex(rest[1]) == None then None
        else Prepend([16 * FromHex(rest[0]).value + FromHex(rest[1]).value], Unescape(rest[2..], hashtags, block))
      else if c == 10 && block then Unescape(rest, hashtags, block)
      else None
  {
    hide StartsEscape, Unescape, FromHex, EscapeMark, Prepend;
    var t := [c] + rest;
    assert t[0] == c && t[1..] == rest;
    assert c == 120 && |rest| >= 2 ==> t[1] == rest[0] && t[2] == rest[1] && t[3..] == rest[2..];
    UnescapeMarked(t, hashtags, block);
    PrependNothing(Unescape(rest, hashtags, block));
  }

  // A mark at the end, or a `u` without digits up to a closing brace, is refused.
  lemma {:induction false} EscapeRefused(rest: seq<Byte>, hashtags: nat, block: bool)
    ensures Unescape(EscapeMark(hashtags) + [], hashtags, block) == None
    ensures rest == [] || rest[0] != 123 ==> Unescape(EscapeMark(hashtags) + ([117] + rest), hashtags, block) == None
    ensures (forall n: nat | n < |rest| && rest[n] == 125 :: !AllHex(rest[..n])) ==>
      Unescape(EscapeMark(hashtags) + ([117, 123] + rest), hashtags, block) == None
  {
    hide StartsEscape, Unescape, EscapeMark, HexRun, AllHex, FromHex, HexValue, EncodeUtf8;
    UnescapeMarked([], hashtags, block);
    UnescapeMarked([117] + rest, hashtags, block);
    UnescapeMarked([117, 123] + rest, hashtags, block);
    assert ([117, 123] + rest)[2..] == rest;
    var n := HexRun(rest);
    assert AllHex(rest[..n]);
  }

  // A byte that begins no escape stands for itself, but for a tab.
  lemma {:induction false} RawMeaning(b: Byte, rest: seq<Byte>, hashtags: nat, block: bool)
    requires !(EscapeMark(hashtags) <= [b] + rest)
    ensures Unescape([b] + rest, hashtags, block) == if b == 9 then None else Prepend([b], Unescape(rest, hashtags, block))
  {
    hide EscapeMark, Unescape;
    var s := [b] + rest;
    assert s[0] == b && s[1..] == rest;
    UnescapeStep(s, hashtags, block);
  }

  // Every spelling of a code point in braces: accepted exactly with up to eight digits for a Unicode
  // scalar value.
  lemma {:induction false} UnescapeUnicode(digits: seq<Byte>, rest: seq<Byte>, hashtags: nat, block: bool)
    requires AllHex(digits)
    ensures Unescape(EscapeMark(hashtags) + ([Code('u'), Code('{')] + digits + [Code('}')] + rest), hashtags, block)
      == if 1 <= |digits| <= 8 && IsScalar(HexValue(digits)) then
           Prepend(EncodeUtf8(HexValue(digits)).value, Unescape(rest, hashtags, block))
         else None
  {
    hide StartsEscape, Unescape, HexRun, AllHex, FromHex, EncodeUtf8;
    var t := [Code('u'), Code('{')] + digits + [Code('}')] + rest;
    UnicodeDecodes(digits, rest);
    assert t[|digits| + 3..] == rest;
    UnescapeMarked(t, hashtags, block);
  }

  lemma {:induction false} UnicodeDecodes(digits: seq<Byte>, rest: seq<Byte>)
    requires AllHex(digits)
    ensures UnicodeEscape([Code('u'), Code('{')] + digits + [Code('}')] + rest)
      == if 1 <= |digits| <= 8 && IsScalar(HexValue(digits)) then
           Some(Escape(EncodeUtf8(HexValue(digits)).value, |digits| + 3))
         else None
  {
    hide HexRun, AllHex, HexValue;
    var t := [Code('u'), Code('{')] + digits + [Code('}')] + rest;
    RunOfDigits(digits, [Code('}')] + rest);
    assert t[2..] == digits + ([Code('}')] + rest);
    assert t[2..][..|digits|] == digits;
  }

  // -------- The unescaper --------

  // The digits between the braces of `\u{...}`, from `start` to the closing brace.
  method ReadCodePoint(source: seq<Byte>, start: nat) returns (codePoint: Option<nat>, end: nat)
    requires start <= |source|
    ensures start <= end <= |source|
    ensures var n := HexRun(source[start..]);
      codePoint == if 1 <= n <= 8 && start + n < |source| && source[start + n] == Code('}') then
                     Some(HexValue(source[start..][..n]))
                   else None
    ensures codePoint.Some? ==> end == start + HexRun(source[start..])
  {
    hide HexRun, FromHex, Accumulate, Power16;
    var value: nat := 0;
    end := start;
    while end < |source| && source[end] != Code('}')
      invariant start <= end <= |source| && end - start <= 8
      invariant AllHex(source[start..end]) && value == HexValue(source[start..end])
      decreases |source| - end
    {
      var digit := FromHex(source[end]);
      if digit == None {
        RunUpTo(source, start, end);
        return None, end;
      }
      ghost var digits := source[start..end + 1];
      OneMoreByte(source, start, end);
      assert AllHex(digits);
      if end + 1 - start <= 8 {
        AccumulateExact(digits);
      }
      value := Accumulate(value, digit.value);
      end := end + 1;
      if end - start > 8 {
        RunAtLeast(source, start, end);
        return None, end;
      }
    }
    HexDigits(Code('}'));
    RunUpTo(source, start, end);
    if end >= |source| || end == start {
      return None, end;
    }
    return Some(value), end;
  }

  lemma {:induction false} OneMoreByte(source: seq<Byte>, start: nat, end: nat)
    requires start <= end < |source|
    ensures var bytes := source[start..end + 1];
      |bytes| == end + 1 - start && bytes[..|bytes| - 1] == source[start..end] && bytes[|bytes| - 1] == source[end]
  {
  }

  lemma {:induction false} RunUpTo(source: seq<Byte>, start: nat, end: nat)
    requires start <= end <= |source| && AllHex(source[start..end])
    requires end < |source| ==> FromHex(source[end]) == None
    ensures HexRun(source[start..]) == end - start
    ensures source[start..][..end - start] == source[start..end]
  {
    assert source[start..] == source[start..end] + source[end..];
    RunOfDigits(source[start..end], source[end..]);
  }

  lemma {:induction false} RunAtLeast(source: seq<Byte>, start: nat, end: nat)
    requires start <= end <= |source| && AllHex(source[start..end])
    ensures HexRun(source[start..]) >= end - start
  {
    hide FromHex;
    var n := HexRun(source[start..]);
    assert forall k | start <= k < end :: source[k] == source[start..end][k - start];
    assert forall k | start <= k < end :: FromHex(source[k]).Some?;
    assert n < |source[start..]| ==> source[start..][n] == source[start + n];
  }

  // The escape after a mark.
  method DecodeEscape(source: seq<Byte>, start: nat, block: bool) returns (bytes: Option<seq<Byte>>, end: nat)
    requires start < |source|
    ensures bytes == match Decode(source[start..], block) { case None => None case Some(e) => Some(e.bytes) }
    ensures bytes.Some? ==> end == start + Decode(source[start..], block).value.length
  {
    hide HexRun, EncodeUtf8, HexValue, AllHex, FromHex;
    var c := source[start];
    ghost var t := source[start..];
    end := start + 1;
    if c == Code('0') && end < |source| && IsDigit(source[end]) {
      return None, end;
    } else if Simple(c).Some? {
      return Some([Simple(c).value]), end;
    } else if c == Code('x') {
      if start + 2 >= |source| {
        return None, end;
      }
      var c1, c2 := FromHex(source[start + 1]), FromHex(source[start + 2]);
      if c1 == None || c2 == None {
        return None, end;
      }
      return Some([16 * c1.value + c2.value]), start + 3;
    } else if c == Code('u') {
      if end >= |source| || source[end] != Code('{') {
        return None, end;
      }
      var codePoint;
      assert t[2..] == source[start + 2..];
      codePoint, end := ReadCodePoint(source, start + 2);
      if codePoint == None || EncodeUtf8(codePoint.value) == None {
        return None, end;
      }
      return EncodeUtf8(codePoint.value), end + 1;
    } else if c == Code('\n') && block {
      return Some([]), end;
    }
    return None, end;
  }

  lemma {:induction false} UnescapeStep(s: seq<Byte>, hashtags: nat, block: bool)
    requires s != [] && !StartsEscape(s, hashtags)
    ensures Unescape(s, hashtags, block) ==
      if s[0] == Code('\t') then None else Prepend([s[0]], Unescape(s[1..], hashtags, block))
  {
  }

  lemma {:induction false} UnescapeEscape(s: seq<Byte>, hashtags: nat, block: bool)
    requires StartsEscape(s, hashtags)
    ensures |s[hashtags + 1..]| == |s| - hashtags - 1
    ensures Unescape(s, hashtags, block) ==
      match Decode(s[hashtags + 1..], block)
      case None => None
      case Some(e) => (DecodeLength(s[hashtags + 1..], block);
                       Prepend(e.bytes, Unescape(s[hashtags + 1..][e.length..], hashtags, block)))
    ensures s[hashtags + 1..] == [] ==> Unescape(s, hashtags, block) == None
  {
  }

  lemma {:induction false} UnescapeEnd(ret: seq<Byte>, hashtags: nat, block: bool)
    ensures Prepend(ret, Unescape([], hashtags, block)) == Some(ret)
  {
    assert ret + [] == ret;
  }

  lemma {:induction false} PrependNothing(rest: Option<seq<Byte>>)
    ensures Prepend([], rest) == rest
  {
    if rest.Some? {
      assert [] + rest.value == rest.value;
    }
  }

  lemma {:induction false} PrependTwice(first: seq<Byte>, second: seq<Byte>, rest: Option<seq<Byte>>)
    ensures Prepend(first, Prepend(second, rest)) == Prepend(first + second, rest)
  {
    if rest.Some? {
      assert first + (second + rest.value) == first + second + rest.value;
    }
  }

  lemma {:induction false} StartsEscapeAt(source: seq<Byte>, i: nat, hashtags: nat)
    requires i <= |source|
    ensures StartsEscape(source[i..], hashtags)
      <==> i + hashtags < |source| && source[i..i + hashtags + 1] == EscapeMark(hashtags)
  {
    if i + hashtags < |source| {
      assert source[i..][..hashtags + 1] == source[i..i + hashtags + 1];
    }
  }

  method UnescapeStringLiteral(source: seq<Byte>, hashtags: nat, block: bool) returns (result: Option<seq<Byte>>)
    ensures result == Unescape(source, hashtags, block)
    ensures result.Some? ==> |result.value| <= |source|
  {
    hide Decode, EscapeMark, Unescape, StartsEscape;
    var ret: seq<Byte> := [];
    var escape := EscapeMark(hashtags);
    var i := 0;
    assert source[0..] == source;
    PrependNothing(Unescape(source, hashtags, block));
    while i < |source|
      invariant i <= |source|
      invariant Prepend(ret, Unescape(source[i..], hashtags, block)) == Unescape(source, hashtags, block)
      decreases |source| - i
    {
      StartsEscapeAt(source, i, hashtags);
      if i + hashtags < |source| && source[i..i + hashtags + 1] == escape {
        UnescapeEscape(source[i..], hashtags, block);
        assert source[i..][hashtags + 1..] == source[i + hashtags + 1..];
        i := i + hashtags + 1;
        if i == |source| {
          return None;
        }
        var bytes, end := DecodeEscape(source, i, block);
        if bytes == None {
          return None;
        }
        DecodeLength(source[i..], block);
        assert source[i..][end - i..] == source[end..];
        PrependTwice(ret, bytes.value, Unescape(source[end..], hashtags, block));
        ret := ret + bytes.value;
        i := end;
      } else {
        UnescapeStep(source[i..], hashtags, block);
        if source[i] == Code('\t') {
          return None;
        }
        assert source[i..][1..] == source[i + 1..];
        PrependTwice(ret, [source[i]], Unescape(source[i + 1..], hashtags, block));
        ret := ret + [source[i]];
        i := i + 1;
      }
    }
    assert source[i..] == [];
    UnescapeEnd(ret, hashtags, block);
    result := Some(ret);
    UnescapeShrinks(source, hashtags, block);
  }
}
