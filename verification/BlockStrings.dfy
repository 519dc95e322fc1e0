// Block string literals: every byte string has one, at every indentation and with every number of
// hashtags, and parsing it gives the string back.
module BlockStrings {
  import opened Options
  import opened StringHelpers

  const Newline: Byte := 10

  predicate IsSpace(b: Byte) {
    b == Code(' ') || b == Code('\t')
  }

  // -------- The string operations used --------

  function SplitLines(s: seq<Byte>): (lines: seq<seq<Byte>>)
    ensures lines != []
  {
    if s == [] then [[]]
    else
      var rest := SplitLines(s[1..]);
      if s[0] == Newline then [[]] + rest else [[s[0]] + rest[0]] + rest[1..]
  }

  function LeadingSpaces(s: seq<Byte>): (n: nat)
    ensures n <= |s|
    ensures forall i | 0 <= i < n :: IsSpace(s[i])
    ensures n < |s| ==> !IsSpace(s[n])
  {
    if s == [] || !IsSpace(s[0]) then 0 else 1 + LeadingSpaces(s[1..])
  }

  function TrimRight(s: seq<Byte>): (r: seq<Byte>)
    ensures r <= s && (r == [] || !IsSpace(r[|r| - 1]))
    ensures forall i | |r| <= i < |s| :: IsSpace(s[i])
  {
    if s == [] || !IsSpace(s[|s| - 1]) then s else TrimRight(s[..|s| - 1])
  }

  function TripleQuotes(): seq<Byte> {
    [Code('\''), Code('\''), Code('\'')]
  }

  // -------- What a block literal means --------

  predicate IsIndicatorByte(b: Byte) {
    b != Code('"') && b != Code('#') && !IsSpace(b)
  }

  // A file type indicator.
  ghost predicate IsIndicator(s: seq<Byte>) {
    forall i | 0 <= i < |s| :: IsIndicatorByte(s[i])
  }

  ghost predicate Opens(line: seq<Byte>) {
    TripleQuotes() <= line && IsIndicator(TrimRight(line[3..]))
  }

  ghost predicate Closes(line: seq<Byte>) {
    line[LeadingSpaces(line)..] == TripleQuotes()
  }

  // A line without its indentation and trailing spaces; blank lines may have less indentation.
  ghost function Content(line: seq<Byte>, indent: nat): Option<seq<Byte>> {
    if LeadingSpaces(line) == |line| then Some([])
    else if LeadingSpaces(line) < indent then None
    else Some(TrimRight(line[indent..]))
  }

  ghost function LineText(line: seq<Byte>, indent: nat, hashtags: nat): Option<seq<Byte>> {
    match Content(line, indent)
    case None => None
    case Some(content) => Unescape(content + [Newline], hashtags, true)
  }

  ghost function LinesText(lines: seq<seq<Byte>>, indent: nat, hashtags: nat): Option<seq<Byte>> {
    if lines == [] then Some([])
    else if LineText(lines[0], indent, hashtags) == None then None
    else Prepend(LineText(lines[0], indent, hashtags).value, LinesText(lines[1..], indent, hashtags))
  }

  ghost function BlockText(source: seq<Byte>, hashtags: nat): Option<seq<Byte>> {
    var lines := SplitLines(source);
    if |lines| < 2 || !Opens(lines[0]) || !Closes(lines[|lines| - 1]) then None
    else LinesText(lines[1..|lines| - 1], LeadingSpaces(lines[|lines| - 1]), hashtags)
  }

  // -------- The parser --------

  lemma {:induction false} LinesTextLast(lines: seq<seq<Byte>>, line: seq<Byte>, indent: nat, hashtags: nat)
    ensures LinesText(lines + [line], indent, hashtags) ==
      if LinesText(lines, indent, hashtags) == None || LineText(line, indent, hashtags) == None then None
      else Some(LinesText(lines, indent, hashtags).value + LineText(line, indent, hashtags).value)
  {
    hide LineText;
    var all := lines + [line];
    if lines == [] {
      assert all == [line] && all[1..] == [];
      assert forall text: seq<Byte> :: text + [] == text && [] + text == text;
    } else {
      LinesTextLast(lines[1..], line, indent, hashtags);
      assert all[1..] == lines[1..] + [line] && all[0] == lines[0];
      if LineText(lines[0], indent, hashtags).Some? && LinesText(all[1..], indent, hashtags).Some? {
        var a, b, c := LineText(lines[0], indent, hashtags).value, LinesText(lines[1..], indent, hashtags).value,
                       LineText(line, indent, hashtags).value;
        assert a + (b + c) == a + b + c;
      }
    }
  }

  // A line that fails fails the whole.
  lemma {:induction false} LinesTextFails(lines: seq<seq<Byte>>, k: nat, indent: nat, hashtags: nat)
    requires k < |lines| && LineText(lines[k], indent, hashtags) == None
    ensures LinesText(lines, indent, hashtags) == None
  {
    if k > 0 {
      LinesTextFails(lines[1..], k - 1, indent, hashtags);
    }
  }

  method ParseBlockStringLiteral(source: seq<Byte>, hashtags: nat) returns (result: Option<seq<Byte>>)
    ensures result == BlockText(source, hashtags)
  {
    hide LineText, LinesText;
    var lines := SplitLines(source);
    if |lines| < 2 {
      return None;
    }
    var first := lines[0];
    if !(TripleQuotes() <= first) {
      return None;
    }
    first := TrimRight(first[3..]);
    if !forall i | 0 <= i < |first| :: IsIndicatorByte(first[i]) {
      return None;
    }
    var last := lines[|lines| - 1];
    var indent := LeadingSpaces(last);
    if last[indent..] != TripleQuotes() {
      return None;
    }
    var parsed: seq<Byte> := [];
    ghost var middle := lines[1..|lines| - 1];
    NoText(indent, hashtags);
    assert middle[..0] == [];
    for i := 1 to |lines| - 1
      invariant LinesText(middle[..i - 1], indent, hashtags) == Some(parsed)
    {
      var text := ParseLine(lines[i], indent, hashtags);
      assert middle[i - 1] == lines[i];
      if text == None {
        LinesTextFails(middle, i - 1, indent, hashtags);
        return None;
      }
      LinesTextLast(middle[..i - 1], lines[i], indent, hashtags);
      assert middle[..i - 1] + [lines[i]] == middle[..i];
      parsed := parsed + text.value;
    }
    assert middle[..|lines| - 2] == middle;
    return Some(parsed);
  }

  lemma {:induction false} NoText(indent: nat, hashtags: nat)
    ensures LinesText([], indent, hashtags) == Some([])
  {
  }

  method ParseLine(line: seq<Byte>, indent: nat, hashtags: nat) returns (text: Option<seq<Byte>>)
    ensures text == LineText(line, indent, hashtags)
  {
    var firstNonSpace := LeadingSpaces(line);
    var content := [];
    if firstNonSpace < |line| {
      if firstNonSpace < indent {
        return None;
      }
      content := TrimRight(line[indent..]);
    }
    text := UnescapeStringLiteral(content + [Newline], hashtags, true);
  }

  // -------- Writing a block literal --------

  ghost predicate OneLine(s: seq<Byte>) {
    Newline !in s
  }

  ghost predicate AllSpaces(s: seq<Byte>) {
    forall b | b in s :: IsSpace(b)
  }

  ghost function JoinLines(lines: seq<seq<Byte>>): seq<Byte>
    requires lines != []
  {
    if |lines| == 1 then lines[0] else lines[0] + [Newline] + JoinLines(lines[1..])
  }

  lemma {:induction false} SplitFirst(line: seq<Byte>, rest: seq<Byte>)
    requires OneLine(line)
    ensures SplitLines(line) == [line]
    ensures SplitLines(line + [Newline] + rest) == [line] + SplitLines(rest)
  {
    var s := line + [Newline] + rest;
    if line == [] {
      assert s[1..] == rest;
    } else {
      SplitFirst(line[1..], rest);
      assert s[1..] == line[1..] + [Newline] + rest;
      assert [line[0]] + line[1..] == line;
    }
  }

  lemma {:induction false} SplitJoined(lines: seq<seq<Byte>>)
    requires lines != [] && forall i | 0 <= i < |lines| :: OneLine(lines[i])
    ensures SplitLines(JoinLines(lines)) == lines
  {
    hide OneLine;
    if |lines| == 1 {
      SplitFirst(lines[0], []);
      assert lines == [lines[0]];
    } else {
      SplitFirst(lines[0], JoinLines(lines[1..]));
      SplitJoined(lines[1..]);
    }
  }

  lemma {:induction false} JoinSplit(s: seq<Byte>)
    ensures JoinLines(SplitLines(s)) == s
    ensures forall i | 0 <= i < |SplitLines(s)| :: OneLine(SplitLines(s)[i])
  {
    if s != [] {
      JoinSplit(s[1..]);
      var rest, lines := SplitLines(s[1..]), SplitLines(s);
      assert s == [s[0]] + s[1..];
      if s[0] == Newline {
        assert lines[1..] == rest;
      } else {
        assert lines[1..] == rest[1..];
      }
    }
  }

  // The lines that write `lines`: all end in a newline but the last, which is left out if it is
  // empty and has its newline escaped otherwise.
  ghost function BodyLines(lines: seq<seq<Byte>>, margin: seq<Byte>, hashtags: nat): seq<seq<Byte>>
    requires lines != []
  {
    if |lines| > 1 then
      [margin + EscapeBytes(lines[0], hashtags)] + BodyLines(lines[1..], margin, hashtags)
    else if lines[0] == [] then []
    else [margin + EscapeBytes(lines[0], hashtags) + EscapeMark(hashtags)]
  }

  ghost function BlockLines(text: seq<Byte>, indicator: seq<Byte>, margin: seq<Byte>, hashtags: nat): seq<seq<Byte>> {
    [TripleQuotes() + indicator] + BodyLines(SplitLines(text), margin, hashtags) + [margin + TripleQuotes()]
  }

  ghost predicate Dense(s: seq<Byte>) {
    forall b | b in s :: b != Newline && !IsSpace(b)
  }

  lemma {:induction false} EscapesDense(bytes: seq<Byte>, hashtags: nat)
    ensures Dense(EscapeBytes(bytes, hashtags)) && Dense(EscapeMark(hashtags))
    ensures bytes != [] ==> EscapeBytes(bytes, hashtags) != []
  {
    hide ToHex, EscapeMark;
    MarkDense(hashtags);
    if bytes != [] {
      EscapesDense(bytes[1..], hashtags);
      HexDense(bytes[0] / 16);
      HexDense(bytes[0] % 16);
    }
  }

  lemma {:induction false} MarkDense(hashtags: nat)
    ensures Dense(EscapeMark(hashtags))
  {
  }

  lemma {:induction false} HexDense(d: nat)
    requires d < 16
    ensures ToHex(d) != Newline && !IsSpace(ToHex(d))
  {
  }

  lemma {:induction false} MarginMeasured(margin: seq<Byte>, s: seq<Byte>)
    requires AllSpaces(margin) && (s == [] || !IsSpace(s[0]))
    ensures LeadingSpaces(margin + s) == |margin| && (margin + s)[|margin|..] == s
  {
    if margin == [] {
      assert margin + s == s;
    } else {
      assert (margin + s)[1..] == margin[1..] + s;
      MarginMeasured(margin[1..], s);
    }
  }

  lemma {:induction false} ContentOfLine(margin: seq<Byte>, s: seq<Byte>)
    requires AllSpaces(margin) && Dense(s)
    ensures Content(margin + s, |margin|) == Some(s)
  {
    hide AllSpaces;
    assert s != [] ==> s[0] in s && s[|s| - 1] in s;
    MarginMeasured(margin, s);
    assert TrimRight(s) == s;
  }

  lemma {:induction false} FullLine(line: seq<Byte>, margin: seq<Byte>, hashtags: nat)
    requires AllSpaces(margin)
    ensures LineText(margin + EscapeBytes(line, hashtags), |margin|, hashtags) == Some(line + [Newline])
  {
    hide AllSpaces, Dense, Content, Unescape;
    EscapesDense(line, hashtags);
    ContentOfLine(margin, EscapeBytes(line, hashtags));
    UnescapeEscaped(line, [Newline], hashtags, true);
    OnlyNewline(hashtags);
  }

  lemma {:induction false} OnlyNewline(hashtags: nat)
    ensures Unescape([Newline], hashtags, true) == Some([Newline])
    ensures Unescape(EscapeMark(hashtags) + [Newline], hashtags, true) == Some([])
  {
    hide StartsEscape, Unescape;
    UnescapeRaw(Newline, [], hashtags, true);
    assert [Newline] + [] == [Newline] && [Newline][1..] == [];
    UnescapeMarked([Newline], hashtags, true);
    UnescapeEnd([Newline], hashtags, true);
    UnescapeEnd([], hashtags, true);
  }

  lemma {:induction false} PartialLine(line: seq<Byte>, margin: seq<Byte>, hashtags: nat)
    requires AllSpaces(margin)
    ensures LineText(margin + EscapeBytes(line, hashtags) + EscapeMark(hashtags), |margin|, hashtags) == Some(line)
  {
    hide AllSpaces, Content, Unescape, EscapeMark, EscapeBytes;
    EscapesDense(line, hashtags);
    var content := EscapeBytes(line, hashtags) + EscapeMark(hashtags);
    assert margin + EscapeBytes(line, hashtags) + EscapeMark(hashtags) == margin + content;
    ContentOfLine(margin, content);
    assert content + [Newline] == EscapeBytes(line, hashtags) + (EscapeMark(hashtags) + [Newline]);
    UnescapeEscaped(line, EscapeMark(hashtags) + [Newline], hashtags, true);
    OnlyNewline(hashtags);
    assert line + [] == line;
  }

  lemma {:induction false} BodyText(lines: seq<seq<Byte>>, margin: seq<Byte>, hashtags: nat)
    requires lines != [] && AllSpaces(margin)
    ensures LinesText(BodyLines(lines, margin, hashtags), |margin|, hashtags) == Some(JoinLines(lines))
  {
    hide AllSpaces, LineText, EscapeBytes, EscapeMark;
    var body := BodyLines(lines, margin, hashtags);
    if |lines| > 1 {
      FullLine(lines[0], margin, hashtags);
      BodyText(lines[1..], margin, hashtags);
      assert body[1..] == BodyLines(lines[1..], margin, hashtags);
    } else if lines[0] != [] {
      PartialLine(lines[0], margin, hashtags);
      assert body[1..] == [] && lines[0] + [] == lines[0];
    }
  }

  lemma {:induction false} BodyOneLine(lines: seq<seq<Byte>>, margin: seq<Byte>, hashtags: nat)
    requires lines != [] && OneLine(margin)
    ensures forall line | line in BodyLines(lines, margin, hashtags) :: OneLine(line)
  {
    hide EscapeBytes, EscapeMark;
    EscapesDense(lines[0], hashtags);
    if |lines| > 1 {
      BodyOneLine(lines[1..], margin, hashtags);
    }
  }

  // Every byte string has a block literal, with any indicator, any margin and any number of hashtags.
  lemma {:induction false} BlockRoundTrip(text: seq<Byte>, indicator: seq<Byte>, margin: seq<Byte>, hashtags: nat)
    requires AllSpaces(margin) && IsIndicator(indicator) && OneLine(indicator)
    ensures BlockText(JoinLines(BlockLines(text, indicator, margin, hashtags)), hashtags) == Some(text)
  {
    hide SplitLines, JoinLines, LinesText, BodyLines;
    var lines := BlockLines(text, indicator, margin, hashtags);
    var body := BodyLines(SplitLines(text), margin, hashtags);
    BodyOneLine(SplitLines(text), margin, hashtags);
    SplitJoined(lines);
    OpensAndCloses(indicator, margin);
    assert lines[1..|lines| - 1] == body;
    BodyText(SplitLines(text), margin, hashtags);
    JoinSplit(text);
  }

  lemma {:induction false} OpensAndCloses(indicator: seq<Byte>, margin: seq<Byte>)
    requires AllSpaces(margin) && IsIndicator(indicator)
    ensures Opens(TripleQuotes() + indicator)
    ensures Closes(margin + TripleQuotes()) && LeadingSpaces(margin + TripleQuotes()) == |margin|
  {
    MarginMeasured(margin, TripleQuotes());
    assert (TripleQuotes() + indicator)[3..] == indicator;
    assert indicator != [] ==> IsIndicatorByte(indicator[|indicator| - 1]);
    assert TrimRight(indicator) == indicator;
  }

  // -------- Lines that the writer does not produce --------

  // A line keeps what comes after the indentation and before its trailing spaces and tabs; a line of
  // spaces and tabs is empty however short; any other line needs the whole indentation.
  lemma {:induction false} ContentMeaning(margin: seq<Byte>, s: seq<Byte>, trail: seq<Byte>, indent: nat)
    requires forall b | b in margin || b in trail :: b == 32 || b == 9
    requires s != [] ==> s[0] != 32 && s[0] != 9 && s[|s| - 1] != 32 && s[|s| - 1] != 9
    ensures Content(margin + s + trail, indent) ==
      if s == [] then Some([]) else if |margin| < indent then None else Some(margin[indent..] + s)
  {
    hide TrimRight;
    var line := margin + s + trail;
    if s == [] {
      MarginMeasured(margin + trail, []);
      assert line == margin + trail + [];
    } else {
      assert line == margin + (s + trail);
      MarginMeasured(margin, s + trail);
      if indent <= |margin| {
        assert line[indent..] == margin[indent..] + s + trail;
        Trimmed(margin[indent..] + s, trail);
      }
    }
  }

  lemma {:induction false} Trimmed(s: seq<Byte>, trail: seq<Byte>)
    requires AllSpaces(trail) && s != [] && !IsSpace(s[|s| - 1])
    ensures TrimRight(s + trail) == s
  {
    if trail == [] {
      assert s + trail == s;
    } else {
      Trimmed(s, trail[..|trail| - 1]);
      assert (s + trail)[..|s + trail| - 1] == s + trail[..|trail| - 1];
    }
  }

  // The text of a literal is that of the lines between the first, with its indicator, and the last,
  // whose indentation they share.
  lemma {:induction false} BlockOfLines(body: seq<seq<Byte>>, indicator: seq<Byte>, margin: seq<Byte>, hashtags: nat)
    requires AllSpaces(margin) && IsIndicator(indicator) && OneLine(indicator)
    requires forall i | 0 <= i < |body| :: OneLine(body[i])
    ensures BlockText(JoinLines([TripleQuotes() + indicator] + body + [margin + TripleQuotes()]), hashtags)
      == LinesText(body, |margin|, hashtags)
  {
    hide SplitLines, JoinLines, LinesText;
    var lines := [TripleQuotes() + indicator] + body + [margin + TripleQuotes()];
    SplitJoined(lines);
    OpensAndCloses(indicator, margin);
    assert lines[1..|lines| - 1] == body;
  }

  // Spaces and tabs at the ends of the lines make no difference.
  lemma {:induction false} TrailingSpaces(body: seq<seq<Byte>>, trails: seq<seq<Byte>>, indent: nat, hashtags: nat)
    requires |trails| == |body| && forall i | 0 <= i < |trails| :: AllSpaces(trails[i])
    ensures LinesText(seq(|body|, i requires 0 <= i < |body| => body[i] + trails[i]), indent, hashtags)
      == LinesText(body, indent, hashtags)
  {
    hide LineText, AllSpaces;
    var trailed := seq(|body|, i requires 0 <= i < |body| => body[i] + trails[i]);
    if body != [] {
      TrailingSpacesLine(body[0], trails[0], indent, hashtags);
      TrailingSpaces(body[1..], trails[1..], indent, hashtags);
      assert trailed[1..] == seq(|body[1..]|, i requires 0 <= i < |body[1..]| => body[1..][i] + trails[1..][i]);
    }
  }

  lemma {:induction false} TrailingSpacesLine(line: seq<Byte>, trail: seq<Byte>, indent: nat, hashtags: nat)
    requires AllSpaces(trail)
    ensures LineText(line + trail, indent, hashtags) == LineText(line, indent, hashtags)
  {
    hide Unescape, Content, LeadingSpaces, TrimRight;
    var margin, s, end := Pieces(line);
    ContentMeaning(margin, s, end, indent);
    assert line + trail == margin + s + (end + trail);
    ContentMeaning(margin, s, end + trail, indent);
  }

  lemma {:induction false} Pieces(line: seq<Byte>) returns (margin: seq<Byte>, s: seq<Byte>, end: seq<Byte>)
    ensures line == margin + s + end && forall b | b in margin || b in end :: b == 32 || b == 9
    ensures s != [] ==> s[0] != 32 && s[0] != 9 && s[|s| - 1] != 32 && s[|s| - 1] != 9
  {
    hide LeadingSpaces, TrimRight;
    var n := LeadingSpaces(line);
    var rest := line[n..];
    margin, s := line[..n], TrimRight(rest);
    end := rest[|s|..];
    SpacesBetween(line, 0, n);
    SpacesBetween(rest, |s|, |rest|);
    assert line[0..n] == margin && rest[|s|..|rest|] == end;
    assert line == margin + rest && rest == s + end;
    assert s != [] ==> s[0] == line[n];
  }

  lemma {:induction false} SpacesBetween(s: seq<Byte>, from: nat, to: nat)
    requires from <= to <= |s| && forall i | from <= i < to :: IsSpace(s[i])
    ensures forall b | b in s[from..to] :: b == 32 || b == 9
  {
    var part := s[from..to];
    forall i | 0 <= i < |part|
      ensures IsSpace(part[i])
    {
      assert part[i] == s[from + i];
    }
  }

  // One line with too little indentation, and the literal is refused.
  lemma {:induction false} ShortIndentation(body: seq<seq<Byte>>, k: nat, indent: nat, hashtags: nat)
    requires k < |body| && LeadingSpaces(body[k]) < indent && LeadingSpaces(body[k]) < |body[k]|
    ensures LinesText(body, indent, hashtags) == None
  {
    hide Unescape;
    LinesTextFails(body, k, indent, hashtags);
  }

  ghost predicate IsFirstLine(line: seq<Byte>, indicator: seq<Byte>, trail: seq<Byte>) {
    && line == [39, 39, 39] + indicator + trail
    && (forall b | b in indicator :: b != 34 && b != 35 && b != 32 && b != 9)
    && (forall b | b in trail :: b == 32 || b == 9)
  }

  ghost predicate IsLastLine(line: seq<Byte>, margin: seq<Byte>) {
    line == margin + [39, 39, 39] && forall b | b in margin :: b == 32 || b == 9
  }

  // The first line is three single quotation marks, a file type indicator without `"`, `#`, spaces and
  // tabs, and spaces and tabs; the last one is spaces and tabs and three single quotation marks.
  lemma {:induction false} FirstAndLast(line: seq<Byte>)
    ensures Opens(line) <==> exists indicator, trail :: IsFirstLine(line, indicator, trail)
    ensures Closes(line) <==> exists margin :: IsLastLine(line, margin)
    ensures forall margin | IsLastLine(line, margin) :: LeadingSpaces(line) == |margin|
  {
    hide Opens, Closes, IsFirstLine, IsLastLine, LeadingSpaces;
    if Opens(line) {
      var indicator, trail := OpeningPieces(line);
    }
    forall indicator, trail | IsFirstLine(line, indicator, trail)
      ensures Opens(line)
    {
      OpensWith(line, indicator, trail);
    }
    if Closes(line) {
      var margin := ClosingMargin(line);
    }
    forall margin | IsLastLine(line, margin)
      ensures Closes(line) && LeadingSpaces(line) == |margin|
    {
      ClosesWith(line, margin);
    }
  }

  lemma {:induction false} OpeningPieces(line: seq<Byte>) returns (indicator: seq<Byte>, trail: seq<Byte>)
    requires Opens(line)
    ensures IsFirstLine(line, indicator, trail)
  {
    var rest := line[3..];
    indicator := TrimRight(rest);
    trail := rest[|indicator|..];
    assert line == [39, 39, 39] + rest && rest == indicator + trail;
    SpacesBetween(rest, |indicator|, |rest|);
    assert rest[|indicator|..|rest|] == trail;
    forall b | b in indicator
      ensures IsIndicatorByte(b)
    {
      var i :| 0 <= i < |indicator| && indicator[i] == b;
    }
  }

  lemma {:induction false} OpensWith(line: seq<Byte>, indicator: seq<Byte>, trail: seq<Byte>)
    requires IsFirstLine(line, indicator, trail)
    ensures Opens(line)
  {
    hide TrimRight;
    assert TripleQuotes() == [39, 39, 39];
    assert line == TripleQuotes() + (indicator + trail) && line[3..] == indicator + trail;
    forall i | 0 <= i < |indicator|
      ensures IsIndicatorByte(indicator[i])
    {
      assert indicator[i] in indicator;
    }
    if indicator != [] {
      Trimmed(indicator, trail);
    } else {
      assert line[3..] == trail;
      NothingButSpaces(trail);
    }
  }

  lemma {:induction false} NothingButSpaces(trail: seq<Byte>)
    requires forall b | b in trail :: b == 32 || b == 9
    ensures TrimRight(trail) == []
  {
    forall i | 0 <= i < |trail|
      ensures IsSpace(trail[i])
    {
      assert trail[i] in trail;
    }
    assert TrimRight(trail) <= trail;
  }

  lemma {:induction false} ClosingMargin(line: seq<Byte>) returns (margin: seq<Byte>)
    requires Closes(line)
    ensures IsLastLine(line, margin)
  {
    margin := line[..LeadingSpaces(line)];
    assert line == margin + line[LeadingSpaces(line)..];
    SpacesBetween(line, 0, LeadingSpaces(line));
    assert line[0..LeadingSpaces(line)] == margin;
  }

  lemma {:induction false} ClosesWith(line: seq<Byte>, margin: seq<Byte>)
    requires IsLastLine(line, margin)
    ensures Closes(line) && LeadingSpaces(line) == |margin|
  {
    MarginMeasured(margin, TripleQuotes());
  }
}
