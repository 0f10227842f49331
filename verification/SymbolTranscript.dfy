/** Transcripts whose messages start with a symbol in the first column. */
module SymbolTranscript {
  import opened TextSpace
  import opened Options

  datatype Role = User | Assistant

  datatype Message = Message(role: Role, text: string)

  // ----- Lines -----

  /** The characters at which the host language breaks lines. */
  predicate IsLineBreak(c: char) {
    var p := c as int;
    0x0A <= p <= 0x0D || 0x1C <= p <= 0x1E || p == 0x85 || p == 0x2028 || p == 0x2029
  }

  function LineLength(s: string): (n: nat)
    ensures n <= |s|
    ensures forall i :: 0 <= i < n ==> !IsLineBreak(s[i])
    ensures n < |s| ==> IsLineBreak(s[n])
  {
    if s == "" || IsLineBreak(s[0]) then 0 else 1 + LineLength(s[1..])
  }

  /** The lines of a text; a break at the very end starts no further line. */
  function SplitLines(s: string): seq<string>
    decreases |s|
  {
    if s == "" then []
    else
      var n := LineLength(s);
      if n == |s| then [s]
      else
        var width := if "\r\n" <= s[n..] then 2 else 1;
        [s[..n]] + SplitLines(s[n + width..])
  }

  function JoinLines(lines: seq<string>): string
    decreases |lines|
  {
    if lines == [] then "" else if |lines| == 1 then lines[0] else lines[0] + "\n" + JoinLines(lines[1..])
  }

  // ----- Parsing -----

  function RoleOf(c: char): Option<Role> {
    if c == '>' || c == '\U{276F}' then Some(User) else if c == '\U{25CF}' then Some(Assistant) else None
  }

  /** A marker opens a message; an indented '>' does not. */
  predicate IsMarkerLine(line: string) {
    var t := Trim(line);
    t != "" && RoleOf(t[0]).Some? && !(t[0] == '>' && |line| > |t|)
  }

  function Chunk(s: string): seq<string> {
    if Strip(s) == "" then [] else [Strip(s)]
  }

  /** The message collected so far, if it has any text. */
  function Flush(role: Option<Role>, buf: seq<string>): seq<Message> {
    if role.None? || buf == [] || Strip(JoinLines(buf)) == "" then []
    else [Message(role.value, Strip(JoinLines(buf)))]
  }

  function Parse(lines: seq<string>, role: Option<Role>, buf: seq<string>): seq<Message>
    decreases |lines|
  {
    if lines == [] then Flush(role, buf)
    else if IsMarkerLine(lines[0]) then
      var t := Trim(lines[0]);
      Flush(role, buf) + Parse(lines[1..], RoleOf(t[0]), Chunk(t[1..]))
    else Parse(lines[1..], role, if role.Some? then buf + Chunk(lines[0]) else buf)
  }

  function ParseTranscript(text: string): seq<Message> {
    Parse(SplitLines(text), None, [])
  }

  lemma ParseMarkerLine(lines: seq<string>, i: nat, role: Option<Role>, buf: seq<string>)
    requires i < |lines| && IsMarkerLine(lines[i])
    ensures var t := Trim(lines[i]);
      Parse(lines[i..], role, buf) == Flush(role, buf) + Parse(lines[i + 1..], RoleOf(t[0]), Chunk(t[1..]))
  {
    hide Flush, Chunk;
    assert lines[i..][1..] == lines[i + 1..];
  }

  lemma ParseOtherLine(lines: seq<string>, i: nat, role: Option<Role>, buf: seq<string>)
    requires i < |lines| && !IsMarkerLine(lines[i])
    ensures Parse(lines[i..], role, buf)
         == Parse(lines[i + 1..], role, if role.Some? then buf + Chunk(lines[i]) else buf)
  {
    hide Flush, Chunk;
    assert lines[i..][1..] == lines[i + 1..];
  }

  method ParseSymbolTranscript(text: string) returns (messages: seq<Message>)
    ensures messages == ParseTranscript(text)
  {
    messages := [];
    var role: Option<Role> := None;
    var buf: seq<string> := [];
    var lines := SplitLines(text);
    assert lines[0..] == lines;
    for i := 0 to |lines|
      invariant ParseTranscript(text) == messages + Parse(lines[i..], role, buf)
    {
      var line := lines[i];
      var stripped := Trim(line);
      assert IsMarkerLine(line) ==> stripped != [];
      hide *;
      if IsMarkerLine(line) {
        ParseMarkerLine(lines, i, role, buf);
        messages := messages + Flush(role, buf);
        role := RoleOf(stripped[0]);
        buf := Chunk(stripped[1..]);
        continue;
      }
      ParseOtherLine(lines, i, role, buf);
      if role.Some? {
        buf := buf + Chunk(line);
      }
    }
    messages := messages + Flush(role, buf);
  }

  // ----- Printing -----

  /** A message as it is to be printed: its marker, what separates that from the
      first line, and the lines. */
  datatype Script = Script(marker: char, gap: string, lines: seq<string>)

  /** Trimmed, not blank, and one line. */
  predicate IsPlainLine(s: string) {
    s != "" && Strip(s) == s && Trim(s) == s && forall i :: 0 <= i < |s| ==> !IsLineBreak(s[i])
  }

  predicate StartsWithMarker(s: string) {
    s != "" && RoleOf(s[0]).Some?
  }

  predicate IsGap(s: string) {
    forall i :: 0 <= i < |s| ==> IsSpace(s[i]) && !IsLineBreak(s[i])
  }

  predicate IsPrintable(m: Script) {
    RoleOf(m.marker).Some? && IsGap(m.gap) && m.lines != [] && forall i :: 0 <= i < |m.lines| ==> IsPlainLine(m.lines[i])
  }

  function RoleIn(m: Script): Role
    requires RoleOf(m.marker).Some?
  {
    RoleOf(m.marker).value
  }

  /** Marker and first line, then the other lines. */
  function PrintedLines(m: Script): seq<string>
    requires m.lines != []
  {
    [[m.marker] + m.gap + m.lines[0]] + m.lines[1..]
  }

  ghost predicate ArePrintable(ms: seq<Script>) {
    forall i :: 0 <= i < |ms| ==> IsPrintable(ms[i])
  }

  function PrintedAll(ms: seq<Script>): seq<string>
    requires ArePrintable(ms)
    decreases |ms|
  {
    if ms == [] then [] else
    assert IsPrintable(ms[0]);
    PrintedLines(ms[0]) + PrintedAll(ms[1..])
  }

  function Print(ms: seq<Script>): string
    requires ArePrintable(ms)
  {
    JoinLines(PrintedAll(ms))
  }

  function TextsOf(ms: seq<Script>): seq<Message>
    requires ArePrintable(ms)
    decreases |ms|
  {
    if ms == [] then [] else
    assert IsPrintable(ms[0]);
    [Message(RoleIn(ms[0]), JoinLines(ms[0].lines))] + TextsOf(ms[1..])
  }

  /** No line but the first of a message starts with a marker. */
  ghost predicate ContinuesPlainly(m: Script) {
    forall i :: 1 <= i < |m.lines| ==> !StartsWithMarker(m.lines[i])
  }

  // ----- Splitting what was joined -----

  predicate IsOneLine(s: string) {
    s != "" && forall i :: 0 <= i < |s| ==> !IsLineBreak(s[i])
  }

  lemma {:induction false} LineLengthStops(s: string, t: string)
    requires forall i :: 0 <= i < |s| ==> !IsLineBreak(s[i])
    requires t == "" || IsLineBreak(t[0])
    ensures LineLength(s + t) == |s|
    decreases |s|
  {
    if s == "" {
      assert s + t == t;
    } else {
      assert (s + t)[1..] == s[1..] + t;
      LineLengthStops(s[1..], t);
    }
  }

  lemma SplitFirst(line: string, rest: string)
    requires IsOneLine(line)
    ensures SplitLines(line + "\n" + rest) == [line] + SplitLines(rest)
  {
    var text, n := line + "\n" + rest, |line|;
    assert text == line + ("\n" + rest);
    LineLengthStops(line, "\n" + rest);
    assert text[n..] == "\n" + rest && text[n + 1..] == rest && text[..n] == line;
    assert !("\r\n" <= text[n..]) by { assert text[n] == '\n'; }
    hide LineLength;
  }

  lemma SplitOne(line: string)
    requires IsOneLine(line)
    ensures SplitLines(line) == [line]
  {
    LineLengthStops(line, "");
    assert line + "" == line;
  }

  lemma {:induction false} SplitJoined(lines: seq<string>)
    requires forall i :: 0 <= i < |lines| ==> IsOneLine(lines[i])
    ensures SplitLines(JoinLines(lines)) == lines
    decreases |lines|
  {
    if lines == [] {
      assert SplitLines("") == [];
    } else if |lines| == 1 {
      SplitOne(lines[0]);
      hide SplitLines, IsOneLine;
    } else {
      SplitJoined(lines[1..]);
      SplitFirst(lines[0], JoinLines(lines[1..]));
      hide SplitLines, IsOneLine;
    }
  }

  // ----- What the parser makes of printed messages -----

  lemma StripTight(s: string)
    requires s != "" && !IsSpace(s[0]) && !IsSpace(s[|s| - 1])
    ensures Strip(s) == s
  {
  }

  lemma PlainEnds(s: string)
    requires IsPlainLine(s)
    ensures !IsSpace(s[0]) && !IsSpace(s[|s| - 1])
    ensures IsOneLine(s)
  {
  }

  lemma {:induction false} JoinedIsTight(lines: seq<string>)
    requires lines != [] && forall i :: 0 <= i < |lines| ==> IsPlainLine(lines[i])
    ensures var s := JoinLines(lines); s != "" && lines[0] != "" && s[0] == lines[0][0] && !IsSpace(s[|s| - 1])
    decreases |lines|
  {
    assert IsPlainLine(lines[0]);
    PlainEnds(lines[0]);
    hide IsPlainLine, IsSpace;
    if |lines| > 1 {
      JoinedIsTight(lines[1..]);
    }
  }

  lemma FlushPrinted(m: Script)
    requires IsPrintable(m)
    ensures Flush(RoleOf(m.marker), m.lines) == [Message(RoleIn(m), JoinLines(m.lines))]
  {
    JoinedIsTight(m.lines);
    assert IsPlainLine(m.lines[0]);
    PlainEnds(m.lines[0]);
    hide IsPlainLine, JoinLines;
    StripTight(JoinLines(m.lines));
    hide Strip, IsSpace;
  }

  lemma {:induction false} GapIsTrimmed(gap: string, s: string)
    requires IsGap(gap)
    ensures Trim(gap + s) == Trim(s)
    decreases |gap|
  {
    if gap == "" {
      assert gap + s == s;
    } else {
      assert (gap + s)[1..] == gap[1..] + s;
      GapIsTrimmed(gap[1..], s);
    }
  }

  lemma FirstLineOpens(m: Script)
    requires IsPrintable(m)
    ensures var line := [m.marker] + m.gap + m.lines[0];
      IsMarkerLine(line) && IsOneLine(line) && Trim(line) == line
      && line[0] == m.marker && Chunk(line[1..]) == [m.lines[0]]
  {
    var line := [m.marker] + m.gap + m.lines[0];
    assert IsPlainLine(m.lines[0]);
    assert line[1..] == m.gap + m.lines[0];
    GapIsTrimmed(m.gap, m.lines[0]);
  }

  lemma PlainLineIsKept(s: string)
    requires IsPlainLine(s)
    ensures Chunk(s) == [s]
    ensures IsMarkerLine(s) <==> StartsWithMarker(s)
  {
  }

  lemma {:induction false} ContinuationsAreCollected(m: Script, k: nat, rest: seq<string>)
    requires IsPrintable(m) && ContinuesPlainly(m) && 1 <= k <= |m.lines|
    ensures Parse(m.lines[k..] + rest, RoleOf(m.marker), m.lines[..k]) == Parse(rest, RoleOf(m.marker), m.lines)
    decreases |m.lines| - k
  {
    hide Parse, Chunk, IsMarkerLine, RoleOf, IsPlainLine, IsGap;
    if k == |m.lines| {
      assert m.lines[k..] + rest == rest && m.lines[..k] == m.lines;
    } else {
      var all := m.lines[k..] + rest;
      assert all[0..] == all && all[1..] == m.lines[k + 1..] + rest;
      PlainLineIsKept(m.lines[k]);
      ParseOtherLine(all, 0, RoleOf(m.marker), m.lines[..k]);
      assert m.lines[..k] + [m.lines[k]] == m.lines[..k + 1];
      ContinuationsAreCollected(m, k + 1, rest);
      hide *;
    }
  }

  lemma PrintedMessageIsCollected(m: Script, rest: seq<string>, role: Option<Role>, buf: seq<string>)
    requires IsPrintable(m) && ContinuesPlainly(m)
    ensures Parse(PrintedLines(m) + rest, role, buf) == Flush(role, buf) + Parse(rest, RoleOf(m.marker), m.lines)
  {
    FirstLineOpens(m);
    var all := PrintedLines(m) + rest;
    assert all[0..] == all && all[1..] == m.lines[1..] + rest;
    ParseMarkerLine(all, 0, role, buf);
    assert m.lines[..1] == [m.lines[0]];
    ContinuationsAreCollected(m, 1, rest);
    hide Parse, Flush, IsMarkerLine, Chunk, RoleOf, IsPlainLine, IsOneLine;
  }

  ghost predicate AllContinuePlainly(ms: seq<Script>) {
    forall i :: 0 <= i < |ms| ==> ContinuesPlainly(ms[i])
  }

  lemma {:induction false} PrintedIsParsed(ms: seq<Script>, role: Option<Role>, buf: seq<string>)
    requires ArePrintable(ms) && AllContinuePlainly(ms)
    ensures Parse(PrintedAll(ms), role, buf) == Flush(role, buf) + TextsOf(ms)
    decreases |ms|
  {
    hide IsPrintable, ContinuesPlainly;
    if ms != [] {
      PrintedMessageIsCollected(ms[0], PrintedAll(ms[1..]), role, buf);
      FlushPrinted(ms[0]);
      PrintedIsParsed(ms[1..], RoleOf(ms[0].marker), ms[0].lines);
      hide Parse, Flush;
    }
  }

  lemma {:induction false} PrintedLinesAreLines(ms: seq<Script>)
    requires ArePrintable(ms)
    ensures forall i :: 0 <= i < |PrintedAll(ms)| ==> IsOneLine(PrintedAll(ms)[i])
    decreases |ms|
  {
    if ms != [] {
      var m := ms[0];
      assert IsPrintable(m);
      FirstLineOpens(m);
      forall i | 0 <= i < |m.lines| ensures IsOneLine(m.lines[i]) {
        assert IsPlainLine(m.lines[i]);
        PlainEnds(m.lines[i]);
      }
      hide IsPlainLine, IsOneLine, IsPrintable, IsMarkerLine, Chunk, RoleOf;
      PrintedLinesAreLines(ms[1..]);
    }
  }

  lemma {:induction false} PrintedTextIsParsed(ms: seq<Script>)
    requires ArePrintable(ms)
    ensures ParseTranscript(Print(ms)) == Parse(PrintedAll(ms), None, [])
  {
    PrintedLinesAreLines(ms);
    SplitJoined(PrintedAll(ms));
  }

  // ----- What a continuation with a marker loses -----

  /** Characters in lines, a line counting one more. */
  function Size(lines: seq<string>): nat
    decreases |lines|
  {
    if lines == [] then 0 else |lines[0]| + 1 + Size(lines[1..])
  }

  function Weight(ms: seq<Message>): nat
    decreases |ms|
  {
    if ms == [] then 0 else |ms[0].text| + 1 + Weight(ms[1..])
  }

  function ScriptSize(ms: seq<Script>): nat
    decreases |ms|
  {
    if ms == [] then 0 else Size(ms[0].lines) + ScriptSize(ms[1..])
  }

  /** What a line can add to the text of a message. */
  function ChunkOf(line: string): seq<string> {
    if IsMarkerLine(line) then Chunk(Trim(line)[1..]) else Chunk(line)
  }

  function Yield(lines: seq<string>): nat
    decreases |lines|
  {
    if lines == [] then 0 else Size(ChunkOf(lines[0])) + Yield(lines[1..])
  }

  lemma {:induction false} SizeConcat(a: seq<string>, b: seq<string>)
    ensures Size(a + b) == Size(a) + Size(b)
    decreases |a|
  {
    if a == [] {
      assert a + b == b;
    } else {
      assert (a + b)[1..] == a[1..] + b;
      SizeConcat(a[1..], b);
    }
  }

  lemma {:induction false} WeightConcat(a: seq<Message>, b: seq<Message>)
    ensures Weight(a + b) == Weight(a) + Weight(b)
    decreases |a|
  {
    if a == [] {
      assert a + b == b;
    } else {
      assert (a + b)[1..] == a[1..] + b;
      WeightConcat(a[1..], b);
    }
  }

  lemma {:induction false} YieldConcat(a: seq<string>, b: seq<string>)
    ensures Yield(a + b) == Yield(a) + Yield(b)
    decreases |a|
  {
    hide ChunkOf, Size;
    if a == [] {
      assert a + b == b;
    } else {
      assert (a + b)[1..] == a[1..] + b;
      YieldConcat(a[1..], b);
    }
  }

  lemma {:induction false} JoinedSize(lines: seq<string>)
    requires lines != []
    ensures |JoinLines(lines)| + 1 == Size(lines)
    decreases |lines|
  {
    if |lines| > 1 {
      JoinedSize(lines[1..]);
    }
  }

  lemma StripShortens(s: string)
    ensures |Strip(s)| <= |s|
  {
  }

  lemma FlushWeighs(role: Option<Role>, buf: seq<string>)
    ensures Weight(Flush(role, buf)) <= Size(buf)
  {
    if buf != [] {
      JoinedSize(buf);
      StripShortens(JoinLines(buf));
      hide Strip, JoinLines, Size;
    }
  }

  /** Parsed messages hold no more text than the lines can add. */
  lemma {:induction false} ParsedWeighsAtMost(lines: seq<string>, role: Option<Role>, buf: seq<string>)
    ensures Weight(Parse(lines, role, buf)) <= Size(buf) + Yield(lines)
    decreases |lines|
  {
    FlushWeighs(role, buf);
    if lines != [] {
      assert lines[0..] == lines;
      if IsMarkerLine(lines[0]) {
        var t := Trim(lines[0]);
        ParseMarkerLine(lines, 0, role, buf);
        ParsedWeighsAtMost(lines[1..], RoleOf(t[0]), Chunk(t[1..]));
        WeightConcat(Flush(role, buf), Parse(lines[1..], RoleOf(t[0]), Chunk(t[1..])));
        hide Parse, Flush, IsMarkerLine, Chunk, RoleOf, Size, Weight;
      } else {
        ParseOtherLine(lines, 0, role, buf);
        SizeConcat(buf, Chunk(lines[0]));
        ParsedWeighsAtMost(lines[1..], role, if role.Some? then buf + Chunk(lines[0]) else buf);
        hide Parse, Flush, IsMarkerLine, Chunk, RoleOf, Size, Weight;
      }
    }
  }

  lemma SizeOfOne(s: string)
    ensures Size([s]) == |s| + 1
  {
    assert [s][1..] == [];
  }

  lemma PlainLineYields(s: string)
    requires IsPlainLine(s)
    ensures Size(ChunkOf(s)) <= |s| + 1
    ensures StartsWithMarker(s) ==> Size(ChunkOf(s)) < |s| + 1
  {
    PlainLineIsKept(s);
    SizeOfOne(s);
    if StartsWithMarker(s) {
      assert Trim(s) == s;
      StripShortens(s[1..]);
      SizeOfOne(Strip(s[1..]));
    }
    hide Size, IsMarkerLine;
  }

  lemma {:induction false} ContinuationsYield(lines: seq<string>)
    requires forall i :: 0 <= i < |lines| ==> IsPlainLine(lines[i])
    ensures Yield(lines) <= Size(lines)
    ensures (exists i :: 0 <= i < |lines| && StartsWithMarker(lines[i])) ==> Yield(lines) < Size(lines)
    decreases |lines|
  {
    hide IsPlainLine, ChunkOf, StartsWithMarker;
    if lines != [] {
      PlainLineYields(lines[0]);
      ContinuationsYield(lines[1..]);
      if i :| 0 <= i < |lines| && StartsWithMarker(lines[i]) {
        if i > 0 {
          assert lines[1..][i - 1] == lines[i];
        }
      }
    }
  }

  lemma PrintedMessageYields(m: Script)
    requires IsPrintable(m)
    ensures Yield(PrintedLines(m)) <= Size(m.lines)
    ensures !ContinuesPlainly(m) ==> Yield(PrintedLines(m)) < Size(m.lines)
  {
    FirstLineOpens(m);
    SizeOfOne(m.lines[0]);
    var line := [m.marker] + m.gap + m.lines[0];
    assert Size(ChunkOf(line)) == |m.lines[0]| + 1;
    assert PrintedLines(m)[1..] == m.lines[1..];
    ContinuationsYield(m.lines[1..]);
    hide IsPlainLine, IsMarkerLine, StartsWithMarker, Chunk, ChunkOf, RoleOf;
    if !ContinuesPlainly(m) {
      var i :| 1 <= i < |m.lines| && StartsWithMarker(m.lines[i]);
      assert m.lines[1..][i - 1] == m.lines[i];
    }
  }

  lemma {:induction false} PrintedYields(ms: seq<Script>)
    requires ArePrintable(ms)
    ensures Yield(PrintedAll(ms)) <= ScriptSize(ms)
    ensures !AllContinuePlainly(ms) ==> Yield(PrintedAll(ms)) < ScriptSize(ms)
    decreases |ms|
  {
    if ms != [] {
      hide ContinuesPlainly, Yield, Size, PrintedLines;
      assert IsPrintable(ms[0]);
      PrintedMessageYields(ms[0]);
      YieldConcat(PrintedLines(ms[0]), PrintedAll(ms[1..]));
      PrintedYields(ms[1..]);
    }
  }

  lemma {:induction false} TextsWeigh(ms: seq<Script>)
    requires ArePrintable(ms)
    ensures Weight(TextsOf(ms)) == ScriptSize(ms)
    decreases |ms|
  {
    if ms != [] {
      assert IsPrintable(ms[0]);
      JoinedSize(ms[0].lines);
      TextsWeigh(ms[1..]);
      assert TextsOf(ms)[1..] == TextsOf(ms[1..]);
    }
  }

  /** Printed messages are read back exactly when no line but the first of a
      message starts with a marker. */
  lemma ReadBackIff(ms: seq<Script>)
    requires ArePrintable(ms)
    ensures ParseTranscript(Print(ms)) == TextsOf(ms) <==> AllContinuePlainly(ms)
  {
    assert Flush(None, []) == [] && Size([]) == 0;
    PrintedTextIsParsed(ms);
    if AllContinuePlainly(ms) {
      PrintedIsParsed(ms, None, []);
    } else {
      ParsedWeighsAtMost(PrintedAll(ms), None, []);
      PrintedYields(ms);
      TextsWeigh(ms);
    }
    hide *;
  }

  /** For instance a message whose second line quotes something. */
  lemma QuoteIsMisread()
    ensures var ms := [Script('>', " ", ["a", ">b"])];
      ArePrintable(ms) && ParseTranscript(Print(ms)) != TextsOf(ms)
  {
    var m := Script('>', " ", ["a", ">b"]);
    assert IsPlainLine("a") && IsPlainLine(">b") by { ShortLinesArePlain(); }
    hide IsPlainLine;
    assert IsPrintable(m);
    assert StartsWithMarker(m.lines[1]);
    assert !ContinuesPlainly(m) && !ContinuesPlainly([m][0]);
    ReadBackIff([m]);
    hide IsPrintable, ContinuesPlainly, ParseTranscript, Print, TextsOf;
  }

  lemma ShortLinesArePlain()
    ensures IsPlainLine("a") && IsPlainLine(">b")
  {
    StripTight("a");
    StripTight(">b");
  }
}
