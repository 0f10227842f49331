/** A transcript in plain terms: its lines, which of them open a message, and what
    each message says. */
module TranscriptSections {
  import opened TextSpace
  import opened SymbolTranscript
  import opened SeqOfSeqs
  import opened Options

  // ----- Lines -----

  const LINE_ENDS := {
    '\n', '\r', '\U{0B}', '\U{0C}', '\U{1C}', '\U{1D}', '\U{1E}', '\U{85}', '\U{2028}', '\U{2029}'
  }

  lemma LineBreakIff(c: char)
    ensures IsLineBreak(c) <==> c in LINE_ENDS
  {
    var p := c as int;
  }

  /** What ends a line: one of these characters, or carriage return and line feed
      together. */
  predicate IsEnd(e: string) {
    e == "\r\n" || (|e| == 1 && e[0] in LINE_ENDS)
  }

  function Woven(lines: seq<string>, ends: seq<string>): string
    requires |lines| == |ends|
    decreases |lines|
  {
    if lines == [] then "" else lines[0] + ends[0] + Woven(lines[1..], ends[1..])
  }

  /** The text is the lines with their ends; only the last line may have none, if it is
      not empty; and no carriage return is parted from its line feed. */
  ghost predicate AreLinesOf(text: string, lines: seq<string>, ends: seq<string>) {
    && |lines| == |ends| && text == Woven(lines, ends)
    && (forall i :: 0 <= i < |lines| ==> HasNoEnd(lines[i]))
    && (forall i :: 0 <= i < |ends| ==> IsEnd(ends[i]) || (i == |ends| - 1 && ends[i] == "" && lines[i] != ""))
    && (forall i :: 0 <= i < |ends| - 1 && ends[i] == "\r" ==> !StartsWithFeed(lines[i + 1] + ends[i + 1]))
  }

  predicate HasNoEnd(line: string) {
    forall i :: 0 <= i < |line| ==> line[i] !in LINE_ENDS
  }

  predicate StartsWithFeed(s: string) {
    s != "" && s[0] == '\n'
  }

  lemma LineHasNoEnd(s: string)
    ensures HasNoEnd(s[..LineLength(s)])
    ensures LineLength(s) < |s| ==> s[LineLength(s)] in LINE_ENDS
  {
    var n := LineLength(s);
    hide LINE_ENDS;
    forall i | 0 <= i < n ensures s[i] !in LINE_ENDS {
      LineBreakIff(s[i]);
    }
    if n < |s| {
      LineBreakIff(s[n]);
    }
  }

  lemma {:induction false} LinesAre(text: string) returns (ends: seq<string>)
    ensures AreLinesOf(text, SplitLines(text), ends)
    decreases |text|
  {
    hide LineLength, IsLineBreak, AreLinesOf;
    if text == "" {
      ends := [];
      NoLines();
      return;
    }
    var n := LineLength(text);
    LineHasNoEnd(text);
    if n == |text| {
      ends := [""];
      LastLine(text);
    } else {
      var width := if "\r\n" <= text[n..] then 2 else 1;
      var later := LinesAre(text[n + width..]);
      ends := [text[n..n + width]] + later;
      OneLineMore(text, n, width, SplitLines(text[n + width..]), later);
    }
  }

  lemma NoLines()
    ensures AreLinesOf("", [], [])
  {
  }

  lemma LastLine(text: string)
    requires text != "" && HasNoEnd(text)
    ensures AreLinesOf(text, [text], [""]) && text[..|text|] == text
  {
    hide LINE_ENDS;
    assert Woven([text], [""]) == text + "" + Woven([text][1..], [""][1..]);
    assert [text][1..] == [] && [""][1..] == [];
  }

  lemma OneLineMore(text: string, n: nat, width: nat, lines: seq<string>, later: seq<string>)
    requires n < |text| && width == (if "\r\n" <= text[n..] then 2 else 1)
    requires HasNoEnd(text[..n]) && text[n] in LINE_ENDS
    requires AreLinesOf(text[n + width..], lines, later)
    ensures AreLinesOf(text, [text[..n]] + lines, [text[n..n + width]] + later)
  {
    var all, ends := [text[..n]] + lines, [text[n..n + width]] + later;
    assert all[1..] == lines && ends[1..] == later;
    WovenInThree(text, n, width);
    EndIs(text, n, width);
    hide LINE_ENDS;
    assert Woven(all, ends) == text[..n] + text[n..n + width] + Woven(lines, later);
    if later != [] && ends[0] == "\r" {
      FrontOfWoven(lines, later);
    }
    forall i | 0 <= i < |ends| - 1 && ends[i] == "\r" ensures !StartsWithFeed(all[i + 1] + ends[i + 1]) {
      if i > 0 {
        assert ends[i] == later[i - 1];
      }
    }
  }

  lemma WovenInThree(text: string, n: nat, width: nat)
    requires n + width <= |text|
    ensures text == text[..n] + text[n..n + width] + text[n + width..]
  {
  }

  lemma EndIs(text: string, n: nat, width: nat)
    requires n < |text| && width == (if "\r\n" <= text[n..] then 2 else 1) && text[n] in LINE_ENDS
    ensures IsEnd(text[n..n + width])
    ensures text[n..n + width] == "\r" ==> !StartsWithFeed(text[n + width..])
  {
    var e := text[n..n + width];
    if n + 1 < |text| && text[n] == '\r' && text[n + 1] == '\n' {
      assert text[n..][..2] == "\r\n";
    }
    if width == 2 {
      assert e == text[n..][..2];
    } else {
      assert |e| == 1 && e[0] == text[n];
    }
  }

  lemma FrontOfWoven(lines: seq<string>, ends: seq<string>)
    requires |lines| == |ends| && lines != []
    ensures StartsWithFeed(lines[0] + ends[0]) ==> StartsWithFeed(Woven(lines, ends))
  {
  }

  // ----- Markers -----

  /** '>' and '\u276F' speak for the user, '\u25CF' for the assistant. */
  predicate IsMark(c: char, role: Role) {
    match role
    case User => c == '>' || c == '\U{276F}'
    case Assistant => c == '\U{25CF}'
  }

  /** The line's first character that is no white space is a marker, and a '>' is the
      very first. */
  predicate OpensAt(line: string, k: int, role: Role) {
    && 0 <= k < |line| && (forall i :: 0 <= i < k ==> IsSpace(line[i])) && !IsSpace(line[k])
    && IsMark(line[k], role) && (line[k] == '>' ==> k == 0)
  }

  lemma MarksAreNoSpace(c: char, role: Role)
    ensures IsMark(c, role) <==> RoleOf(c) == Some(role)
    ensures IsMark(c, role) ==> !IsSpace(c)
  {
  }

  lemma OpensIff(line: string, k: int, role: Role)
    ensures OpensAt(line, k, role)
      <==> IsMarkerLine(line) && k == |line| - |Trim(line)| && RoleOf(Trim(line)[0]) == Some(role)
  {
    TrimIsRest(line);
    hide Trim, IsSpace, RoleOf, IsMark;
    var n := |line| - |Trim(line)|;
    if Trim(line) != "" {
      MarksAreNoSpace(Trim(line)[0], role);
      assert Trim(line)[0] == line[n];
    }
  }

  // ----- Messages -----

  /** The lines from `i` to before `j` that hold any text, without the blanks at their ends. */
  function Pieces(lines: seq<string>, i: nat, j: nat): seq<string>
    requires i <= j <= |lines|
    decreases j - i
  {
    if i == j then []
    else (if Strip(lines[i]) == "" then [] else [Strip(lines[i])]) + Pieces(lines, i + 1, j)
  }

  /** What the message says that the line `i` opens: the rest of that line behind the
      marker, and the lines up to the next that opens one, without blanks and blank
      lines; no message if nothing is left. */
  function Section(lines: seq<string>, i: nat, j: nat): seq<Message>
    requires i < j <= |lines| && IsMarkerLine(lines[i])
  {
    var t := Trim(lines[i]);
    var said := (if Strip(t[1..]) == "" then [] else [Strip(t[1..])]) + Pieces(lines, i + 1, j);
    if said == [] || Strip(JoinLines(said)) == "" then []
    else [Message(RoleOf(t[0]).value, Strip(JoinLines(said)))]
  }

  /** The lines from the `k`-th on that open a message, in order, and one past the end. */
  ghost predicate AreOpenings(lines: seq<string>, k: nat, at: seq<nat>) {
    && at != [] && at[|at| - 1] == |lines|
    && (forall i, j :: 0 <= i < j < |at| ==> at[i] < at[j])
    && (forall i: nat :: k <= i < |lines| ==> (i in at <==> IsMarkerLine(lines[i])))
    && (forall i :: i in at ==> k <= i)
  }

  ghost predicate AreSections(lines: seq<string>, at: seq<nat>, parts: seq<seq<Message>>) {
    && |at| == |parts| + 1
    && forall i :: 0 <= i < |parts| ==> IsSection(lines, at[i], at[i + 1], parts[i])
  }

  predicate IsSection(lines: seq<string>, i: nat, j: nat, part: seq<Message>) {
    i < j <= |lines| && IsMarkerLine(lines[i]) && part == Section(lines, i, j)
  }

  /** What has been collected goes on up to the next opening. */
  lemma {:induction false} ParseFrom(lines: seq<string>, k: nat, role: Option<Role>, buf: seq<string>)
      returns (at: seq<nat>, parts: seq<seq<Message>>)
    requires k <= |lines|
    ensures AreOpenings(lines, k, at) && AreSections(lines, at, parts) && at != [] && k <= at[0] <= |lines|
    ensures Parse(lines[k..], role, buf)
         == Flush(role, if role.Some? then buf + Pieces(lines, k, at[0]) else buf) + Flatten(parts)
    decreases |lines| - k
  {
    hide Flush, Trim, Strip, IsMarkerLine, AreOpenings, AreSections;
    if k == |lines| {
      at, parts := [k], [];
      NoOpenings(lines);
      assert buf + Pieces(lines, k, k) == buf && Flush(role, buf) + [] == Flush(role, buf);
    } else if IsMarkerLine(lines[k]) {
      var t := Trim(lines[k]);
      MarkerIsThere(lines[k]);
      var at', parts' := ParseFrom(lines, k + 1, RoleOf(t[0]), Chunk(t[1..]));
      ParseMarkerLine(lines, k, role, buf);
      SectionIsFlushed(lines, k, at'[0]);
      at, parts := [k] + at', [Section(lines, k, at'[0])] + parts';
      OpeningsGrow(lines, k, at', parts');
      FlattenFirst(Section(lines, k, at'[0]), parts');
      assert buf + Pieces(lines, k, k) == buf;
    } else {
      at, parts := ParseFrom(lines, k + 1, role, if role.Some? then buf + Chunk(lines[k]) else buf);
      ParseOtherLine(lines, k, role, buf);
      OpeningsStay(lines, k, at);
      assert Pieces(lines, k, at[0]) == Chunk(lines[k]) + Pieces(lines, k + 1, at[0]);
      assert (buf + Chunk(lines[k])) + Pieces(lines, k + 1, at[0]) == buf + (Chunk(lines[k]) + Pieces(lines, k + 1, at[0]));
    }
  }

  lemma MarkerIsThere(line: string)
    requires IsMarkerLine(line)
    ensures Trim(line) != "" && RoleOf(Trim(line)[0]).Some?
  {
    hide Trim, RoleOf;
  }

  lemma NoOpenings(lines: seq<string>)
    ensures AreOpenings(lines, |lines|, [|lines|]) && AreSections(lines, [|lines|], [])
  {
    hide IsMarkerLine;
  }

  lemma SectionIsFlushed(lines: seq<string>, k: nat, j: nat)
    requires k < j <= |lines| && IsMarkerLine(lines[k])
    ensures var t := Trim(lines[k]);
      Section(lines, k, j) == Flush(RoleOf(t[0]), Chunk(t[1..]) + Pieces(lines, k + 1, j))
  {
    hide Trim, Strip;
  }

  lemma OpeningsGrow(lines: seq<string>, k: nat, at: seq<nat>, parts: seq<seq<Message>>)
    requires k < |lines| && IsMarkerLine(lines[k])
    requires AreOpenings(lines, k + 1, at) && AreSections(lines, at, parts) && at != [] && k < at[0] <= |lines|
    ensures AreOpenings(lines, k, [k] + at) && AreSections(lines, [k] + at, [Section(lines, k, at[0])] + parts)
  {
    hide *;
    OneOpeningMore(lines, k, at);
    OneSectionMore(lines, k, at, parts);
  }

  lemma OneOpeningMore(lines: seq<string>, k: nat, at: seq<nat>)
    requires k < |lines| && IsMarkerLine(lines[k]) && AreOpenings(lines, k + 1, at)
    ensures AreOpenings(lines, k, [k] + at)
  {
    hide IsMarkerLine;
    var more := [k] + at;
    forall i: nat ensures i in more <==> i == k || i in at {
    }
    forall i, j | 0 <= i < j < |more| ensures more[i] < more[j] {
      if i == 0 {
        assert at[j - 1] in at;
      }
    }
  }

  lemma OneSectionMore(lines: seq<string>, k: nat, at: seq<nat>, parts: seq<seq<Message>>)
    requires k < |lines| && IsMarkerLine(lines[k])
    requires AreSections(lines, at, parts) && at != [] && k < at[0] <= |lines|
    ensures AreSections(lines, [k] + at, [Section(lines, k, at[0])] + parts)
  {
    hide IsMarkerLine, Section;
    var more, all := [k] + at, [Section(lines, k, at[0])] + parts;
    forall i | 0 <= i < |all| ensures IsSection(lines, more[i], more[i + 1], all[i]) {
      assert more[i + 1] == at[i];
      if i > 0 {
        assert more[i] == at[i - 1] && all[i] == parts[i - 1];
      }
    }
  }

  lemma OpeningsStay(lines: seq<string>, k: nat, at: seq<nat>)
    requires k < |lines| && !IsMarkerLine(lines[k]) && AreOpenings(lines, k + 1, at)
    ensures AreOpenings(lines, k, at)
  {
    hide IsMarkerLine;
  }

  /** Any text whatever is parsed so: by its lines, one message for each that opens one,
      with what is said from there to the next, if anything is; and nothing else. */
  lemma TranscriptIsItsSections(text: string) returns (at: seq<nat>, parts: seq<seq<Message>>)
    ensures AreOpenings(SplitLines(text), 0, at) && AreSections(SplitLines(text), at, parts)
    ensures ParseTranscript(text) == Flatten(parts)
  {
    hide SplitLines, Parse, AreOpenings, AreSections, Pieces;
    var lines := SplitLines(text);
    at, parts := ParseFrom(lines, 0, None, []);
    assert lines[0..] == lines && Flush(None, []) + Flatten(parts) == Flatten(parts);
  }
}
