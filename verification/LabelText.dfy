/** A label's text against its lines and words: what is between newlines, and what is
    between white space. */
module LabelText {
  import opened TextSpace
  import opened LabelWrap
  import opened WordWrap
  import opened SeqOfSeqs

  /** The lines with a newline between each and the next. */
  function Rejoined(lines: seq<string>): string
    decreases |lines|
  {
    if lines == [] then "" else if |lines| == 1 then lines[0] else lines[0] + ['\n'] + Rejoined(lines[1..])
  }

  predicate HasNoNewline(s: string) {
    forall i :: 0 <= i < |s| ==> s[i] != '\n'
  }

  /** The raw lines are the text, cut at its newlines and nowhere else. */
  lemma {:induction false} RawLinesRejoin(text: string)
    ensures Rejoined(RawLines(text)) == text
    ensures forall i :: 0 <= i < |RawLines(text)| ==> HasNoNewline(RawLines(text)[i])
    decreases |text|
  {
    hide Rejoined, HasNoNewline;
    if text == "" {
      NoRawLines();
    } else {
      var rest := RawLines(text[1..]);
      RawLinesRejoin(text[1..]);
      assert text == [text[0]] + text[1..];
      if text[0] == '\n' {
        LineBegins(rest);
      } else {
        FirstGrows(text[0], rest);
      }
    }
  }

  lemma NoRawLines()
    ensures Rejoined([""]) == "" && HasNoNewline("")
  {
  }

  lemma LineBegins(rest: seq<string>)
    requires rest != []
    ensures Rejoined([""] + rest) == ['\n'] + Rejoined(rest) && HasNoNewline("")
  {
    assert ([""] + rest)[1..] == rest && "" + ['\n'] + Rejoined(rest) == ['\n'] + Rejoined(rest);
  }

  lemma FirstGrows(c: char, rest: seq<string>)
    requires rest != []
    ensures Rejoined([[c] + rest[0]] + rest[1..]) == [c] + Rejoined(rest)
    ensures c != '\n' && HasNoNewline(rest[0]) ==> HasNoNewline([c] + rest[0])
  {
    hide Rejoined;
    var more := [[c] + rest[0]] + rest[1..];
    assert more[1..] == rest[1..];
    RejoinedIs(rest);
    RejoinedIs(more);
    if |rest| > 1 {
      assert ([c] + rest[0]) + ['\n'] + Rejoined(rest[1..]) == [c] + (rest[0] + ['\n'] + Rejoined(rest[1..]));
    }
  }

  lemma RejoinedIs(lines: seq<string>)
    requires lines != []
    ensures Rejoined(lines) == if |lines| == 1 then lines[0] else lines[0] + ['\n'] + Rejoined(lines[1..])
  {
  }

  function Spaced(words: seq<string>, gaps: seq<string>): string
    requires |gaps| == |words| + 1
    decreases |words|
  {
    if words == [] then gaps[0] else gaps[0] + words[0] + Spaced(words[1..], gaps[1..])
  }

  /** The line is the words with white space around them: some between any two, perhaps
      none at the ends. */
  ghost predicate AreGaps(line: string, words: seq<string>, gaps: seq<string>) {
    && |gaps| == |words| + 1 && line == Spaced(words, gaps)
    && (forall i :: 0 <= i < |gaps| ==> IsBlank(gaps[i]))
    && (forall i :: 0 < i < |words| ==> gaps[i] != "")
  }

  /** The words of a line are what is left when its white space is taken out, run by run. */
  lemma {:induction false} WordsAre(line: string) returns (gaps: seq<string>)
    ensures AreGaps(line, Words(line), gaps)
    ensures forall i :: 0 <= i < |Words(line)| ==> IsWord(Words(line)[i])
    ensures Words(line) != [] && line != "" && !IsSpace(line[0]) ==> gaps[0] == ""
    ensures line != "" && IsSpace(line[0]) && Words(line) != [] ==> gaps[0] != ""
    decreases |line|
  {
    hide AreGaps, IsSpace;
    var t := Trim(line);
    TrimIsRest(line);
    if t == "" {
      assert line[..|line|] == line;
      gaps := [line];
      NoWords(line);
    } else {
      var n := WordLength(t);
      var later := WordsAre(t[n..]);
      gaps := [line[..|line| - |t|]] + later;
      WordBehind(t, n);
      OneWordMore(line, t, n, Words(t[n..]), later);
    }
  }

  lemma NoWords(line: string)
    requires IsBlank(line)
    ensures AreGaps(line, [], [line])
  {
    hide IsBlank;
  }

  lemma WordBehind(t: string, n: nat)
    requires n <= |t| && (n < |t| ==> IsSpace(t[n]))
    ensures t[n..] != "" ==> IsSpace(t[n..][0])
  {
    hide IsSpace;
  }

  lemma OneWordMore(line: string, t: string, n: nat, words: seq<string>, later: seq<string>)
    requires |t| <= |line| && t == line[|line| - |t|..] && IsBlank(line[..|line| - |t|]) && n <= |t|
    requires AreGaps(t[n..], words, later) && (words != [] ==> later[0] != "")
    ensures AreGaps(line, [t[..n]] + words, [line[..|line| - |t|]] + later)
  {
    hide IsBlank;
    var all, gaps := [t[..n]] + words, [line[..|line| - |t|]] + later;
    assert all[1..] == words && gaps[1..] == later;
    assert line == line[..|line| - |t|] + t[..n] + t[n..];
  }

  /** The wrapped text: for each raw line, one empty string if it has no words, and else
      its words on as few lines as greed gives. */
  lemma {:induction false} WrappedTextIs(raws: seq<string>, width: Width, maxWidth: real) returns (parts: seq<seq<string>>)
    ensures |parts| == |raws| && WrapAll(raws, width, maxWidth) == Flatten(parts)
    ensures forall i :: 0 <= i < |raws| ==> parts[i] == WrapRaw(raws[i], width, maxWidth)
    ensures forall i :: 0 <= i < |raws| && IsBlank(raws[i]) ==> parts[i] == [""]
    decreases |raws|
  {
    hide WrapRaw, IsBlank, Flatten;
    if raws == [] {
      parts := [];
      NothingFlattens();
    } else {
      var n := |raws| - 1;
      var front := WrappedTextIs(raws[..n], width, maxWidth);
      parts := front + [WrapRaw(raws[n], width, maxWidth)];
      FlattenAppend(front, WrapRaw(raws[n], width, maxWidth));
      if IsBlank(raws[n]) {
        BlankWraps(raws[n], width, maxWidth);
      }
    }
  }

  lemma NothingFlattens()
    ensures Flatten<string>([]) == []
  {
  }

  lemma BlankWraps(raw: string, width: Width, maxWidth: real)
    requires IsBlank(raw)
    ensures WrapRaw(raw, width, maxWidth) == [""]
  {
    BlankHasNoWords(raw);
    hide Words, Wrapped;
  }

  lemma BlankHasNoWords(s: string)
    requires IsBlank(s)
    ensures Words(s) == []
  {
    TrimmedAway(s);
  }
}
