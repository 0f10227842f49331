/** Wrapping a label: its lines are wrapped one by one into strings. */
module LabelWrap {
  import opened SeqOfSeqs
  import opened TextSpace
  import opened WordWrap

  /** The text between newlines. */
  function RawLines(text: string): (lines: seq<string>)
    ensures lines != []
  {
    if text == "" then [""]
    else
      var rest := RawLines(text[1..]);
      if text[0] == '\n' then [""] + rest else [[text[0]] + rest[0]] + rest[1..]
  }

  predicate IsWord(w: string) {
    w != "" && forall i :: 0 <= i < |w| ==> !IsSpace(w[i])
  }

  function WordLength(s: string): (n: nat)
    ensures n <= |s|
    ensures forall i :: 0 <= i < n ==> !IsSpace(s[i])
    ensures n < |s| ==> IsSpace(s[n])
    ensures s != "" && !IsSpace(s[0]) ==> n > 0
  {
    if s == "" || IsSpace(s[0]) then 0 else 1 + WordLength(s[1..])
  }

  /** The words of a line: the runs without white space. */
  function Words(s: string): (words: seq<Word>)
    ensures forall i :: 0 <= i < |words| ==> IsWord(words[i])
    decreases |s|
  {
    var t := Trim(s);
    if t == "" then []
    else
      var n := WordLength(t);
      [t[..n]] + Words(t[n..])
  }

  function Joined(lines: seq<seq<Word>>): (r: seq<string>)
    ensures |r| == |lines|
    ensures forall i :: 0 <= i < |lines| ==> r[i] == Join(lines[i])
  {
    seq(|lines|, i requires 0 <= i < |lines| => Join(lines[i]))
  }

  function WrapRaw(raw: string, width: Width, maxWidth: real): seq<string> {
    if Words(raw) == [] then [""] else Joined(Wrapped(Words(raw), width, maxWidth))
  }

  function WrapAll(raws: seq<string>, width: Width, maxWidth: real): seq<string>
    decreases |raws|
  {
    if raws == [] then [] else WrapAll(raws[..|raws| - 1], width, maxWidth) + WrapRaw(raws[|raws| - 1], width, maxWidth)
  }

  /** The inner loop: one non-empty line's words. */
  method WrapWords(words: seq<Word>, width: Width, maxWidth: real) returns (lines: seq<string>)
    requires words != []
    ensures lines == Joined(Wrapped(words, width, maxWidth))
  {
    lines := [];
    var current := words[0];
    ghost var done: seq<seq<Word>> := [];
    ghost var line := [words[0]];
    WrapOne(words, width, maxWidth);
    for i := 1 to |words|
      invariant line != [] && current == Join(line)
      invariant Wrapped(words[..i], width, maxWidth) == done + [line]
      invariant lines == Joined(done)
    {
      NextWord(words, i, done, line, width, maxWidth);
      hide Wrapped, Join, Joined;
      var candidate := current + " " + words[i];
      if width(candidate) <= maxWidth {
        line := line + [words[i]];
        current := candidate;
      } else {
        lines := lines + [current];
        done := done + [line];
        line := [words[i]];
        current := words[i];
      }
    }
    assert words[..|words|] == words;
    JoinedAppend(done, line);
    lines := lines + [current];
  }

  lemma WrapOne(words: seq<Word>, width: Width, maxWidth: real)
    requires words != []
    ensures Wrapped(words[..1], width, maxWidth) == [] + [[words[0]]]
    ensures Join([words[0]]) == words[0] && Joined([]) == []
  {
    assert words[..1] == [words[0]];
  }

  lemma NextWord(words: seq<Word>, i: nat, done: seq<seq<Word>>, line: seq<Word>, width: Width, maxWidth: real)
    requires 1 <= i < |words| && line != [] && Wrapped(words[..i], width, maxWidth) == done + [line]
    ensures Wrapped(words[..i + 1], width, maxWidth) ==
      if width(Join(line) + " " + words[i]) <= maxWidth then done + [line + [words[i]]] else (done + [line]) + [[words[i]]]
    ensures Join(line + [words[i]]) == Join(line) + " " + words[i]
    ensures Join([words[i]]) == words[i]
    ensures Joined(done + [line]) == Joined(done) + [Join(line)]
  {
    hide *;
    JoinAppend(line, words[i]);
    JoinOne(words[i]);
    JoinedAppend(done, line);
    assert words[..i + 1][..i] == words[..i];
    WrappedStep(words[..i + 1], width, maxWidth);
    assert (done + [line])[|done| := line + [words[i]]] == done + [line + [words[i]]];
  }

  lemma JoinedAppend(done: seq<seq<Word>>, line: seq<Word>)
    ensures Joined(done + [line]) == Joined(done) + [Join(line)]
  {
  }

  lemma JoinOne(w: Word)
    ensures Join([w]) == w
  {
  }

  method WrapLines(text: string, width: Width, maxWidth: real) returns (lines: seq<string>)
    ensures lines == WrapAll(RawLines(text), width, maxWidth)
  {
    hide Words, RawLines;
    var raws := RawLines(text);
    lines := [];
    for i := 0 to |raws|
      invariant lines == WrapAll(raws[..i], width, maxWidth)
    {
      assert raws[..i + 1][..i] == raws[..i];
      var words := Words(raws[i]);
      if words == [] {
        lines := lines + [""];
        continue;
      }
      var wrapped := WrapWords(words, width, maxWidth);
      lines := lines + wrapped;
    }
    assert raws[..|raws|] == raws;
  }

  // ----- No word is lost -----

  lemma {:induction false} WordAlone(w: string, s: string)
    requires IsWord(w) && (s == "" || IsSpace(s[0]))
    ensures WordLength(w + s) == |w| && Trim(w + s) == w + s
    decreases |w|
  {
    assert (w + s)[0] == w[0];
    if |w| == 1 {
      assert (w + s)[1..] == s;
    } else {
      assert (w + s)[1..] == w[1..] + s;
      WordAlone(w[1..], s);
    }
  }

  lemma {:induction false} WordsAppend(s: string, w: Word)
    requires IsWord(w)
    ensures Words(s + (" " + w)) == Words(s) + [w]
    decreases |s|
  {
    var tail := " " + w;
    if Trim(s) == "" {
      BlankThenWord(s, w);
    } else {
      TrimThen(s, tail);
      var t := Trim(s);
      var n := WordLength(t);
      var first, rest := t[..n], t[n..];
      assert t + tail == first + (rest + tail);
      assert rest + tail != "" && (rest + tail)[0] == if rest == "" then ' ' else rest[0];
      WordAlone(first, rest + tail);
      assert (t + tail)[..n] == first && (t + tail)[n..] == rest + tail;
      WordsAppend(rest, w);
      assert Words(s + tail) == [first] + Words(rest + tail);
    }
  }

  lemma {:induction false} TrimThen(s: string, tail: string)
    requires Trim(s) != ""
    ensures Trim(s + tail) == Trim(s) + tail
  {
    if IsSpace(s[0]) {
      assert (s + tail)[1..] == s[1..] + tail;
      TrimThen(s[1..], tail);
    }
  }

  lemma {:induction false} BlankThenWord(s: string, w: Word)
    requires Trim(s) == "" && IsWord(w)
    ensures Words(s + (" " + w)) == [w] && Words(s) == []
    decreases |s|
  {
    var tail := " " + w;
    if s == "" {
      assert s + tail == tail && tail[1..] == w;
      assert w + "" == w;
      WordAlone(w, "");
      assert Trim(tail) == w;
      assert w[..|w|] == w && w[|w|..] == "";
    } else {
      assert (s + tail)[1..] == s[1..] + tail;
      BlankThenWord(s[1..], w);
    }
  }

  /** A line read back has exactly the words it was joined from. */
  lemma {:induction false} WordsOfJoin(line: seq<Word>)
    requires forall i :: 0 <= i < |line| ==> IsWord(line[i])
    ensures Words(Join(line)) == line
    decreases |line|
  {
    if line == [] {
      assert Join(line) == "" && Words("") == [];
      return;
    }
    hide *;
    var n := |line| - 1;
    var front, last := line[..n], line[n];
    if n == 0 {
      assert line == [last];
      JoinOne(last);
      WordsOfOne(last);
    } else {
      assert line == front + [last];
      WordsOfJoin(front);
      WordsOfJoinAppend(front, last);
    }
  }

  lemma WordsOfJoinAppend(front: seq<Word>, last: Word)
    requires front != [] && IsWord(last)
    ensures Words(Join(front + [last])) == Words(Join(front)) + [last]
  {
    hide *;
    WordsAppend(Join(front), last);
    JoinAppend(front, last);
    assert Join(front) + " " + last == Join(front) + (" " + last);
  }

  lemma WordsOfOne(w: Word)
    requires IsWord(w)
    ensures Words(w) == [w]
  {
    WordAlone(w, "");
    hide IsSpace;
    assert w + "" == w && w[..|w|] == w && w[|w|..] == "";
    assert Words("") == [];
  }

  function WordsOf(lines: seq<string>): (r: seq<seq<Word>>)
    ensures |r| == |lines|
    ensures forall i :: 0 <= i < |lines| ==> r[i] == Words(lines[i])
  {
    seq(|lines|, i requires 0 <= i < |lines| => Words(lines[i]))
  }

  lemma PiecesAreWords(pieces: seq<seq<Word>>, i: nat)
    requires i < |pieces|
    requires forall k :: 0 <= k < |Flatten(pieces)| ==> IsWord(Flatten(pieces)[k])
    ensures forall k :: 0 <= k < |pieces[i]| ==> IsWord(pieces[i][k])
    decreases |pieces|
  {
    var m := |pieces| - 1;
    var f := Flatten(pieces[..m]);
    assert Flatten(pieces) == f + pieces[m];
    if i == m {
      forall k | 0 <= k < |pieces[m]| ensures IsWord(pieces[m][k]) {
        assert Flatten(pieces)[|f| + k] == pieces[m][k];
      }
    } else {
      forall k | 0 <= k < |f| ensures IsWord(f[k]) {
        assert Flatten(pieces)[k] == f[k];
      }
      PiecesAreWords(pieces[..m], i);
    }
  }

  /** The strings a line is wrapped into hold the line's words, in order. */
  lemma WrappingKeepsWords(raw: string, width: Width, maxWidth: real)
    ensures Flatten(WordsOf(WrapRaw(raw, width, maxWidth))) == Words(raw)
  {
    var words := Words(raw);
    if words == [] {
      assert Words("") == [];
      FlattenAppend([], Words(""));
      assert WordsOf([""]) == [] + [Words("")];
    } else {
      var lines := Wrapped(words, width, maxWidth);
      WrappedIsWrapping(words, width, maxWidth);
      hide Wrapped, Words, Flatten;
      forall i | 0 <= i < |lines| ensures Words(Join(lines[i])) == lines[i] {
        PiecesAreWords(lines, i);
        WordsOfJoin(lines[i]);
      }
      assert WordsOf(Joined(lines)) == lines;
    }
  }

  /** And for an additive width no wrapping of those words has fewer lines. */
  lemma WrappedLinesAreFewest(raw: string, lines: seq<seq<Word>>, width: Width, maxWidth: real)
    requires Words(raw) != [] && IsWrapping(Words(raw), lines, width, maxWidth) && IsAdditive(width)
    ensures |WrapRaw(raw, width, maxWidth)| <= |lines|
  {
    GreedyIsShortest(Words(raw), lines, width, maxWidth);
    hide Words, Wrapped, IsWrapping, IsAdditive;
  }
}
