/** Greedy wrapping of a label's words, and why no other wrapping is shorter. */
module WordWrap {
  import opened SeqOfSeqs
  import opened TextSpace

  type Word = string

  /** A line's words with single blanks between them. */
  function Join(words: seq<Word>): string
    decreases |words|
  {
    if words == [] then ""
    else if |words| == 1 then words[0]
    else Join(words[..|words| - 1]) + " " + words[|words| - 1]
  }

  /** How wide a piece of text is drawn. */
  type Width = string -> real

  ghost predicate Adds(width: Width, s: string, t: string) {
    width(s + t) == width(s) + width(t)
  }

  /** Widths add up and are never negative. */
  ghost predicate IsAdditive(width: Width) {
    (forall s: string :: width(s) >= 0.0) && (forall s: string, t: string :: Adds(width, s, t))
  }

  /** A line is in order when it fits, or is a single word that never can. */
  predicate LineOk(line: seq<Word>, width: Width, maxWidth: real) {
    |line| == 1 || (line != [] && width(Join(line)) <= maxWidth)
  }

  /** Greedy wrapping, word by word. */
  function Wrapped(words: seq<Word>, width: Width, maxWidth: real): (lines: seq<seq<Word>>)
    ensures words == [] <==> lines == []
    ensures forall i :: 0 <= i < |lines| ==> lines[i] != []
    decreases |words|
  {
    if words == [] then []
    else
      var n := |words| - 1;
      var before := Wrapped(words[..n], width, maxWidth);
      if n == 0 then [[words[0]]]
      else
        var m := |before| - 1;
        if width(Join(before[m]) + " " + words[n]) <= maxWidth then before[m := before[m] + [words[n]]]
        else before + [[words[n]]]
  }

  /** A way to break `words` into lines that are all in order. */
  ghost predicate IsWrapping(words: seq<Word>, lines: seq<seq<Word>>, width: Width, maxWidth: real) {
    Flatten(lines) == words && forall i :: 0 <= i < |lines| ==> LineOk(lines[i], width, maxWidth)
  }

  function LastLength(lines: seq<seq<Word>>): nat {
    if lines == [] then 0 else |lines[|lines| - 1]|
  }

  lemma WrappedStep(words: seq<Word>, width: Width, maxWidth: real)
    requires |words| > 1
    ensures var n := |words| - 1;
      var before := Wrapped(words[..n], width, maxWidth);
      && before != []
      && Wrapped(words, width, maxWidth) ==
         if width(Join(before[|before| - 1]) + " " + words[n]) <= maxWidth
         then before[|before| - 1 := before[|before| - 1] + [words[n]]] else before + [[words[n]]]
  {
  }

  lemma JoinAppend(line: seq<Word>, w: Word)
    requires line != []
    ensures Join(line + [w]) == Join(line) + " " + w
  {
    assert (line + [w])[..|line|] == line;
  }

  lemma GrowLast(lines: seq<seq<Word>>, w: Word)
    requires lines != []
    ensures var m := |lines| - 1; Flatten(lines[m := lines[m] + [w]]) == Flatten(lines) + [w]
  {
    var m := |lines| - 1;
    var grown := lines[m := lines[m] + [w]];
    assert grown[..m] == lines[..m];
    assert Flatten(lines[..m]) + (lines[m] + [w]) == (Flatten(lines[..m]) + lines[m]) + [w];
  }

  lemma WrappingGrows(words: seq<Word>, before: seq<seq<Word>>, w: Word, width: Width, maxWidth: real)
    requires IsWrapping(words, before, width, maxWidth) && before != []
    requires width(Join(before[|before| - 1]) + " " + w) <= maxWidth
    ensures var m := |before| - 1; IsWrapping(words + [w], before[m := before[m] + [w]], width, maxWidth)
  {
    var m := |before| - 1;
    assert LineOk(before[m], width, maxWidth);
    JoinAppend(before[m], w);
    GrowLast(before, w);
    hide Join, Flatten;
    var grown := before[m := before[m] + [w]];
    forall i | 0 <= i < |grown| ensures LineOk(grown[i], width, maxWidth) {
      assert LineOk(before[i], width, maxWidth);
    }
  }

  lemma WrappingStarts(words: seq<Word>, before: seq<seq<Word>>, w: Word, width: Width, maxWidth: real)
    requires IsWrapping(words, before, width, maxWidth)
    ensures IsWrapping(words + [w], before + [[w]], width, maxWidth)
  {
    FlattenAppend(before, [w]);
    hide Join, Flatten;
  }

  /** The greedy lines hold the words in order and are all in order. */
  lemma {:induction false} WrappedIsWrapping(words: seq<Word>, width: Width, maxWidth: real)
    ensures IsWrapping(words, Wrapped(words, width, maxWidth), width, maxWidth)
    decreases |words|
  {
    if words == [] {
      return;
    }
    var n := |words| - 1;
    var before := Wrapped(words[..n], width, maxWidth);
    WrappedIsWrapping(words[..n], width, maxWidth);
    assert words == words[..n] + [words[n]];
    if n == 0 {
      assert before + [[words[0]]] == Wrapped(words, width, maxWidth);
    } else {
      WrappedStep(words, width, maxWidth);
    }
    hide *;
    if n > 0 && width(Join(before[|before| - 1]) + " " + words[n]) <= maxWidth {
      WrappingGrows(words[..n], before, words[n], width, maxWidth);
    } else {
      WrappingStarts(words[..n], before, words[n], width, maxWidth);
    }
  }

  // ----- No wrapping has fewer lines -----

  lemma {:induction false} JoinEndsInSuffix(line: seq<Word>, k: nat) returns (front: string)
    requires k < |line|
    ensures Join(line) == front + Join(line[k..])
    decreases |line|
  {
    var n := |line| - 1;
    if k == n {
      front := if n == 0 then "" else Join(line[..n]) + " ";
      assert line[k..] == [line[n]];
    } else {
      front := JoinEndsInSuffix(line[..n], k);
      assert line[k..][..n - k] == line[..n][k..];
      assert (front + Join(line[..n][k..])) + " " + line[n] == front + (Join(line[..n][k..]) + " " + line[n]);
    }
  }

  /** The end of a line is no wider than the line. */
  lemma SuffixIsNarrower(line: seq<Word>, k: nat, width: Width)
    requires k < |line| && IsAdditive(width)
    ensures width(Join(line[k..])) <= width(Join(line))
  {
    var front := JoinEndsInSuffix(line, k);
    assert Adds(width, front, Join(line[k..]));
  }

  lemma {:induction false} FrontIsNarrower(line: seq<Word>, width: Width)
    requires |line| > 1 && IsAdditive(width)
    ensures width(Join(line[..|line| - 1])) <= width(Join(line))
  {
    var n := |line| - 1;
    assert Join(line) == Join(line[..n]) + (" " + line[n]);
    assert Adds(width, Join(line[..n]), " " + line[n]);
  }

  /** Taking the last word away from a wrapping leaves a wrapping. */
  lemma WithoutLastWord(words: seq<Word>, lines: seq<seq<Word>>, width: Width, maxWidth: real) returns (shorter: seq<seq<Word>>)
    requires words != [] && IsWrapping(words, lines, width, maxWidth) && IsAdditive(width)
    ensures lines != [] && lines[|lines| - 1] != []
    ensures var last := lines[|lines| - 1];
      && last[|last| - 1] == words[|words| - 1]
      && IsWrapping(words[..|words| - 1], shorter, width, maxWidth)
      && (if |last| == 1 then shorter == lines[..|lines| - 1]
          else shorter == lines[|lines| - 1 := last[..|last| - 1]])
  {
    var m := |lines| - 1;
    var last := lines[m];
    assert LineOk(last, width, maxWidth);
    assert Flatten(lines) == Flatten(lines[..m]) + last;
    if |last| == 1 {
      shorter := lines[..m];
      assert words[..|words| - 1] == Flatten(shorter);
    } else {
      var rest := last[..|last| - 1];
      shorter := lines[m := rest];
      assert shorter[..m] == lines[..m];
      assert words[..|words| - 1] == Flatten(lines[..m]) + rest;
      FrontIsNarrower(last, width);
    }
  }

  /** Two wrappings of the same words end in the same words. */
  lemma ShorterLastIsSuffix(words: seq<Word>, a: seq<seq<Word>>, b: seq<seq<Word>>)
    requires a != [] && b != [] && Flatten(a) == words == Flatten(b)
    requires LastLength(a) <= LastLength(b)
    ensures var s, t := a[|a| - 1], b[|b| - 1]; s == t[|t| - |s|..]
  {
    var s, t := a[|a| - 1], b[|b| - 1];
    assert words == Flatten(a[..|a| - 1]) + s && words == Flatten(b[..|b| - 1]) + t;
    assert s == words[|words| - |s|..] && t == words[|words| - |t|..];
  }

  /** Greedy stays ahead: it never uses more lines than another wrapping, and with
      as many it leaves the last line no longer. */
  lemma {:induction false} GreedyStaysAhead(words: seq<Word>, lines: seq<seq<Word>>, width: Width, maxWidth: real)
    requires IsWrapping(words, lines, width, maxWidth) && IsAdditive(width)
    ensures var greedy := Wrapped(words, width, maxWidth);
      |greedy| < |lines| || (|greedy| == |lines| && LastLength(greedy) <= LastLength(lines))
    decreases |words|
  {
    if words == [] {
      if lines != [] {
        LinesHoldWords(words, lines, width, maxWidth);
      }
      return;
    }
    var n := |words| - 1;
    var shorter := WithoutLastWord(words, lines, width, maxWidth);
    GreedyStaysAhead(words[..n], shorter, width, maxWidth);
    if n > 0 {
      WrappedStep(words, width, maxWidth);
      WrappedIsWrapping(words[..n], width, maxWidth);
      KeepsAhead(words, Wrapped(words[..n], width, maxWidth), lines, shorter, width, maxWidth);
    }
  }

  /** One more word: greedy starts a line only where the other wrapping has to, or
      is a line ahead. */
  lemma KeepsAhead(words: seq<Word>, before: seq<seq<Word>>, lines: seq<seq<Word>>, shorter: seq<seq<Word>>, width: Width, maxWidth: real)
    requires |words| > 1 && before != [] && before[|before| - 1] != [] && lines != [] && lines[|lines| - 1] != []
    requires var n, last := |words| - 1, lines[|lines| - 1];
      && Flatten(before) == words[..n]
      && IsWrapping(words[..n], shorter, width, maxWidth) && IsWrapping(words, lines, width, maxWidth)
      && last[|last| - 1] == words[n]
      && (if |last| == 1 then shorter == lines[..|lines| - 1] else shorter == lines[|lines| - 1 := last[..|last| - 1]])
    requires |before| < |shorter| || (|before| == |shorter| && LastLength(before) <= LastLength(shorter))
    requires IsAdditive(width)
    ensures var n := |words| - 1;
      var greedy := if width(Join(before[|before| - 1]) + " " + words[n]) <= maxWidth
        then before[|before| - 1 := before[|before| - 1] + [words[n]]] else before + [[words[n]]];
      |greedy| < |lines| || (|greedy| == |lines| && LastLength(greedy) <= LastLength(lines))
  {
    hide IsAdditive, Flatten, Join;
    var last := lines[|lines| - 1];
    if |last| > 1 && |before| == |shorter| {
      assert LineOk(last, width, maxWidth);
      assert last == last[..|last| - 1] + [words[|words| - 1]];
      GreedyFits(words[..|words| - 1], words[|words| - 1], before, shorter, last, width, maxWidth);
    }
  }

  lemma LastIsPart(lines: seq<seq<Word>>)
    ensures LastLength(lines) <= |Flatten(lines)|
  {
  }

  lemma LinesHoldWords(words: seq<Word>, lines: seq<seq<Word>>, width: Width, maxWidth: real)
    requires IsWrapping(words, lines, width, maxWidth) && lines != []
    ensures words != []
  {
    hide Join, Flatten;
    LastIsPart(lines);
    assert LineOk(lines[|lines| - 1], width, maxWidth);
  }

  lemma GreedyFits(words: seq<Word>, w: Word, before: seq<seq<Word>>, shorter: seq<seq<Word>>, last: seq<Word>, width: Width, maxWidth: real)
    requires before != [] && shorter != [] && Flatten(before) == words == Flatten(shorter)
    requires before[|before| - 1] != [] && LastLength(before) <= LastLength(shorter)
    requires last == shorter[|shorter| - 1] + [w] && width(Join(last)) <= maxWidth && IsAdditive(width)
    ensures width(Join(before[|before| - 1]) + " " + w) <= maxWidth
  {
    ShorterLastIsSuffix(words, before, shorter);
    hide *;
    SuffixFits(before[|before| - 1], shorter[|shorter| - 1], w, width);
  }

  lemma SuffixFits(s: seq<Word>, t: seq<Word>, w: Word, width: Width)
    requires s != [] && |s| <= |t| && s == t[|t| - |s|..] && IsAdditive(width)
    ensures width(Join(s) + " " + w) <= width(Join(t + [w]))
  {
    assert (t + [w])[|t| - |s|..] == s + [w];
    JoinAppend(s, w);
    SuffixIsNarrower(t + [w], |t| - |s|, width);
  }

  /** For an additive measure the greedy wrapping has the fewest lines of all
      wrappings whose lines fit or are single words. */
  lemma GreedyIsShortest(words: seq<Word>, lines: seq<seq<Word>>, width: Width, maxWidth: real)
    requires IsWrapping(words, lines, width, maxWidth) && IsAdditive(width)
    ensures IsWrapping(words, Wrapped(words, width, maxWidth), width, maxWidth)
    ensures |Wrapped(words, width, maxWidth)| <= |lines|
  {
    WrappedIsWrapping(words, width, maxWidth);
    GreedyStaysAhead(words, lines, width, maxWidth);
  }
}
