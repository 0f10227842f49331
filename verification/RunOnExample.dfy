/** A malformed text that reads well by chunks although no boundary breaks a number. */
module RunOnExample {
  import opened Json
  import opened JsonPrefix
  import opened JsonArrayReader
  import opened JsonChunks
  import opened JsonChunkTheorems
  import opened JsonCuts
  import opened JsonChunkSizes
  import opened TextSpace

  /** Two reals that run into each other, and what each chunk takes them for. */
  const TEXT := "[1.55.5]"

  lemma LongerReal()
    ensures HasParts("1.55.5]", 1, 3, 0)
  {
    assert "1.55.5]"[1..] == ".55.5]" && ".55.5]"[1..] == "55.5]" && "55.5]"[1..] == "5.5]" && "5.5]"[1..] == ".5]";
    assert DigitsLength("55.5]") == 1 + DigitsLength("5.5]") == 2;
    assert FractionLength(".55.5]") == 3;
    assert "1.55.5]"[1 + 3..] == ".5]";
    assert UnsignedLength("1.55.5]") == 1;
  }

  lemma FirstChunkReal()
    ensures HasParts("1.5", 1, 2, 0)
  {
    assert "1.5"[1..] == ".5" && ".5"[1..] == "5" && "5"[1..] == "";
    assert DigitsLength("5") == 1;
    assert "1.5"[1 + 2..] == "";
    assert UnsignedLength("1.5") == 1;
  }

  lemma SecondChunkReal()
    ensures HasParts("5.5]", 1, 2, 0)
  {
    assert "5.5]"[1..] == ".5]" && ".5]"[1..] == "5]" && "5]"[1..] == "]";
    assert DigitsLength("5]") == 1;
    assert "5.5]"[1 + 2..] == "]";
    assert UnsignedLength("5.5]") == 1;
  }

  /** A real at the front of a text. */
  lemma RealReads(s: string, f: nat)
    requires s != [] && IsDigit(s[0]) && HasParts(s, 1, f, 0) && f > 0
    ensures DecodeValue(s).Got? && IsReal(DecodeValue(s).value) && DecodeValue(s).size == 1 + f
    ensures Trim(s) == s && s[0] != ',' && s[0] != ']'
    ensures Drain(s, true) == Drain(s[1 + f..], true)
    ensures ReadingOf(ScanElements(s)) == ReadingOf(ScanElements(s[1 + f..]))
  {
    NumberReads(s, 1, f, 0);
    ElementStep(s);
    FoundNothing(Drain(s[1 + f..], true));
    PrefixedNothing(ReadingOf(ScanElements(s[1 + f..])));
    hide DecodeValue, Drain, ScanElements, HasParts;
  }

  lemma WholeIsBad()
    ensures ReadWhole(TEXT) == Reading([], BadPayload) && RunsOnFrom(TEXT, false)
  {
    hide DecodeValue, ScanElements, RunsOn, HasParts, Drain;
    LongerReal();
    assert TEXT[1..] == "1.55.5]" && "1.55.5]"[1 + 3..] == ".5]";
    RealReads("1.55.5]", 3);
    BrokenDoesNotDecode(".5]");
    StuckMeansBad(".5]");
    ElementRunsOn("1.55.5]");
    assert Trim(TEXT) == TEXT;
  }

  lemma ChunksAreSafe()
    ensures AreSafe(TEXT, false, 0, 4)
  {
    hide FrontOf;
    assert TEXT[1..] == "1.55.5]";
    NumberCuts();
    assert Trim(TEXT) == TEXT;
    assert CutAt(TEXT, false, 0, 4) == FrontOf("1.55.5]", 3);
    assert AreSafe(TEXT, false, 4, 4);
  }

  lemma NumberCuts()
    ensures !FrontOf("1.55.5]", 3).breaks
  {
    LongerReal();
    RealReads("1.55.5]", 3);
    ElementCut("1.55.5]", 3);
    PartsCut("1.55.5]", 1, 3, 0, 3);
    hide DecodeValue, FrontOf, HasParts, CutsNumber;
  }

  lemma ChunksReadWell()
    ensures ReadChunked(TEXT, 4) == Reading([], Complete)
  {
    var first, second := "[1.5", "5.5]";
    assert TEXT[..4] == first && TEXT[4..] == second && [] + first == first;
    assert second[..4] == second && second[4..] == [] && [] + second == second;
    FirstDrained();
    SecondDrained();
    hide Drain;
    assert Feed([], second, 4, true, false) == Reading([], Complete);
    assert ReadChunked(TEXT, 4) == Prefixed([], Feed([], second, 4, true, false));
  }

  lemma FirstDrained()
    ensures Drain("[1.5", false) == Drained([], UsedUp, true, [])
  {
    FirstChunkReal();
    RealReads("1.5", 2);
    assert "[1.5"[1..] == "1.5" && "1.5"[1 + 2..] == [];
    assert Trim("[1.5") == "[1.5";
    hide DecodeValue, HasParts;
    DrainNothing([], true);
  }

  lemma SecondDrained()
    ensures Drain("5.5]", true) == Drained([], Closed, true, "]")
  {
    hide DecodeValue, HasParts, ScanElements;
    SecondChunkReal();
    RealReads("5.5]", 2);
    assert "5.5]"[1 + 2..] == "]";
    assert Trim("]") == "]";
  }

  /** `[1.55.5]` is refused as a whole but read well four characters at a time, and no
      boundary breaks a number: the first chunk ends between two digits of a fraction,
      and what is left of it takes the fraction behind for its own. */
  lemma RunOnTextMends()
    ensures RunsOnFrom(TEXT, false) && AreSafe(TEXT, false, 0, 4)
    ensures ReadWhole(TEXT) == Reading([], BadPayload) && ReadChunked(TEXT, 4) == Reading([], Complete)
  {
    hide *;
    WholeIsBad();
    ChunksAreSafe();
    ChunksReadWell();
  }
}
