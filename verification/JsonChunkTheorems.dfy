/** The promises of the chunked reader: the same objects and the same ending as
    reading the whole text, whatever the chunk size; and exactly when not. */
module JsonChunkTheorems {
  import opened Json
  import opened JsonPrefix
  import opened JsonArrayReader
  import opened TextSpace
  import opened JsonChunks

  lemma {:induction false} FeedAgrees(buf: string, unread: string, chunkSize: int, started: bool, eof: bool)
    requires chunkSize != 0 && (eof ==> unread == [])
    requires NoReals(ScanFrom(buf + unread, started).elements)
    ensures Feed(buf, unread, chunkSize, started, eof) == ReadingOf(ScanFrom(buf + unread, started))
    decreases if eof then 0 else 1 + |unread|, |buf|
  {
    hide Drain, ScanFrom, DecodeValue, DrainAgrees, NoReals, Trim, IsStuck;
    var n := if eof then 0 else ReadSize(chunkSize, unread);
    var buf', rest := buf + unread[..n], unread[n..];
    assert buf' + rest == buf + unread;
    if buf' == [] {
      NothingToScan(buf + unread, started);
      return;
    }
    DrainMatches(buf', rest, started);
    var d := Drain(buf', started);
    AgreedPart(buf', rest, started);
    if d.stop.UsedUp? || (d.stop.Stuck? && n > 0) {
      FeedAgrees(d.tail, rest, chunkSize, d.started, eof || n == 0);
    } else if d.stop.Stuck? {
      assert d.tail + rest == d.tail;
      StuckMeansBad(d.tail);
    }
  }

  lemma NothingToScan(s: string, started: bool)
    requires s == []
    ensures ReadingOf(ScanFrom(s, started)) == Reading([], Complete)
  {
  }

  /** What agreement means at each way a buffer's scan can end. */
  lemma AgreedPart(buf: string, rest: string, started: bool)
    requires DrainAgrees(buf, rest, started)
    ensures var d := Drain(buf, started);
      var whole := ReadingOf(ScanFrom(buf + rest, started));
      && (d.stop.Refused? ==> whole == Reading(d.objects, NotAnArray))
      && (d.stop.Closed? ==> whole == Reading(d.objects, Complete))
      && (d.stop.UsedUp? || d.stop.Stuck? ==>
            whole == Prefixed(d.objects, ReadingOf(ScanFrom(d.tail + rest, d.started)))
            && NoReals(ScanFrom(d.tail + rest, d.started).elements))
      && (d.stop.Stuck? ==> IsStuck(d.tail) && d.started)
  {
  }

  lemma StuckMeansBad(s: string)
    requires IsStuck(s)
    ensures ReadingOf(ScanFrom(s, true)) == Reading([], BadPayload)
  {
    hide DecodeValue;
  }

  /** For every text whose top-level elements are anything but bare reals, and
      every chunk size, reading by chunks yields the same objects in the same
      order and ends the same way as reading the whole text. */
  lemma ChunkSizeDoesNotMatter(text: string, chunkSize: int)
    requires chunkSize != 0
    requires NoReals(ScanText(text).elements)
    ensures ReadChunked(text, chunkSize) == ReadWhole(text)
  {
    assert [] + text == text;
    FeedAgrees([], text, chunkSize, false, false);
  }

  /** A chunk size of zero reads nothing and so yields nothing. */
  lemma ZeroChunksYieldNothing(text: string)
    ensures ReadChunked(text, 0) == Reading([], Complete)
  {
  }

  // ----- One chunk for everything -----

  /** Scanning a buffer that is all there is. */
  lemma {:induction false} DrainAlone(buf: string, started: bool)
    ensures var d := Drain(buf, started);
      ReadingOf(ScanFrom(buf, started)) == Reading(d.objects,
        match d.stop case UsedUp => Complete case Stuck => BadPayload case Closed => Complete case Refused => NotAnArray)
    ensures Drain(buf, started).stop.Stuck? ==> IsStuck(Drain(buf, started).tail) && Drain(buf, started).started
    decreases |buf|
  {
    hide DecodeValue;
    var t := Trim(buf);
    if t == [] {
    } else if t[0] == (if started then ',' else '[') {
      DrainAlone(t[1..], true);
    } else if started && t[0] != ']' && DecodeValue(t).Got? {
      DrainAlone(t[DecodeValue(t).size..], true);
      ScanSeesTrimmed(buf, t, true);
      DrainSeesTrimmed(buf, t, true);
      hide ScanElements, Drain;
      ElementStep(t);
    }
  }

  /** A chunk that takes in the whole text reads it as a whole, whatever it holds. */
  lemma OneChunkReadsWhole(text: string, chunkSize: int)
    requires chunkSize < 0 || (chunkSize > 0 && chunkSize >= |text|)
    ensures ReadChunked(text, chunkSize) == ReadWhole(text)
  {
    DrainAlone(text, false);
    var d := Drain(text, false);
    hide Drain, ScanText, DecodeValue;
    assert [] + text[..|text|] == text && text[|text|..] == [];
    if d.stop.Stuck? {
      FeedStuck(d.tail, chunkSize);
    }
    assert d.objects + [] == d.objects;
    if text == [] {
      DrainNothing(text, false);
      FeedNothing(chunkSize, false);
    } else {
      var rest: string := text[|text|..];
      assert ReadSize(chunkSize, text) == |text|;
      assert Feed([], text, chunkSize, false, false) == match d.stop
        case Refused => Reading(d.objects, NotAnArray)
        case Closed => Reading(d.objects, Complete)
        case Stuck => Prefixed(d.objects, Feed(d.tail, rest, chunkSize, d.started, false))
        case UsedUp => Prefixed(d.objects, Feed(d.tail, rest, chunkSize, d.started, false));
      FeedNothing(chunkSize, d.started);
      hide Feed;
    }
  }

  lemma FeedNothing(chunkSize: int, started: bool)
    ensures Feed([], [], chunkSize, started, false) == Reading([], Complete)
  {
  }

  lemma FeedStuck(s: string, chunkSize: int)
    requires IsStuck(s)
    ensures Feed(s, [], chunkSize, true, false) == Reading([], BadPayload)
  {
    StuckIsDrained(s);
    hide Drain;
    assert s + [] == s;
  }

  lemma StuckIsDrained(s: string)
    requires IsStuck(s)
    ensures Drain(s, true) == Drained([], Stuck, true, s)
  {
    hide DecodeValue;
  }

  // ----- Bare reals -----

  /** A buffer that starts in the middle of a real can never be decoded. */
  predicate IsBroken(s: string) {
    s != [] && ExtendsNumber(s[0])
  }

  lemma BrokenIsStuck(s: string)
    requires IsBroken(s)
    ensures Drain(s, true) == Drained([], Stuck, true, s)
  {
    assert DecodeValue(s).Fail? && Trim(s) == s;
  }

  lemma {:induction false} BrokenNeverMends(buf: string, unread: string, chunkSize: int, eof: bool)
    requires chunkSize >= 1 && IsBroken(buf + unread) && (eof ==> unread == [])
    ensures Feed(buf, unread, chunkSize, true, eof) == Reading([], BadPayload)
    decreases if eof then 0 else 1 + |unread|, |buf|
  {
    hide Drain;
    var n := if eof then 0 else ReadSize(chunkSize, unread);
    var buf' := buf + unread[..n];
    assert buf' + unread[n..] == buf + unread;
    assert buf' != [] && buf'[0] == (buf + unread)[0];
    BrokenIsStuck(buf');
    if n > 0 {
      BrokenNeverMends(buf', unread[n..], chunkSize, false);
    }
  }

  /** `p` cuts `s` so that what is in front is used up and the rest is broken. */
  ghost predicate IsCut(s: string, p: nat) {
    && 0 < p < |s| && IsBroken(s[p..])
    && Drain(s[..p], true).stop.UsedUp? && Drain(s[..p], true).started
  }

  /** Where to cut behind the bracket: the elements before the first bare real
      and its integer part are used up, and what follows is broken. */
  lemma {:induction false} FindCut(s: string) returns (p: nat)
    requires !NoReals(ScanElements(s).elements)
    ensures IsCut(s, p)
    decreases |s|
  {
    var t := Trim(s);
    assert ScanElements(s) == ScanElements(t) && t != [] && t[0] != ']' by {
      hide DecodeValue;
    }
    hide IsCut, DecodeValue, ScanElements;
    var q: nat;
    if t[0] == ',' {
      CommaScans(t);
      q := FindCut(t[1..]);
      CutPastComma(t, q);
      q := q + 1;
    } else {
      RealIsHereOrLater(t);
      if IsReal(DecodeValue(t).value) {
        q := CutReal(t);
      } else {
        q := FindCut(t[DecodeValue(t).size..]);
        CutPastElement(t, q);
        q := DecodeValue(t).size + q;
      }
    }
    p := |s| - |t| + q;
    CutBehindBlanks(s, q);
  }

  lemma CutBehindBlanks(s: string, q: nat)
    requires IsCut(Trim(s), q)
    ensures IsCut(s, |s| - |Trim(s)| + q)
  {
    hide Drain;
    CutBehind(s, q);
  }

  lemma CommaScans(t: string)
    requires t != [] && Trim(t) == t && t[0] == ','
    ensures ScanElements(t) == ScanElements(t[1..])
  {
    hide DecodeValue;
  }

  lemma CutPastComma(t: string, q: nat)
    requires t != [] && Trim(t) == t && t[0] == ',' && IsCut(t[1..], q)
    ensures IsCut(t, 1 + q)
  {
    hide DecodeValue;
    TrimmedFront(t, 1 + q);
    assert t[..1 + q][1..] == t[1..][..q];
    assert t[1 + q..] == t[1..][q..];
  }

  lemma RealIsHereOrLater(t: string)
    requires t != [] && Trim(t) == t && t[0] != ',' && t[0] != ']' && !NoReals(ScanElements(t).elements)
    ensures DecodeValue(t).Got?
    ensures IsReal(DecodeValue(t).value) || !NoReals(ScanElements(t[DecodeValue(t).size..]).elements)
  {
    hide DecodeValue;
    var v := DecodeValue(t);
    var rest := ScanElements(t[v.size..]);
    assert ScanElements(t).elements == [v.value] + rest.elements;
  }

  lemma CutPastElement(t: string, q: nat)
    requires t != [] && Trim(t) == t && t[0] != ',' && t[0] != ']' && DecodeValue(t).Got?
    requires IsCut(t[DecodeValue(t).size..], q)
    ensures IsCut(t, DecodeValue(t).size + q)
  {
    hide DecodeValue, Drain, ScanElements, Trim, ExtendsNumber;
    var k := DecodeValue(t).size;
    CutElement(t, k + q);
    assert t[..k + q][k..] == t[k..][..q];
    assert t[k + q..] == t[k..][q..];
  }

  lemma {:induction false} TrimIsSuffix(s: string)
    ensures Trim(s) == s[|s| - |Trim(s)|..]
  {
    if s != [] && IsSpace(s[0]) {
      TrimIsSuffix(s[1..]);
    }
  }

  lemma TrimOfFront(s: string, p: nat)
    requires |s| - |Trim(s)| < p <= |s|
    ensures Trim(s[..p]) == Trim(s)[..p - (|s| - |Trim(s)|)]
  {
    var front, back := s[..p], s[p..];
    assert front + back == s;
    TrimPrefix(front, back);
    TrimIsSuffix(s);
    if Trim(front) != [] {
      assert (Trim(front) + back)[..|Trim(front)|] == Trim(front);
    }
  }

  /** A cut at `k` behind the leading white space of `s`. */
  lemma CutBehind(s: string, k: nat)
    requires 0 < k <= |Trim(s)|
    ensures var p := |s| - |Trim(s)| + k;
      Drain(s[..p], true) == Drain(Trim(s)[..k], true) && s[p..] == Trim(s)[k..]
  {
    hide DecodeValue, IsSpace, Drain;
    TrimIsSuffix(s);
    TrimOfFront(s, |s| - |Trim(s)| + k);
    TrimmedFront(Trim(s), k);
    DrainSeesTrimmed(s[..|s| - |Trim(s)| + k], Trim(s)[..k], true);
  }

  /** Cutting a real behind its integer part leaves an integer and a broken rest. */
  lemma CutReal(t: string) returns (i: nat)
    requires DecodeValue(t).Got? && IsReal(DecodeValue(t).value)
    ensures IsCut(t, i)
  {
    NumberStarts(t);
    NumberDecodes(t);
    hide DecodeValue, Drain;
    i := IntegerLength(t);
    var front := t[..i];
    assert front + t[i..] == t;
    assert IsBroken(t[i..]);
    IntegerTruncated(front, t[i..]);
    IntegerAlone(front);
  }

  lemma IntegerAlone(front: string)
    requires front != [] && IntegerLength(front) == |front|
    ensures Drain(front, true) == Drained([], UsedUp, true, [])
  {
    hide DecodeValue;
    IntegerStarts(front);
    NumberDecodes(front);
    IntegerDecodes(front);
    ElementStep(front);
    assert front[|front|..] == [];
  }

  lemma IntegerStarts(s: string)
    requires IntegerLength(s) > 0
    ensures StartsNumber(s)
  {
  }

  lemma IntegerDecodes(front: string)
    requires front != [] && IntegerLength(front) == |front|
    ensures DecodeNumber(front) == Got(Number(front, false), |front|)
  {
    hide IntegerLength;
    assert front[|front|..] == [];
  }

  /** An element wholly in front of a cut is read from the front part. */
  lemma CutElement(t: string, k: nat)
    requires t != [] && Trim(t) == t && t[0] != ',' && t[0] != ']'
    requires DecodeValue(t).Got? && DecodeValue(t).size <= k <= |t|
    ensures var d := Drain(t[..k][DecodeValue(t).size..], true);
      Drain(t[..k], true).stop == d.stop && Drain(t[..k], true).started == d.started
  {
    var front := t[..k];
    assert front + t[k..] == t;
    TrimmedFront(t, k);
    ValuePrefix(front, t[k..]);
    hide DecodeValue, Drain, ScanElements;
    ElementStep(front);
  }

  lemma TrimmedFront(t: string, k: nat)
    requires Trim(t) == t && 0 < k <= |t|
    ensures Trim(t[..k]) == t[..k]
  {
    assert !IsSpace(t[0]) by {
      hide IsSpace;
    }
  }

  lemma CutBehindOpening(text: string) returns (p: nat)
    requires !NoReals(ScanText(text).elements)
    ensures 0 < p < |text| && IsBroken(text[p..])
    ensures Drain(text[..p], false).stop.UsedUp? && Drain(text[..p], false).started
  {
    hide DecodeValue, ScanElements, Drain;
    var t := Trim(text);
    var q := FindCut(t[1..]);
    p := |text| - |t| + 1 + q;
    TrimIsSuffix(text);
    hide Trim;
    TrimOfFront(text, p);
    OpenedDrains(text[..p], t, q);
    assert text[p..] == t[1..][q..];
  }

  lemma BehindFirst(t: string, q: nat)
    requires q < |t|
    ensures t[..1 + q][0] == t[0] && t[..1 + q][1..] == t[1..][..q]
  {
  }

  /** The front of a text up to a cut behind its opening bracket. */
  lemma OpenedDrains(front: string, t: string, q: nat)
    requires q < |t| && t[0] == '[' && Trim(front) == t[..1 + q]
    ensures Drain(front, false) == Drain(t[1..][..q], true)
  {
    hide Trim, DecodeValue;
    BehindFirst(t, q);
  }

  /** A bare real makes some chunk size fail, on a text that reads well as a whole. */
  lemma SomeChunkSizeFails(text: string) returns (chunkSize: nat)
    requires !NoReals(ScanText(text).elements)
    ensures chunkSize >= 1 && ReadChunked(text, chunkSize).outcome == BadPayload
  {
    chunkSize := CutBehindOpening(text);
    assert [] + text[..chunkSize] == text[..chunkSize];
    assert [] + text[chunkSize..] == text[chunkSize..];
    var d := Drain(text[..chunkSize], false);
    hide Drain;
    BrokenNeverMends([], text[chunkSize..], chunkSize, false);
    assert ReadChunked(text, chunkSize) == Prefixed(d.objects, Feed([], text[chunkSize..], chunkSize, true, false));
  }

  /** Exactly when the chunk size is immaterial: a text that reads well as a
      whole reads the same by chunks of every size if and only if none of its
      top-level elements is a number with a fraction or an exponent. */
  lemma ChunkingIsSafeIff(text: string)
    requires ReadWhole(text).outcome == Complete
    ensures (forall chunkSize: int :: chunkSize >= 1 ==> ReadChunked(text, chunkSize) == ReadWhole(text))
       <==> NoReals(ScanText(text).elements)
  {
    if NoReals(ScanText(text).elements) {
      forall chunkSize: int | chunkSize >= 1 ensures ReadChunked(text, chunkSize) == ReadWhole(text) {
        ChunkSizeDoesNotMatter(text, chunkSize);
      }
    } else {
      var chunkSize := SomeChunkSizeFails(text);
      assert ReadChunked(text, chunkSize) != ReadWhole(text);
    }
  }

  lemma OneAndAHalf()
    ensures DecodeValue("1.5]") == Got(Number("1.5", true), 3)
  {
    assert "1.5]"[1..] == ".5]" && ".5]"[1..] == "5]" && "5]"[1..] == "]" && ".5]"[2..] == "]";
    assert DigitsLength("5]") == 1;
    assert FractionLength(".5]") == 2 && ExponentLength("]") == 0;
    assert DigitsLength(".5]") == 0;
    assert UnsignedLength("1.5]") == 1;
    assert "1.5]"[1 + 2..] == "]" && "1.5]"[..3] == "1.5";
    NumberDecodes("1.5]");
  }

  lemma OneAndAHalfReads()
    ensures ReadWhole("[1.5]") == Reading([], Complete)
  {
    hide DecodeValue;
    OneAndAHalf();
    assert "1.5]"[3..] == "]" && "[1.5]"[1..] == "1.5]";
    ElementStep("1.5]");
    assert ScanElements("]") == Scan([], Complete);
    assert ScanText("[1.5]") == ScanElements("1.5]");
  }

  /** For instance `[1.5]` read two characters at a time. */
  lemma SplitRealFails()
    ensures ReadWhole("[1.5]") == Reading([], Complete)
    ensures ReadChunked("[1.5]", 2) == Reading([], BadPayload)
  {
    hide DecodeValue, ScanText, ScanElements;
    OneAndAHalfReads();
    assert "[1"[1..] == "1" && "[1.5]"[2..] == ".5]" && "[1.5]"[..2] == "[1";
    assert Drain("[1", false) == Drain("1", true);
    assert [] + ".5]" == ".5]" && [] + "[1" == "[1";
    IntegerAlone("1");
    hide Drain;
    BrokenNeverMends([], ".5]", 2, false);
    assert ReadChunked("[1.5]", 2) == Prefixed([], Feed([], ".5]", 2, true, false));
  }

  // ----- Against decoding the whole document -----

  lemma {:induction false} JsonSpaceIsSpace(s: string)
    ensures Trim(s) == Trim(s[SpaceLength(s)..])
  {
    if s != [] && IsJsonSpace(s[0]) {
      JsonSpaceIsSpace(s[1..]);
      assert s[SpaceLength(s)..] == s[1..][SpaceLength(s[1..])..];
    } else {
      assert s[0..] == s;
    }
  }

  lemma DecodableIsTrimmed(s: string)
    requires DecodeValue(s).Got?
    ensures Trim(s) == s && s[0] != ',' && s[0] != ']'
  {
    hide DecodeText, DecodeItems, DecodeMembers, DecodeNumber;
  }

  lemma SpacedScan(s: string)
    requires DecodeSpaced(s).Got?
    ensures var v, rest := DecodeSpaced(s), ScanElements(s[DecodeSpaced(s).size..]);
      ScanElements(s) == Scan([v.value] + rest.elements, rest.outcome)
  {
    var t := s[SpaceLength(s)..];
    JsonSpaceIsSpace(s);
    DecodableIsTrimmed(t);
    hide DecodeValue;
    assert t[DecodeValue(t).size..] == s[DecodeSpaced(s).size..];
    ScanSeesTrimmed(s, t, true);
  }

  /** A well-formed tail of an array scans to its items. */
  lemma {:induction false} ItemsScan(s: string)
    requires DecodeMoreItems(s).GoodItems?
    ensures ScanElements(s) == Scan(DecodeMoreItems(s).items, Complete)
    decreases |s|
  {
    hide DecodeSpaced, ScanElements, NextMark;
    SpacedScan(s);
    var v := DecodeSpaced(s);
    var rest := s[v.size..];
    MarkScan(rest);
    var mark := NextMark(rest);
    if mark.c == ',' {
      assert s[v.size + mark.size..] == rest[mark.size..];
      ItemsScan(rest[mark.size..]);
    }
  }

  lemma MarkScan(s: string)
    requires var mark := NextMark(s); mark.Mark? && (mark.c == ',' || mark.c == ']')
    ensures ScanElements(s) == if NextMark(s).c == ']' then Scan([], Complete) else ScanElements(s[NextMark(s).size..])
  {
    hide DecodeValue;
    JsonSpaceIsSpace(s);
    var t := s[SpaceLength(s)..];
    assert Trim(t) == t;
    assert t[1..] == s[NextMark(s).size..];
  }

  /** Whenever the whole text decodes as an array, the reader yields exactly that
      array's objects, in order, and ends well. */
  lemma WholeDocumentsRead(text: string)
    requires DecodeDocument(text).Got? && DecodeDocument(text).value.Array?
    ensures ScanText(text) == Scan(DecodeDocument(text).value.items, Complete)
  {
    JsonSpaceIsSpace(text);
    var t := SkipJsonSpace(text);
    DecodableIsTrimmed(t);
    assert t[0] == '[' by {
      hide DecodeText, DecodeItems, DecodeMembers, DecodeNumber;
    }
    hide ScanElements, DecodeMoreItems;
    if NextMark(t[1..]).Mark? && NextMark(t[1..]).c == ']' {
      MarkScan(t[1..]);
    } else {
      ItemsScan(t[1..]);
    }
  }

  /** So on valid arrays without bare reals, or in one chunk, the reader is
      `json.loads` plus a filter for objects. */
  lemma ValidArraysReadInChunks(text: string, chunkSize: int)
    requires DecodeDocument(text).Got? && DecodeDocument(text).value.Array? && chunkSize != 0
    requires NoReals(DecodeDocument(text).value.items) || chunkSize < 0 || chunkSize >= |text|
    ensures ReadChunked(text, chunkSize) == Reading(ObjectsOf(DecodeDocument(text).value.items), Complete)
  {
    hide *;
    WholeDocumentsRead(text);
    if NoReals(DecodeDocument(text).value.items) {
      ChunkSizeDoesNotMatter(text, chunkSize);
    } else {
      OneChunkReadsWhole(text, chunkSize);
    }
    ReadingIsObjects(text);
  }

  lemma ReadingIsObjects(text: string)
    ensures ReadWhole(text) == Reading(ObjectsOf(ScanText(text).elements), ScanText(text).outcome)
  {
  }
}
