/** Written documents: what is decoded, and what the streaming reader yields. */
module JsonDocuments {
  import opened Json
  import opened JsonArrayReader
  import opened JsonChunks
  import opened JsonChunkTheorems
  import opened JsonChunkSizes
  import opened JsonSyntax
  import opened JsonRoundTrip
  import opened JsonWritten

  /** The text is the value, with white space around it. */
  ghost predicate Writes(text: string, before: string, x: Syntax, after: string) {
    IsBlank(before) && IsValid(x) && IsBlank(after) && text == before + (Print(x) + after)
  }

  lemma {:induction false} BlankIsSkipped(blank: string)
    requires IsBlank(blank)
    ensures SkipJsonSpace(blank) == ""
    decreases |blank|
  {
    if blank != "" {
      BlankIsSkipped(blank[1..]);
    }
  }

  lemma {:induction false} AllSkippedIsBlank(s: string)
    requires SkipJsonSpace(s) == ""
    ensures IsBlank(s)
    decreases |s|
  {
    if s != "" {
      assert SpaceLength(s) == |s|;
      AllSkippedIsBlank(s[1..]);
    }
  }

  /** A written document decodes to its value. */
  lemma DocumentReads(text: string, before: string, x: Syntax, after: string)
    requires Writes(text, before, x, after)
    ensures DecodeDocument(text) == Got(Meaning(x), |Print(x)|)
  {
    assert MayFollow(x, after);
    Reads(x, after);
    PrintStarts(x);
    BlankIsSkipped(after);
    hide DecodeValue, Print, Meaning, IsBlank, SpaceLength, IsValid;
    var s := Print(x) + after;
    assert s[0] == Print(x)[0];
    BlankReads(before, s);
    assert s[|Print(x)|..] == after;
  }

  /** And a document that decodes is a written one. */
  lemma DocumentIsWritten(text: string) returns (before: string, x: Syntax, after: string)
    requires DecodeDocument(text).Got?
    ensures Writes(text, before, x, after) && Meaning(x) == DecodeDocument(text).value
  {
    hide *;
    var w, n := DocumentParts(text);
    x := ValueIsWritten(text[w..]);
    before, after := text[..w], text[w..][n..];
    BlankIsWritten(text);
    AllSkippedIsBlank(after);
    WritesInThree(text, w, n, x);
  }

  lemma DocumentParts(text: string) returns (w: nat, n: nat)
    requires DecodeDocument(text).Got?
    ensures w == SpaceLength(text) && DecodeValue(text[w..]).Got? && n == DecodeValue(text[w..]).size <= |text[w..]|
    ensures DecodeDocument(text).value == DecodeValue(text[w..]).value && SkipJsonSpace(text[w..][n..]) == ""
  {
    hide DecodeValue, SpaceLength;
    w := SpaceLength(text);
    n := DecodeValue(text[w..]).size;
  }

  lemma WritesInThree(text: string, w: nat, n: nat, x: Syntax)
    requires w <= |text| && n <= |text[w..]| && IsBlank(text[..w]) && IsBlank(text[w..][n..])
    requires IsValid(x) && Print(x) == text[w..][..n]
    ensures Writes(text, text[..w], x, text[w..][n..])
  {
    hide IsBlank, IsValid, Print;
    assert text == text[..w] + (text[w..][..n] + text[w..][n..]);
  }

  /** Exactly the written documents decode. */
  lemma DocumentsAreWrittenIff(text: string)
    ensures DecodeDocument(text).Got? <==> exists before, x, after :: Writes(text, before, x, after)
  {
    hide DecodeDocument, Writes;
    if DecodeDocument(text).Got? {
      var before, x, after := DocumentIsWritten(text);
    } else if exists before, x, after :: Writes(text, before, x, after) {
      var before, x, after :| Writes(text, before, x, after);
      DocumentReads(text, before, x, after);
    }
  }

  // ----- What is streamed -----

  /** The dictionaries among the items, in order, with all their members. */
  function Dictionaries(items: seq<Item>): seq<Value>
    requires AreItems(items)
  {
    if items == [] then []
    else
      var later := Dictionaries(items[1..]);
      match items[0].value
      case Braced(_, entries) =>
        assert IsValid(items[0].value);
        [Object(EntryValues(entries))] + later
      case _ => later
  }

  lemma {:induction false} DictionariesAreObjects(items: seq<Item>)
    requires AreItems(items)
    ensures ObjectsOf(ItemValues(items)) == Dictionaries(items)
    decreases |items|
  {
    if items != [] {
      DictionariesAreObjects(items[1..]);
      ItemValuesStep(items);
      hide EntryValues, PrintNumeral, PointsOf;
      assert ItemValues(items)[1..] == ItemValues(items[1..]);
    }
  }

  /** A list of values, however it is written, streams its dictionaries, each with all
      its members in order, at any chunk size if no item is a bare real, and in one
      chunk in any case. */
  lemma WrittenArrayStreams(text: string, before: string, x: Syntax, after: string, chunkSize: int)
    requires Writes(text, before, x, after) && x.Bracketed? && chunkSize != 0
    requires NoReals(ItemValues(x.items)) || chunkSize < 0 || chunkSize >= |text|
    ensures ReadChunked(text, chunkSize) == Reading(Dictionaries(x.items), Complete)
  {
    DocumentReads(text, before, x, after);
    assert Meaning(x) == Array(ItemValues(x.items));
    hide Writes, DecodeDocument, ReadChunked, NoReals, Meaning, Print, ItemValues, Dictionaries;
    ValidArraysReadInChunks(text, chunkSize);
    DictionariesAreObjects(x.items);
  }

  /** And at one chunk size exactly if no chunk boundary breaks a bare number. */
  lemma WrittenArrayStreamsIff(text: string, before: string, x: Syntax, after: string, chunkSize: nat)
    requires Writes(text, before, x, after) && x.Bracketed? && chunkSize > 0
    ensures ReadChunked(text, chunkSize) == Reading(Dictionaries(x.items), Complete)
      <==> AreSafe(text, false, 0, chunkSize)
  {
    DocumentReads(text, before, x, after);
    assert Meaning(x) == Array(ItemValues(x.items));
    hide Writes, DecodeDocument, ReadChunked, ReadWhole, ScanText, Meaning, Print, ItemValues, Dictionaries, AreSafe;
    WholeDocumentsRead(text);
    ReadingIsObjects(text);
    DictionariesAreObjects(x.items);
    ChunkSizeIsSafeIff(text, chunkSize);
  }
}
