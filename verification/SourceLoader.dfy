/** Turning a JSON file into conversations: the fast path that streams a
    top-level array, and the conversion of the fully loaded value. */
module SourceLoader {
  import opened Json
  import opened JsonArrayReader
  import opened JsonChunks
  import opened JsonChunkTheorems
  import opened JsonChunkSizes
  import opened Options

  /** Builds one conversation, named after the file, from a list of messages; None
      where no message has text. */
  type Assemble = seq<Value> -> Option<Value>

  function Key(s: string): seq<int> {
    seq(|s|, i requires 0 <= i < |s| => s[i] as int)
  }

  /** A dictionary lookup; of repeated keys the last one counts. */
  function Lookup(members: seq<Member>, key: seq<int>): Option<Value> {
    if members == [] then None
    else
      var last := members[|members| - 1];
      if last.key == key then Some(last.value) else Lookup(members[..|members| - 1], key)
  }

  function Get(v: Value, key: string): Option<Value>
    requires v.Object?
  {
    Lookup(v.members, Key(key))
  }

  predicate HasList(v: Value, key: string)
    requires v.Object?
  {
    Get(v, key).Some? && Get(v, key).value.Array?
  }

  predicate HasDict(v: Value, key: string)
    requires v.Object?
  {
    Get(v, key).Some? && Get(v, key).value.Object?
  }

  predicate LooksLikeConversation(v: Value) {
    v.Object? && (HasDict(v, "mapping") || HasList(v, "messages") || HasList(v, "conversations"))
  }

  predicate LooksLikeMessage(v: Value) {
    v.Object?
    && (HasDict(v, "message")
        || ((Get(v, "role").Some? || Get(v, "author").Some? || Get(v, "speaker").Some?)
            && (Get(v, "content").Some? || Get(v, "text").Some? || Get(v, "message").Some?
                || Get(v, "prompt").Some? || Get(v, "completion").Some? || Get(v, "response").Some?)))
  }

  /** Every dictionary in the list looks like a message. */
  predicate AllMessages(items: seq<Value>) {
    forall i :: 0 <= i < |items| && items[i].Object? ==> LooksLikeMessage(items[i])
  }

  function AsList(c: Option<Value>): seq<Value> {
    if c.Some? then [c.value] else []
  }

  /** The branch for a list under "messages" is reached by no dictionary: such a
      dictionary already looks like a conversation. */
  function CoerceObject(v: Value, assemble: Assemble): seq<Value>
    requires v.Object?
  {
    if HasList(v, "conversations") then ObjectsOf(Get(v, "conversations").value.items)
    else if LooksLikeConversation(v) then [v]
    else if LooksLikeMessage(v) then AsList(assemble([v]))
    else []
  }

  /** The conversations in a loaded value. */
  function Coerce(v: Value, assemble: Assemble): seq<Value>
    decreases v, 1
  {
    if v.Object? then CoerceObject(v, assemble)
    else if v.Array? then
      if v.items != [] && AllMessages(v.items) then AsList(assemble(v.items)) else CoerceAll(v.items, assemble)
    else []
  }

  function CoerceAll(items: seq<Value>, assemble: Assemble): seq<Value>
    decreases items, 0
  {
    if items == [] then [] else Coerce(items[0], assemble) + CoerceAll(items[1..], assemble)
  }

  /** What loading a file gives, and whether it ends in an error. */
  datatype Loaded = Loaded(conversations: seq<Value>, failed: bool)

  const CHUNK_SIZE := 1_048_576
  const PEEK := 3

  function Peeked(objects: seq<Value>): seq<Value> {
    if |objects| < PEEK then objects else objects[..PEEK]
  }

  /** The array is streamed when a dictionary that is no message is seen early. */
  predicate TakesFastPath(objects: seq<Value>) {
    Peeked(objects) != [] && !AllMessages(Peeked(objects))
  }

  function LoadWhole(text: string, assemble: Assemble): Loaded {
    var d := DecodeDocument(text);
    if d.Fail? then Loaded([], true) else Loaded(Coerce(d.value, assemble), false)
  }

  function LoadFile(text: string, assemble: Assemble): Loaded {
    var r := ReadChunked(text, CHUNK_SIZE);
    if r.outcome == BadPayload && |r.objects| < PEEK then Loaded([], true)
    else if TakesFastPath(r.objects) && r.outcome != NotAnArray then
      Loaded(CoerceAll(r.objects, assemble), r.outcome == BadPayload)
    else LoadWhole(text, assemble)
  }

  lemma CoerceAllSplits(a: seq<Value>, b: seq<Value>, assemble: Assemble)
    ensures CoerceAll(a + b, assemble) == CoerceAll(a, assemble) + CoerceAll(b, assemble)
  {
    if a == [] {
      assert a + b == b;
    } else {
      assert (a + b)[1..] == a[1..] + b;
      CoerceAllSplits(a[1..], b, assemble);
    }
  }

  lemma NothingCoerced(assemble: Assemble)
    ensures CoerceAll([], assemble) == []
  {
  }

  lemma OneCoerced(v: Value, assemble: Assemble)
    ensures CoerceAll([v], assemble) == Coerce(v, assemble)
  {
    hide Coerce;
  }

  /** What has been peeked at settles how the file is loaded. */
  lemma FileLoads(text: string, assemble: Assemble, r: Reading, peeked: seq<Value>)
    requires r == ReadChunked(text, CHUNK_SIZE)
    requires |peeked| <= PEEK && |peeked| <= |r.objects| && peeked == r.objects[..|peeked|]
    requires |peeked| == PEEK || |peeked| == |r.objects|
    ensures LoadFile(text, assemble) ==
      if |peeked| < PEEK && r.outcome == BadPayload then Loaded([], true)
      else if r.outcome != NotAnArray && peeked != [] && !AllMessages(peeked)
      then Loaded(CoerceAll(r.objects, assemble), r.outcome == BadPayload)
      else LoadWhole(text, assemble)
  {
    hide ReadChunked, AllMessages, CoerceAll, LoadWhole;
    assert peeked == Peeked(r.objects);
  }

  method IterJsonFileConversations(text: string, assemble: Assemble) returns (loaded: Loaded)
    ensures loaded == LoadFile(text, assemble)
  {
    hide Coerce, CoerceAll, LooksLikeMessage, ReadChunked, LoadWhole, LoadFile;
    var stream := IterJsonArrayObjects(text, CHUNK_SIZE);
    var peeked: seq<Value> := [];
    var allMessages := true;
    while |peeked| < PEEK && |peeked| < |stream.objects|
      invariant |peeked| <= PEEK && |peeked| <= |stream.objects| && peeked == stream.objects[..|peeked|]
      invariant allMessages <==> AllMessages(peeked)
    {
      var next := stream.objects[|peeked|];
      allMessages := allMessages && (next.Object? ==> LooksLikeMessage(next));
      peeked := peeked + [next];
    }
    FileLoads(text, assemble, stream, peeked);
    if |peeked| < PEEK && stream.outcome == BadPayload {
      return Loaded([], true);
    }
    if stream.outcome != NotAnArray && peeked != [] && !allMessages {
      var out: seq<Value> := [];
      NothingCoerced(assemble);
      for i := 0 to |stream.objects|
        invariant out == CoerceAll(stream.objects[..i], assemble)
      {
        assert stream.objects[..i + 1] == stream.objects[..i] + [stream.objects[i]];
        CoerceAllSplits(stream.objects[..i], [stream.objects[i]], assemble);
        OneCoerced(stream.objects[i], assemble);
        out := out + Coerce(stream.objects[i], assemble);
      }
      assert stream.objects[..|stream.objects|] == stream.objects;
      return Loaded(out, stream.outcome == BadPayload);
    }
    loaded := LoadWhole(text, assemble);
  }

  // ----- The fast path against the full conversion -----

  /** The nested lists among `items` hold no conversations. */
  ghost predicate NestedListsAreBarren(items: seq<Value>, assemble: Assemble) {
    forall i :: 0 <= i < |items| && items[i].Array? ==> Coerce(items[i], assemble) == []
  }

  lemma {:induction false} ObjectsOnly(items: seq<Value>, assemble: Assemble)
    ensures |CoerceAll(ObjectsOf(items), assemble)| <= |CoerceAll(items, assemble)|
    ensures CoerceAll(ObjectsOf(items), assemble) == CoerceAll(items, assemble) <==> NestedListsAreBarren(items, assemble)
    ensures |CoerceAll(ObjectsOf(items), assemble)| == |CoerceAll(items, assemble)| ==> NestedListsAreBarren(items, assemble)
    decreases |items|
  {
    hide CoerceObject;
    if items != [] {
      var tail := items[1..];
      ObjectsOnly(tail, assemble);
      assert NestedListsAreBarren(items, assemble) <==>
        NestedListsAreBarren(tail, assemble) && (items[0].Array? ==> Coerce(items[0], assemble) == []) by {
        assert forall i :: 0 <= i < |tail| ==> tail[i] == items[i + 1];
        assert forall i :: 0 < i < |items| ==> items[i] == tail[i - 1];
      }
      if items[0].Object? {
        assert ObjectsOf(items) == [items[0]] + ObjectsOf(tail);
        assert ([items[0]] + ObjectsOf(tail))[1..] == ObjectsOf(tail);
      }
    }
  }

  lemma {:induction false} ObjectsAreObjects(items: seq<Value>)
    ensures forall i :: 0 <= i < |ObjectsOf(items)| ==> ObjectsOf(items)[i].Object? && ObjectsOf(items)[i] in items
  {
    if items != [] {
      ObjectsAreObjects(items[1..]);
    }
  }

  /** Taking the fast path proves that the full conversion treats the array as a
      list of separate items and not as one list of messages. */
  lemma FastPathMeansMixed(items: seq<Value>)
    requires TakesFastPath(ObjectsOf(items))
    ensures items != [] && !AllMessages(items)
  {
    ObjectsAreObjects(items);
    var objects := ObjectsOf(items);
    var i :| 0 <= i < |Peeked(objects)| && Peeked(objects)[i].Object? && !LooksLikeMessage(Peeked(objects)[i]);
    assert objects[i] in items;
  }

  /** The file's chunk boundaries break no bare number. */
  predicate IsSafelyChunked(text: string) {
    AreSafe(text, false, 0, CHUNK_SIZE)
  }

  lemma SafelyChunkedIf(text: string)
    requires DecodeDocument(text).Got? && DecodeDocument(text).value.Array?
    requires NoReals(DecodeDocument(text).value.items) || |text| <= CHUNK_SIZE
    ensures IsSafelyChunked(text)
  {
    hide DecodeDocument, ReadChunked, NoReals;
    ValidArraysReadInChunks(text, CHUNK_SIZE);
    WholeDocumentsRead(text);
    ReadingIsObjects(text);
    hide ReadWhole, AreSafe, ScanText;
    ChunkSizeIsSafeIff(text, CHUNK_SIZE);
  }

  /** For every file that is a JSON array, streaming gives the conversations of the
      fully loaded value if and only if: with chunk boundaries that break no bare
      number, the fast path is not taken or no nested list would have contributed
      any; otherwise, as many dictionaries as are looked at stand in front of the
      first boundary that breaks one, all of them messages, so that the fast path is
      not taken. */
  lemma StreamingIsFaithfulIff(text: string, assemble: Assemble)
    requires DecodeDocument(text).Got? && DecodeDocument(text).value.Array?
    ensures var items := DecodeDocument(text).value.items;
      LoadFile(text, assemble) == Loaded(Coerce(Array(items), assemble), false) <==>
        if IsSafelyChunked(text) then !TakesFastPath(ObjectsOf(items)) || NestedListsAreBarren(items, assemble)
        else |FirstRead(text, false, 0, CHUNK_SIZE)| >= PEEK && !TakesFastPath(ObjectsOf(items))
  {
    hide DecodeDocument, Coerce, ReadChunked, CoerceObject, TakesFastPath, AreSafe, FirstRead, ScanText;
    var items := DecodeDocument(text).value.items;
    WholeDocumentsRead(text);
    ReadingIsObjects(text);
    hide ReadWhole;
    ChunkSizeIsSafeIff(text, CHUNK_SIZE);
    ArrayValue(text);
    if IsSafelyChunked(text) {
      if TakesFastPath(ObjectsOf(items)) {
        FastPathMeansMixed(items);
        ObjectsOnly(items, assemble);
        MixedArrays(items, assemble);
      }
    } else {
      SamePeek(FirstRead(text, false, 0, CHUNK_SIZE), ObjectsOf(items));
    }
  }

  lemma SamePeek(read: seq<Value>, objects: seq<Value>)
    requires read <= objects
    ensures |read| >= PEEK ==> (TakesFastPath(read) <==> TakesFastPath(objects))
  {
    hide AllMessages;
    if |read| >= PEEK {
      assert read[..PEEK] == objects[..PEEK];
    }
  }

  lemma ArrayValue(text: string)
    requires DecodeDocument(text).Got? && DecodeDocument(text).value.Array?
    ensures DecodeDocument(text).value == Array(DecodeDocument(text).value.items)
  {
    hide DecodeDocument;
  }

  lemma MixedArrays(items: seq<Value>, assemble: Assemble)
    requires items != [] && !AllMessages(items)
    ensures Coerce(Array(items), assemble) == CoerceAll(items, assemble)
  {
  }

  /** The plain case: no nested list among the elements. */
  lemma StreamingIsFaithful(text: string, assemble: Assemble)
    requires DecodeDocument(text).Got? && DecodeDocument(text).value.Array? && IsSafelyChunked(text)
    requires forall i :: 0 <= i < |DecodeDocument(text).value.items| ==> !DecodeDocument(text).value.items[i].Array?
    ensures LoadFile(text, assemble) == LoadWhole(text, assemble)
  {
    hide DecodeDocument, LoadFile, Coerce, IsSafelyChunked;
    StreamingIsFaithfulIff(text, assemble);
    ArrayValue(text);
  }
}
