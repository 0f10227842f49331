/** Which conversations the conversion of a loaded value gives: told by the places
    at which its nested lists hold dictionaries and lists of messages. */
module Conversions {
  import opened Json
  import opened JsonArrayReader
  import opened JsonChunks
  import opened JsonChunkTheorems
  import opened JsonChunkSizes
  import opened SourceLoader
  import opened SeqOfSeqs
  import opened Options
  import opened TextSpace

  // ----- Fields of a dictionary -----

  predicate Spells(points: seq<int>, key: string) {
    |points| == |key| && forall i :: 0 <= i < |key| ==> points[i] == key[i] as int
  }

  /** The last member under the key has the value `x`. */
  ghost predicate HasField(v: Value, key: string, x: Value) {
    v.Object? && exists i :: IsLastUnder(v.members, key, i) && v.members[i].value == x
  }

  predicate IsLastUnder(members: seq<Member>, key: string, i: int) {
    0 <= i < |members| && Spells(members[i].key, key)
    && forall j :: i < j < |members| ==> !Spells(members[j].key, key)
  }

  ghost predicate Holds(v: Value, key: string) {
    exists x :: HasField(v, key, x)
  }

  ghost predicate HoldsList(v: Value, key: string) {
    exists items :: HasField(v, key, Array(items))
  }

  ghost predicate HoldsDict(v: Value, key: string) {
    exists members :: HasField(v, key, Object(members))
  }

  lemma SpellsIsKey(points: seq<int>, key: string)
    ensures Spells(points, key) <==> points == Key(key)
  {
  }

  lemma {:induction false} LookupIsLast(members: seq<Member>, key: string)
    ensures var r := Lookup(members, Key(key));
      (r.Some? ==> exists i :: IsLastUnder(members, key, i) && members[i].value == r.value)
      && (r.None? ==> forall i :: 0 <= i < |members| ==> !Spells(members[i].key, key))
    decreases |members|
  {
    hide Key, Spells;
    if members != [] {
      var n := |members| - 1;
      SpellsIsKey(members[n].key, key);
      if members[n].key == Key(key) {
        assert IsLastUnder(members, key, n);
      } else {
        LookupIsLast(members[..n], key);
        var r := Lookup(members[..n], Key(key));
        if r.Some? {
          var i :| IsLastUnder(members[..n], key, i) && members[..n][i].value == r.value;
          assert IsLastUnder(members, key, i);
        }
      }
    }
  }

  lemma LastIsUnique(members: seq<Member>, key: string, i: int, j: int)
    requires IsLastUnder(members, key, i) && IsLastUnder(members, key, j)
    ensures i == j
  {
  }

  lemma GetIsField(v: Value, key: string, x: Value)
    requires v.Object?
    ensures Get(v, key) == Some(x) <==> HasField(v, key, x)
  {
    hide Lookup, Key, Spells;
    LookupIsLast(v.members, key);
    if HasField(v, key, x) {
      var i :| IsLastUnder(v.members, key, i) && v.members[i].value == x;
      var r := Get(v, key);
      if r.Some? {
        var j :| IsLastUnder(v.members, key, j) && v.members[j].value == r.value;
        LastIsUnique(v.members, key, i, j);
      }
    }
  }

  lemma HeldIff(v: Value, key: string)
    requires v.Object?
    ensures Holds(v, key) <==> Get(v, key).Some?
    ensures HoldsList(v, key) <==> HasList(v, key)
    ensures HoldsDict(v, key) <==> HasDict(v, key)
  {
    hide Lookup, HasField, Key;
    forall x ensures HasField(v, key, x) <==> Get(v, key) == Some(x) {
      GetIsField(v, key, x);
    }
    hide Get;
    if HasList(v, key) {
      assert HasField(v, key, Array(Get(v, key).value.items));
    }
    if HasDict(v, key) {
      assert HasField(v, key, Object(Get(v, key).value.members));
    }
  }

  // ----- What a dictionary or a list is taken for -----

  /** An export: a list of conversations. */
  ghost predicate IsWrapper(v: Value) {
    HoldsList(v, "conversations")
  }

  ghost predicate IsConversation(v: Value) {
    HoldsDict(v, "mapping") || HoldsList(v, "messages")
  }

  const ROLE_KEYS := {"role", "author", "speaker"}
  const TEXT_KEYS := {"content", "text", "message", "prompt", "completion", "response"}

  ghost predicate IsMessage(v: Value) {
    || HoldsDict(v, "message")
    || ((exists key :: key in ROLE_KEYS && Holds(v, key)) && (exists key :: key in TEXT_KEYS && Holds(v, key)))
  }

  /** A list with at least one item, whose dictionaries are all messages. */
  ghost predicate IsMessageList(v: Value) {
    v.Array? && v.items != [] && forall i :: 0 <= i < |v.items| && v.items[i].Object? ==> IsMessage(v.items[i])
  }

  lemma MessagesLookAlike(v: Value)
    requires v.Object?
    ensures IsMessage(v) <==> LooksLikeMessage(v)
  {
    HeldIff(v, "message");
    HeldIff(v, "role");
    HeldIff(v, "author");
    HeldIff(v, "speaker");
    HeldIff(v, "content");
    HeldIff(v, "text");
    HeldIff(v, "prompt");
    HeldIff(v, "completion");
    HeldIff(v, "response");
    hide Get, Holds, HoldsList, HoldsDict, HasDict;
    if Get(v, "role").Some? || Get(v, "author").Some? || Get(v, "speaker").Some? {
      assert "role" in ROLE_KEYS && "author" in ROLE_KEYS && "speaker" in ROLE_KEYS;
    }
    assert "content" in TEXT_KEYS && "text" in TEXT_KEYS && "message" in TEXT_KEYS
      && "prompt" in TEXT_KEYS && "completion" in TEXT_KEYS && "response" in TEXT_KEYS;
  }

  lemma MessageListsLookAlike(v: Value)
    requires v.Array?
    ensures IsMessageList(v) <==> v.items != [] && AllMessages(v.items)
  {
    hide IsMessage, LooksLikeMessage;
    forall i | 0 <= i < |v.items| && v.items[i].Object?
      ensures IsMessage(v.items[i]) <==> LooksLikeMessage(v.items[i])
    {
      MessagesLookAlike(v.items[i]);
    }
  }

  lemma ConversationsLookAlike(v: Value)
    requires v.Object?
    ensures LooksLikeConversation(v) <==> IsConversation(v) || IsWrapper(v)
    ensures HasList(v, "conversations") <==> IsWrapper(v)
  {
    HeldIff(v, "mapping");
    HeldIff(v, "messages");
    HeldIff(v, "conversations");
    hide Get, Holds, HoldsList, HoldsDict, HasDict, HasList;
  }

  // ----- What each gives -----

  /** `at` are the indexes of the dictionaries among `items`, in order. */
  ghost predicate AreDictionaries(items: seq<Value>, at: seq<nat>) {
    && (forall i: nat :: i in at <==> i < |items| && items[i].Object?)
    && (forall j, k :: 0 <= j < k < |at| ==> at[j] < at[k])
  }

  /** `rows` are the dictionaries among `items`, in order. */
  ghost predicate AreRowsOf(items: seq<Value>, rows: seq<Value>) {
    exists at: seq<nat> :: AreDictionaries(items, at) && AreAt(items, at, rows)
  }

  predicate AreAt(items: seq<Value>, at: seq<nat>, rows: seq<Value>) {
    |rows| == |at| && forall i :: 0 <= i < |at| ==> at[i] < |items| && rows[i] == items[at[i]]
  }

  /** What a dictionary or a list of messages gives. */
  ghost predicate Gives(u: Value, out: seq<Value>, assemble: Assemble) {
    && (u.Array? ==> out == Made(assemble(u.items)))
    && (u.Object? && IsWrapper(u) ==> forall items :: HasField(u, "conversations", Array(items)) ==> AreRowsOf(items, out))
    && (u.Object? && !IsWrapper(u) && IsConversation(u) ==> out == [u])
    && (u.Object? && !IsWrapper(u) && !IsConversation(u) && IsMessage(u) ==> out == Made(assemble([u])))
    && (u.Object? && !IsWrapper(u) && !IsConversation(u) && !IsMessage(u) ==> out == [])
  }

  function Made(c: Option<Value>): seq<Value> {
    match c case None => [] case Some(x) => [x]
  }

  lemma {:induction false} DictionariesOf(items: seq<Value>) returns (at: seq<nat>)
    ensures AreDictionaries(items, at) && AreAt(items, at, ObjectsOf(items))
    decreases |items|
  {
    if items == [] {
      return [];
    }
    hide AreDictionaries, AreAt, Shifted;
    var rest := DictionariesOf(items[1..]);
    at := (if items[0].Object? then [0] else []) + Shifted(rest);
    DictionariesShift(items, rest);
    RowsShift(items, rest, ObjectsOf(items[1..]));
    ObjectsStep(items);
  }

  lemma ObjectsStep(items: seq<Value>)
    requires items != []
    ensures ObjectsOf(items) == (if items[0].Object? then [items[0]] else []) + ObjectsOf(items[1..])
  {
  }

  function Shifted(at: seq<nat>): (r: seq<nat>)
    ensures |r| == |at| && forall i :: 0 <= i < |at| ==> r[i] == at[i] + 1
  {
    seq(|at|, i requires 0 <= i < |at| => at[i] + 1)
  }

  lemma ShiftedHolds(at: seq<nat>, i: nat)
    ensures i in Shifted(at) <==> i > 0 && i - 1 in at
  {
    if i > 0 && i - 1 in at {
      var j :| 0 <= j < |at| && at[j] == i - 1;
      assert Shifted(at)[j] == i;
    }
    if i in Shifted(at) {
      var j :| 0 <= j < |at| && Shifted(at)[j] == i;
      assert at[j] in at;
    }
  }

  lemma DictionariesShift(items: seq<Value>, rest: seq<nat>)
    requires items != [] && AreDictionaries(items[1..], rest)
    ensures AreDictionaries(items, (if items[0].Object? then [0] else []) + Shifted(rest))
  {
    var at := (if items[0].Object? then [0] else []) + Shifted(rest);
    forall i: nat ensures i in at <==> i < |items| && items[i].Object? {
      ShiftedHolds(rest, i);
      assert i > 0 ==> (i - 1 in rest <==> i - 1 < |items[1..]| && items[1..][i - 1].Object?);
    }
  }

  lemma RowsShift(items: seq<Value>, rest: seq<nat>, rows: seq<Value>)
    requires items != [] && AreAt(items[1..], rest, rows)
    ensures AreAt(items, (if items[0].Object? then [0] else []) + Shifted(rest), (if items[0].Object? then [items[0]] else []) + rows)
  {
  }

  lemma DictionaryGives(u: Value, assemble: Assemble)
    requires u.Object?
    ensures Gives(u, CoerceObject(u, assemble), assemble)
  {
    ConversationsLookAlike(u);
    MessagesLookAlike(u);
    if IsWrapper(u) {
      forall items | HasField(u, "conversations", Array(items)) ensures AreRowsOf(items, CoerceObject(u, assemble)) {
        GetIsField(u, "conversations", Array(items));
        var at := DictionariesOf(items);
      }
    }
    hide IsWrapper, IsConversation, IsMessage, LooksLikeConversation, LooksLikeMessage, HasField, Get, AreRowsOf;
  }

  // ----- Where they are -----

  /** A position in nested lists: an index into the value, into that item, and so on. */
  type Place = seq<nat>

  function At(v: Value, place: Place): Option<Value>
    decreases |place|
  {
    if place == [] then Some(v)
    else if v.Array? && place[0] < |v.items| then At(v.items[place[0]], place[1..])
    else None
  }

  /** A dictionary or a list of messages, and not inside a list of messages. */
  ghost predicate IsUnit(v: Value, place: Place) {
    var u := At(v, place);
    && u.Some? && (u.value.Object? || IsMessageList(u.value))
    && !IsInMessages(v, place)
  }

  ghost predicate IsInMessages(v: Value, place: Place) {
    exists k :: 0 <= k < |place| && At(v, place[..k]).Some? && IsMessageList(At(v, place[..k]).value)
  }

  /** Comes earlier in the text. */
  predicate Before(p: Place, q: Place) {
    q != [] && (p == [] || p[0] < q[0] || (p[0] == q[0] && Before(p[1..], q[1..])))
  }

  /** All the units there are, in order. */
  ghost predicate AreUnits(v: Value, places: seq<Place>) {
    && (forall place :: place in places <==> IsUnit(v, place))
    && InOrder(places)
  }

  predicate InOrder(places: seq<Place>) {
    forall i, j :: 0 <= i < j < |places| ==> Before(places[i], places[j])
  }

  ghost predicate AreParts(v: Value, places: seq<Place>, parts: seq<seq<Value>>, assemble: Assemble) {
    |parts| == |places|
    && forall i :: 0 <= i < |places| ==> At(v, places[i]).Some? && Gives(At(v, places[i]).value, parts[i], assemble)
  }

  lemma InsideIff(v: Value, k: nat, p: Place)
    requires v.Array? && !IsMessageList(v) && k < |v.items|
    ensures At(v, [k] + p) == At(v.items[k], p)
    ensures IsInMessages(v, [k] + p) <==> IsInMessages(v.items[k], p)
  {
    hide IsMessageList;
    var place := [k] + p;
    assert place[1..] == p;
    forall m | 0 <= m <= |p| ensures At(v, place[..m + 1]) == At(v.items[k], p[..m]) {
      assert place[..m + 1][1..] == p[..m];
    }
    if IsInMessages(v, place) {
      var n :| 0 <= n < |place| && At(v, place[..n]).Some? && IsMessageList(At(v, place[..n]).value);
      assert place[..0] == [];
      assert n > 0 && At(v, place[..n - 1 + 1]) == At(v.items[k], p[..n - 1]);
    }
    if IsInMessages(v.items[k], p) {
      var n :| 0 <= n < |p| && At(v.items[k], p[..n]).Some? && IsMessageList(At(v.items[k], p[..n]).value);
      assert At(v, place[..n + 1]) == At(v.items[k], p[..n]);
    }
  }

  lemma UnitInside(v: Value, k: nat, p: Place)
    requires v.Array? && !IsMessageList(v) && k < |v.items|
    ensures IsUnit(v, [k] + p) <==> IsUnit(v.items[k], p)
  {
    InsideIff(v, k, p);
    hide At, IsMessageList, IsInMessages;
  }

  function Under(k: nat, places: seq<Place>): (r: seq<Place>)
    ensures |r| == |places| && forall i :: 0 <= i < |places| ==> r[i] == [k] + places[i]
  {
    seq(|places|, i requires 0 <= i < |places| => [k] + places[i])
  }

  /** The units among the items from the `k`-th on. */
  ghost predicate AreUnitsFrom(v: Value, k: nat, places: seq<Place>) {
    && (forall place :: place in places <==> IsUnit(v, place) && place != [] && place[0] >= k)
    && InOrder(places)
  }

  lemma UnitsFromTheEnd(v: Value)
    requires v.Array?
    ensures AreUnitsFrom(v, |v.items|, [])
  {
    forall place: Place | place != [] && place[0] >= |v.items| ensures !IsUnit(v, place) {
      assert At(v, place) == None;
    }
  }

  lemma UnitsGrow(v: Value, k: nat, here: seq<Place>, later: seq<Place>)
    requires v.Array? && !IsMessageList(v) && k < |v.items|
    requires AreUnits(v.items[k], here) && AreUnitsFrom(v, k + 1, later)
    ensures AreUnitsFrom(v, k, Under(k, here) + later)
  {
    hide IsUnit, IsMessageList;
    var places := Under(k, here) + later;
    forall place: Place ensures place in places <==> IsUnit(v, place) && place != [] && place[0] >= k {
      if place != [] && place[0] == k {
        assert place == [k] + place[1..];
        UnitInside(v, k, place[1..]);
        if place[1..] in here {
          var i :| 0 <= i < |here| && here[i] == place[1..];
          assert Under(k, here)[i] == place;
        }
      }
      if place in Under(k, here) {
        var i :| 0 <= i < |here| && Under(k, here)[i] == place;
        assert place[1..] == here[i];
      }
    }
    forall i, j | 0 <= i < j < |places| ensures Before(places[i], places[j]) {
      if j < |here| {
        assert places[i][1..] == here[i] && places[j][1..] == here[j];
      } else {
        assert places[j] in later;
      }
    }
  }

  lemma PartsGrow(v: Value, k: nat, here: seq<Place>, later: seq<Place>, a: seq<seq<Value>>, b: seq<seq<Value>>,
                  assemble: Assemble)
    requires v.Array? && !IsMessageList(v) && k < |v.items|
    requires AreParts(v.items[k], here, a, assemble) && AreParts(v, later, b, assemble)
    ensures AreParts(v, Under(k, here) + later, a + b, assemble)
  {
    hide Gives, IsMessageList;
    forall i | 0 <= i < |here| ensures At(v, Under(k, here)[i]) == At(v.items[k], here[i]) {
      InsideIff(v, k, here[i]);
    }
  }

  lemma {:induction false} ItemsYield(v: Value, k: nat, assemble: Assemble) returns (places: seq<Place>, parts: seq<seq<Value>>)
    requires v.Array? && !IsMessageList(v) && k <= |v.items|
    ensures AreUnitsFrom(v, k, places) && AreParts(v, places, parts, assemble)
    ensures Flatten(parts) == CoerceAll(v.items[k..], assemble)
    decreases v, |v.items| - k
  {
    if k == |v.items| {
      UnitsFromTheEnd(v);
      return [], [];
    }
    var here, a := ConversionYields(v.items[k], assemble);
    var later, b := ItemsYield(v, k + 1, assemble);
    assert v.items[k..][0] == v.items[k] && v.items[k..][1..] == v.items[k + 1..];
    hide Coerce, IsMessageList, AreUnits, AreUnitsFrom, AreParts, Flatten;
    UnitsGrow(v, k, here, later);
    PartsGrow(v, k, here, later, a, b, assemble);
    FlattenConcat(a, b);
    places, parts := Under(k, here) + later, a + b;
  }

  lemma OneUnit(v: Value, part: seq<Value>, assemble: Assemble)
    requires (v.Object? || IsMessageList(v)) && Gives(v, part, assemble)
    ensures AreUnits(v, [[]]) && AreParts(v, [[]], [part], assemble) && Flatten([part]) == part
  {
    hide Gives, IsMessageList, AreUnits, AreParts, IsUnit, Flatten;
    forall place: Place ensures place in [[]] <==> IsUnit(v, place) {
      OnlyPlace(v, place);
    }
    OneInOrder(v);
    FlattenOne(part);
    OnePart(v, part, assemble);
  }

  lemma OnePart(v: Value, part: seq<Value>, assemble: Assemble)
    requires Gives(v, part, assemble)
    ensures AreParts(v, [[]], [part], assemble)
  {
    hide Gives;
  }

  lemma OneInOrder(v: Value)
    requires forall place :: place in [[]] <==> IsUnit(v, place)
    ensures AreUnits(v, [[]])
  {
    hide IsUnit;
  }

  lemma OnlyPlace(v: Value, place: Place)
    requires v.Object? || IsMessageList(v)
    ensures IsUnit(v, place) <==> place == []
  {
    hide IsMessageList;
    if place != [] {
      if IsMessageList(v) {
        assert place[..0] == [] && At(v, place[..0]) == Some(v);
      } else {
        assert At(v, place) == None;
      }
    }
  }

  lemma NoUnits(v: Value)
    requires !v.Object? && !v.Array?
    ensures AreUnits(v, [])
  {
  }

  lemma NotAUnit(v: Value, places: seq<Place>)
    requires v.Array? && !IsMessageList(v) && AreUnitsFrom(v, 0, places)
    ensures AreUnits(v, places)
  {
    hide IsMessageList;
    assert !IsUnit(v, []);
    hide IsUnit;
  }

  /** Converting a value gives what its units give, one after the other: exactly the
      dictionaries and lists of messages that stand in nested lists, but not inside a
      list of messages, each once and in the order of the text. */
  lemma {:induction false} ConversionYields(v: Value, assemble: Assemble) returns (places: seq<Place>, parts: seq<seq<Value>>)
    ensures AreUnits(v, places) && AreParts(v, places, parts, assemble)
    ensures Coerce(v, assemble) == Flatten(parts)
    decreases v
  {
    hide CoerceObject, CoerceAll, AllMessages, IsMessageList, AreUnits, AreUnitsFrom, AreParts, Flatten, LooksLikeMessage;
    if v.Object? {
      DictionaryGives(v, assemble);
      places, parts := [[]], [CoerceObject(v, assemble)];
      OneUnit(v, CoerceObject(v, assemble), assemble);
    } else if v.Array? {
      MessageListsLookAlike(v);
      if IsMessageList(v) {
        places, parts := [[]], [Made(assemble(v.items))];
        OneUnit(v, Made(assemble(v.items)), assemble);
      } else {
        places, parts := ItemsYield(v, 0, assemble);
        assert v.items[0..] == v.items;
        NotAUnit(v, places);
      }
    } else {
      places, parts := [], [];
      NoUnits(v);
      NothingGiven(v, assemble);
    }
  }

  lemma NothingGiven(v: Value, assemble: Assemble)
    ensures AreParts(v, [], [], assemble) && Flatten<Value>([]) == []
  {
  }

  // ----- Exports -----

  /** Each row is a conversation and no export itself, and they are not all messages. */
  ghost predicate ArePlainRows(rows: seq<Value>) {
    && (forall i :: 0 <= i < |rows| ==> rows[i].Object? && !IsWrapper(rows[i]) && IsConversation(rows[i]))
    && !IsMessageList(Array(rows))
  }

  lemma {:induction false} PlainRowsStay(rows: seq<Value>, assemble: Assemble)
    requires forall i :: 0 <= i < |rows| ==> rows[i].Object? && !IsWrapper(rows[i]) && IsConversation(rows[i])
    ensures CoerceAll(rows, assemble) == rows && ObjectsOf(rows) == rows
    decreases |rows|
  {
    hide IsWrapper, IsConversation, LooksLikeConversation, LooksLikeMessage, HasList;
    if rows != [] {
      ConversationsLookAlike(rows[0]);
      PlainRowsStay(rows[1..], assemble);
    }
  }

  /** An export of such rows gives what the bare list of them gives: the rows. */
  lemma WrapperIsItsRows(wrapper: Value, rows: seq<Value>, assemble: Assemble)
    requires HasField(wrapper, "conversations", Array(rows)) && ArePlainRows(rows)
    ensures Coerce(wrapper, assemble) == rows == Coerce(Array(rows), assemble)
  {
    GetIsField(wrapper, "conversations", Array(rows));
    PlainRowsStay(rows, assemble);
    MessageListsLookAlike(Array(rows));
    hide HasField, Get, IsMessageList, AllMessages, IsWrapper, IsConversation, LooksLikeConversation, LooksLikeMessage;
  }

  lemma NoArrayText(text: string)
    requires DecodeDocument(text).Got? && !DecodeDocument(text).value.Array?
    ensures ReadWhole(text) == Reading([], NotAnArray) && NoReals(ScanText(text).elements)
  {
    JsonSpaceIsSpace(text);
    var t := SkipJsonSpace(text);
    DecodableIsTrimmed(t);
    assert t[0] != '[' by {
      hide DecodeText, DecodeItems, DecodeMembers, DecodeNumber;
    }
    hide DecodeDocument, DecodeValue;
  }

  /** Every document that is no array is loaded whole. */
  lemma OtherDocumentsLoadWhole(text: string, assemble: Assemble)
    requires DecodeDocument(text).Got? && !DecodeDocument(text).value.Array?
    ensures LoadFile(text, assemble) == Loaded(Coerce(DecodeDocument(text).value, assemble), false)
  {
    NoArrayText(text);
    hide DecodeDocument, ReadChunked, ReadWhole, ScanText, NoReals, Coerce, TakesFastPath;
    ChunkSizeDoesNotMatter(text, CHUNK_SIZE);
  }

  /** A file holding an export and a file holding the list of its rows load alike. */
  lemma ExportLoadsAsItsRows(text: string, list: string, rows: seq<Value>, assemble: Assemble)
    requires DecodeDocument(text).Got? && HasField(DecodeDocument(text).value, "conversations", Array(rows))
    requires DecodeDocument(list).Got? && DecodeDocument(list).value == Array(rows)
    requires ArePlainRows(rows) && IsSafelyChunked(list)
    ensures LoadFile(text, assemble) == LoadFile(list, assemble) == Loaded(rows, false)
  {
    WrapperIsItsRows(DecodeDocument(text).value, rows, assemble);
    hide DecodeDocument, LoadFile, Coerce, IsSafelyChunked, IsWrapper, IsConversation, IsMessageList;
    OtherDocumentsLoadWhole(text, assemble);
    StreamingIsFaithful(list, assemble);
  }

  /** A file that is no array, or an array without nested lists whose numbers no chunk
      boundary breaks, loads what the units of its value give. */
  lemma LoadingYields(text: string, assemble: Assemble) returns (places: seq<Place>, parts: seq<seq<Value>>)
    requires DecodeDocument(text).Got?
    requires var v := DecodeDocument(text).value;
      v.Array? ==> IsSafelyChunked(text) && forall i :: 0 <= i < |v.items| ==> !v.items[i].Array?
    ensures var v := DecodeDocument(text).value;
      AreUnits(v, places) && AreParts(v, places, parts, assemble) && LoadFile(text, assemble) == Loaded(Flatten(parts), false)
  {
    hide DecodeDocument, LoadFile, Coerce, IsSafelyChunked, AreUnits, AreParts, Flatten;
    if DecodeDocument(text).value.Array? {
      StreamingIsFaithful(text, assemble);
    } else {
      OtherDocumentsLoadWhole(text, assemble);
    }
    places, parts := ConversionYields(DecodeDocument(text).value, assemble);
  }

  /** A streamed array goes its own way exactly if one of its first three dictionaries is
      no message; and its numbers are safe exactly if no boundary between stretches of
      1024 times 1024 characters breaks one. */
  lemma FastPathIff(text: string, objects: seq<Value>)
    requires forall i :: 0 <= i < |objects| ==> objects[i].Object?
    ensures TakesFastPath(objects) <==> exists i :: 0 <= i < 3 && i < |objects| && !IsMessage(objects[i])
    ensures IsSafelyChunked(text) <==> AreSafe(text, false, 0, 1024 * 1024)
  {
    hide IsMessage, LooksLikeMessage, AreSafe;
    forall i | 0 <= i < |objects| ensures IsMessage(objects[i]) <==> LooksLikeMessage(objects[i]) {
      MessagesLookAlike(objects[i]);
    }
    var peeked := Peeked(objects);
    assert forall i :: 0 <= i < |peeked| ==> peeked[i] == objects[i];
    if exists i :: 0 <= i < 3 && i < |objects| && !IsMessage(objects[i]) {
      var i :| 0 <= i < 3 && i < |objects| && !IsMessage(objects[i]);
      assert peeked[i] == objects[i];
    }
  }

  /** A file that is no JSON document ends in an error, and gives nothing, unless one of
      the first three dictionaries streamed is no message; then it gives what the streamed
      dictionaries give, and ends in an error exactly if the streaming does. */
  lemma MalformedLoads(text: string, assemble: Assemble)
    requires DecodeDocument(text).Fail?
    ensures var r, loaded := ReadChunked(text, CHUNK_SIZE), LoadFile(text, assemble);
      var isStreamed := exists i :: 0 <= i < 3 && i < |r.objects| && !IsMessage(r.objects[i]);
      && (!isStreamed ==> loaded == Loaded([], true))
      && (isStreamed && r.outcome == Complete ==> loaded == Loaded(CoerceAll(r.objects, assemble), false))
      && (isStreamed && r.outcome == BadPayload ==>
            loaded.failed && (loaded.conversations == CoerceAll(r.objects, assemble) || (|r.objects| < 3 && loaded.conversations == [])))
  {
    StreamedAreObjects(text, CHUNK_SIZE);
    hide DecodeDocument, ReadChunked, IsMessage, CoerceAll, TakesFastPath, AreSafe;
    FastPathIff(text, ReadChunked(text, CHUNK_SIZE).objects);
  }

  predicate AreObjects(objects: seq<Value>) {
    forall i :: 0 <= i < |objects| ==> objects[i].Object?
  }

  /** Only dictionaries are streamed. */
  lemma StreamedAreObjects(text: string, chunkSize: int)
    ensures AreObjects(ReadChunked(text, chunkSize).objects)
  {
    hide Feed, AreObjects;
    FedAreObjects([], text, chunkSize, false, false);
  }

  lemma {:induction false} DrainedAreObjects(buf: string, started: bool)
    ensures AreObjects(Drain(buf, started).objects)
    decreases |buf|
  {
    hide DecodeValue;
    var t := Trim(buf);
    if t != [] {
      if t[0] == (if started then ',' else '[') {
        DrainedAreObjects(t[1..], true);
      } else if started && t[0] != ']' && DecodeValue(t).Got? {
        DrainedAreObjects(t[DecodeValue(t).size..], true);
      }
    }
  }

  lemma PrefixedAreObjects(objects: seq<Value>, r: Reading)
    requires AreObjects(objects) && AreObjects(r.objects)
    ensures AreObjects(Prefixed(objects, r).objects)
  {
  }

  lemma {:induction false} FedAreObjects(buf: string, unread: string, chunkSize: int, started: bool, eof: bool)
    ensures AreObjects(Feed(buf, unread, chunkSize, started, eof).objects)
    decreases if eof then 0 else 1 + |unread|, |buf|
  {
    hide Drain, Prefixed, AreObjects;
    NothingAreObjects();
    var n := if eof then 0 else ReadSize(chunkSize, unread);
    var eof' := eof || n == 0;
    var buf' := buf + unread[..n];
    if buf' != [] {
      var d := Drain(buf', started);
      DrainedAreObjects(buf', started);
      if d.stop.UsedUp? || (d.stop.Stuck? && !eof') {
        FedAreObjects(d.tail, unread[n..], chunkSize, d.started, eof');
        PrefixedAreObjects(d.objects, Feed(d.tail, unread[n..], chunkSize, d.started, eof'));
      }
    }
  }

  lemma NothingAreObjects()
    ensures AreObjects([])
  {
  }
}
