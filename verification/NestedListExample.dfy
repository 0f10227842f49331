/** A file whose streaming loses a conversation. */
module NestedListExample {
  import opened Json
  import opened JsonArrayReader
  import opened SourceLoader
  import opened Options

  predicate IsPlain(c: char) {
    c != '\"' && c != '\\' && c >= ' '
  }

  lemma {:induction false} PlainText(key: string, rest: string)
    requires forall i :: 0 <= i < |key| ==> IsPlain(key[i])
    ensures DecodeText(key + ("\"" + rest)) == GoodText(Key(key), |key| + 1)
    decreases |key|
  {
    if key == "" {
      assert key + ("\"" + rest) == "\"" + rest;
    } else {
      assert (key + ("\"" + rest))[1..] == key[1..] + ("\"" + rest);
      PlainText(key[1..], rest);
      assert Key(key) == [key[0] as int] + Key(key[1..]);
    }
  }

  lemma NoSpaceInFront(s: string)
    requires s != [] && !IsJsonSpace(s[0])
    ensures NextMark(s) == Mark(s[0], 1) && s[0..] == s && SpaceLength(s) == 0
    ensures DecodeSpaced(s) == DecodeValue(s)
  {
    hide DecodeValue;
  }

  function EmptyObject(): Value {
    Object([])
  }

  lemma EmptyObjectDecodes(rest: string)
    ensures DecodeValue("{}" + rest) == Got(EmptyObject(), 2)
  {
    assert ("{}" + rest)[1..] == "}" + rest;
    NoSpaceInFront("}" + rest);
    hide DecodeMoreMembers;
  }

  function Conversation(): Value {
    Object([Member(Key("mapping"), EmptyObject())])
  }

  lemma MemberDecodes(rest: string)
    ensures DecodeMember("\"mapping\":{}" + rest) == GoodMembers([Member(Key("mapping"), EmptyObject())], 12)
  {
    hide DecodeValue, DecodeText, DecodeSpaced, NextMark;
    var s := "\"mapping\":{}" + rest;
    NoSpaceInFront(s);
    assert s[1..] == "mapping" + ("\"" + (":{}" + rest));
    PlainText("mapping", ":{}" + rest);
    assert s[9..] == ":{}" + rest && s[10..] == "{}" + rest;
    NoSpaceInFront(s[9..]);
    NoSpaceInFront(s[10..]);
    EmptyObjectDecodes(rest);
  }

  lemma MembersDecode(rest: string)
    ensures DecodeMembers("\"mapping\":{}}" + rest)
         == GoodMembers([Member(Key("mapping"), EmptyObject())], 13)
  {
    hide DecodeMember, NextMark, EmptyObject;
    var s := "\"mapping\":{}" + ("}" + rest);
    assert "\"mapping\":{}}" + rest == s;
    MemberDecodes("}" + rest);
    NoSpaceInFront(s);
    assert s[12..] == "}" + rest;
    NoSpaceInFront("}" + rest);
    assert DecodeMoreMembers(s) == GoodMembers([Member(Key("mapping"), EmptyObject())], 13);
  }

  lemma ConversationDecodes(rest: string)
    ensures DecodeValue("{\"mapping\":{}}" + rest) == Got(Conversation(), 14)
  {
    hide DecodeMembers;
    var s := "{\"mapping\":{}}" + rest;
    assert s[1..] == "\"mapping\":{}}" + rest;
    MembersDecode(rest);
  }

  lemma LastItem(s: string, v: Value, k: nat)
    requires DecodeValue(s) == Got(v, k) && k < |s| && !IsJsonSpace(s[0]) && s[0] != ']' && s[k] == ']'
    ensures DecodeMoreItems(s) == GoodItems([v], k + 1)
  {
    hide DecodeValue, DecodeSpaced, NextMark;
    NoSpaceInFront(s);
    NoSpaceInFront(s[k..]);
  }

  lemma NextItem(s: string, v: Value, k: nat)
    requires DecodeValue(s) == Got(v, k) && k < |s| && !IsJsonSpace(s[0]) && s[0] != ']' && s[k] == ','
    ensures DecodeMoreItems(s[k + 1..]).GoodItems? ==>
      var r := DecodeMoreItems(s[k + 1..]); DecodeMoreItems(s) == GoodItems([v] + r.items, k + 1 + r.size)
  {
    hide DecodeValue, DecodeSpaced, NextMark;
    NoSpaceInFront(s);
    NoSpaceInFront(s[k..]);
  }

  lemma ArrayDecodes(s: string, items: seq<Value>, n: nat)
    requires s != [] && !IsJsonSpace(s[0]) && s[0] != ']' && DecodeMoreItems(s) == GoodItems(items, n)
    ensures DecodeValue("[" + s) == Got(Array(items), 1 + n)
  {
    hide DecodeMoreItems;
    NoSpaceInFront(s);
    assert ("[" + s)[1..] == s;
  }

  function Example(): string {
    "[{},[{\"mapping\":{}}]]"
  }

  lemma InnerDecodes(rest: string)
    ensures DecodeValue("[{\"mapping\":{}}]" + rest) == Got(Array([Conversation()]), 16)
  {
    hide DecodeValue, DecodeMoreItems, Conversation;
    var inner := "{\"mapping\":{}}" + ("]" + rest);
    ConversationDecodes("]" + rest);
    LastItem(inner, Conversation(), 14);
    ArrayDecodes(inner, [Conversation()], 15);
    assert "[{\"mapping\":{}}]" + rest == "[" + inner;
  }

  lemma ItemsDecode()
    ensures DecodeMoreItems("{},[{\"mapping\":{}}]]") == GoodItems([EmptyObject(), Array([Conversation()])], 20)
  {
    hide DecodeValue, DecodeMoreItems, Conversation, EmptyObject;
    var second := "[{\"mapping\":{}}]" + "]";
    InnerDecodes("]");
    LastItem(second, Array([Conversation()]), 16);
    var first := "{}" + ("," + second);
    EmptyObjectDecodes("," + second);
    assert first[3..] == second;
    NextItem(first, EmptyObject(), 2);
    assert first == "{},[{\"mapping\":{}}]]";
    assert [EmptyObject()] + [Array([Conversation()])] == [EmptyObject(), Array([Conversation()])];
  }

  lemma ExampleDecodes()
    ensures DecodeDocument(Example()) == Got(Array([EmptyObject(), Array([Conversation()])]), 21)
  {
    hide DecodeValue, DecodeMoreItems, Conversation, EmptyObject;
    var first := "{},[{\"mapping\":{}}]]";
    ItemsDecode();
    ArrayDecodes(first, [EmptyObject(), Array([Conversation()])], 20);
    assert Example() == "[" + first;
    NoSpaceInFront(Example());
    WholeDocument(Example(), Array([EmptyObject(), Array([Conversation()])]));
  }

  lemma WholeDocument(s: string, v: Value)
    requires s != [] && !IsJsonSpace(s[0]) && DecodeValue(s) == Got(v, |s|)
    ensures DecodeDocument(s) == Got(v, |s|)
  {
    hide DecodeValue;
    assert s[0..] == s && s[|s|..] == [];
  }

  lemma ConversationCoerces(assemble: Assemble)
    ensures !LooksLikeMessage(Conversation()) && Coerce(Conversation(), assemble) == [Conversation()]
  {
    var members := Conversation().members;
    KeysDiffer();
    assert members[..0] == [];
  }

  lemma KeyAt(s: string, i: nat)
    requires i < |s|
    ensures Key(s)[i] == s[i] as int
  {
  }

  lemma KeysDiffer()
    ensures |Key("mapping")| == 7 && |Key("conversations")| == 13 && |Key("messages")| == 8
    ensures Key("mapping") != Key("message") && |Key("role")| == 4 && |Key("author")| == 6
    ensures Key("mapping") != Key("speaker")
  {
    KeyAt("mapping", 1);
    KeyAt("message", 1);
    KeyAt("mapping", 0);
    KeyAt("speaker", 0);
    assert "mapping"[1] != "message"[1] && "mapping"[0] != "speaker"[0];
  }

  /** The fully loaded file holds a conversation, and streaming it gives none. */
  lemma NestedConversationIsLost(assemble: Assemble)
    ensures LoadWhole(Example(), assemble) == Loaded([Conversation()], false)
    ensures LoadFile(Example(), assemble) != Loaded([Conversation()], false)
  {
    hide *;
    var items := [EmptyObject(), Array([Conversation()])];
    ExampleDecodes();
    WholeCoerces(assemble);
    LoadsWholeAs(Example(), Array(items), assemble);
    ExampleIsShort();
    SafelyChunkedIf(Example());
    StreamingIsFaithfulIff(Example(), assemble);
    EmptyIsStreamed();
    NestedIsNotBarren(assemble);
  }

  lemma ExampleIsShort()
    ensures |Example()| <= CHUNK_SIZE
  {
  }

  lemma LoadsWholeAs(text: string, v: Value, assemble: Assemble)
    requires DecodeDocument(text).Got? && DecodeDocument(text).value == v
    ensures LoadWhole(text, assemble) == Loaded(Coerce(v, assemble), false)
  {
    hide DecodeDocument, Coerce;
  }

  lemma EmptyIsStreamed()
    ensures TakesFastPath(ObjectsOf([EmptyObject(), Array([Conversation()])]))
  {
    hide LooksLikeMessage, Conversation, ObjectsOf;
    EmptyIsNoMessage();
    ObjectsOfTwo(EmptyObject(), Array([Conversation()]));
    assert [EmptyObject()][0].Object?;
  }

  lemma NestedIsNotBarren(assemble: Assemble)
    ensures !NestedListsAreBarren([EmptyObject(), Array([Conversation()])], assemble)
  {
    hide Coerce, Conversation;
    NestedCoerces(assemble);
    var items := [EmptyObject(), Array([Conversation()])];
    assert items[1].Array? && Coerce(items[1], assemble) != [];
  }

  lemma ObjectsOfTwo(v: Value, w: Value)
    requires v.Object? && !w.Object?
    ensures ObjectsOf([v, w]) == [v]
  {
    assert [v, w][1..] == [w] && [w][1..] == [];
    assert ObjectsOf([w]) == [];
    assert [v] + [] == [v];
  }

  lemma EmptyIsNoMessage()
    ensures !LooksLikeMessage(EmptyObject()) && !LooksLikeConversation(EmptyObject())
  {
  }

  lemma NestedCoerces(assemble: Assemble)
    ensures Coerce(Array([Conversation()]), assemble) == [Conversation()]
  {
    ConversationCoerces(assemble);
    hide LooksLikeMessage, CoerceObject, Conversation;
    assert [Conversation()][0].Object? by { ConversationIsObject(); }
    assert [Conversation()][1..] == [];
  }

  lemma ConversationIsObject()
    ensures Conversation().Object?
  {
  }

  lemma WholeCoerces(assemble: Assemble)
    ensures Coerce(Array([EmptyObject(), Array([Conversation()])]), assemble) == [Conversation()]
  {
    var items := [EmptyObject(), Array([Conversation()])];
    NestedCoerces(assemble);
    EmptyIsNoMessage();
    hide LooksLikeMessage, LooksLikeConversation, Conversation;
    assert items[0].Object? && items[1..] == [Array([Conversation()])] && items[1..][1..] == [];
    assert !AllMessages(items);
  }
}
