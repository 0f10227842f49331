/** The JSON element decoder: the grammar of RFC 8259 (sections 2, 4, 5, 6 and 7)
    as the reference decoder reads it, including its NaN and Infinity constants.
    Each function reads a value at the front of its argument and says how much
    it consumed. */
module Json {

  /** A decoded value.  Strings are code points, because an escape may denote a
      lone surrogate; numbers keep their spelling, from which their value follows. */
  datatype Value =
    | Null
    | Bool(truth: bool)
    | Number(text: string, isReal: bool)
    | NonFinite(text: string)
    | String(points: seq<int>)
    | Array(items: seq<Value>)
    | Object(members: seq<Member>)

  datatype Member = Member(key: seq<int>, value: Value)

  datatype Decoded = Fail | Got(value: Value, size: nat)

  datatype Text = BadText | GoodText(points: seq<int>, size: nat)

  datatype Items = BadItems | GoodItems(items: seq<Value>, size: nat)

  datatype Members = BadMembers | GoodMembers(members: seq<Member>, size: nat)

  datatype Mark = NoMark | Mark(c: char, size: nat)

  // ----- Characters -----

  predicate IsJsonSpace(c: char) {
    c == ' ' || c == '\t' || c == '\n' || c == '\r'
  }

  predicate IsDigit(c: char) {
    '0' <= c <= '9'
  }

  function HexValue(c: char): int {
    if '0' <= c <= '9' then c as int - '0' as int
    else if 'a' <= c <= 'f' then c as int - 'a' as int + 10
    else if 'A' <= c <= 'F' then c as int - 'A' as int + 10
    else -1
  }

  /** The value of the four hex digits at the front, or -1. */
  function Hex4(s: string): int {
    if |s| < 4 || HexValue(s[0]) < 0 || HexValue(s[1]) < 0 || HexValue(s[2]) < 0 || HexValue(s[3]) < 0 then -1
    else ((HexValue(s[0]) * 16 + HexValue(s[1])) * 16 + HexValue(s[2])) * 16 + HexValue(s[3])
  }

  predicate IsHighSurrogate(p: int) { 0xD800 <= p <= 0xDBFF }

  predicate IsLowSurrogate(p: int) { 0xDC00 <= p <= 0xDFFF }

  function JoinSurrogates(high: int, low: int): int {
    0x1_0000 + (high - 0xD800) * 0x400 + (low - 0xDC00)
  }

  /** What a one-letter escape denotes, or -1. */
  function EscapeValue(c: char): int {
    match c
    case '\"' => 0x22
    case '\\' => 0x5C
    case '/' => 0x2F
    case 'b' => 0x08
    case 'f' => 0x0C
    case 'n' => 0x0A
    case 'r' => 0x0D
    case 't' => 0x09
    case _ => -1
  }

  function SpaceLength(s: string): (n: nat)
    ensures n <= |s|
  {
    if s != [] && IsJsonSpace(s[0]) then 1 + SpaceLength(s[1..]) else 0
  }

  function SkipJsonSpace(s: string): (r: string)
    ensures |r| <= |s|
  {
    s[SpaceLength(s)..]
  }

  // ----- Numbers -----

  function DigitsLength(s: string): (n: nat)
    ensures n <= |s|
  {
    if s != [] && IsDigit(s[0]) then 1 + DigitsLength(s[1..]) else 0
  }

  function UnsignedLength(s: string): (n: nat)
    ensures n <= |s|
  {
    if s == [] then 0 else if s[0] == '0' then 1 else DigitsLength(s)
  }

  /** Length of the integer part, with its sign; 0 where there is none. */
  function IntegerLength(s: string): (n: nat)
    ensures n <= |s|
  {
    if s != [] && s[0] == '-' then
      var n := UnsignedLength(s[1..]);
      if n == 0 then 0 else 1 + n
    else UnsignedLength(s)
  }

  /** Length of a fraction: a point and at least one digit. */
  function FractionLength(s: string): (n: nat)
    ensures n <= |s|
  {
    if s == [] || s[0] != '.' || DigitsLength(s[1..]) == 0 then 0 else 1 + DigitsLength(s[1..])
  }

  /** Length of an exponent: a letter, perhaps a sign, and at least one digit. */
  function ExponentLength(s: string): (n: nat)
    ensures n <= |s|
  {
    if s == [] || (s[0] != 'e' && s[0] != 'E') then 0
    else
      var sign := if |s| > 1 && (s[1] == '+' || s[1] == '-') then 1 else 0;
      var n := DigitsLength(s[1 + sign..]);
      if n == 0 then 0 else 1 + sign + n
  }

  function DecodeNumber(s: string): (r: Decoded)
    ensures r.Got? ==> 0 < r.size <= |s| && r.value.Number?
  {
    var i := IntegerLength(s);
    if i == 0 then Fail
    else
      var f := FractionLength(s[i..]);
      var e := ExponentLength(s[i + f..]);
      Got(Number(s[..i + f + e], f + e > 0), i + f + e)
  }

  // ----- Strings -----

  function Prepend(point: int, size: nat, rest: Text): Text {
    if rest.BadText? then BadText else GoodText([point] + rest.points, size + rest.size)
  }

  /** Reads a string whose opening quote has been read. */
  function DecodeText(s: string): (r: Text)
    ensures r.GoodText? ==> 0 < r.size <= |s|
    decreases |s|
  {
    if s == [] then BadText
    else if s[0] == '\"' then GoodText([], 1)
    else if s[0] == '\\' then
      if |s| < 2 then BadText
      else if s[1] != 'u' then
        if EscapeValue(s[1]) < 0 then BadText else Prepend(EscapeValue(s[1]), 2, DecodeText(s[2..]))
      else
        var p := Hex4(s[2..]);
        if p < 0 then BadText
        else if IsHighSurrogate(p) && "\\u" <= s[6..] then
          var q := Hex4(s[8..]);
          if q < 0 then BadText
          else if IsLowSurrogate(q) then Prepend(JoinSurrogates(p, q), 12, DecodeText(s[12..]))
          else Prepend(p, 6, DecodeText(s[6..]))
        else Prepend(p, 6, DecodeText(s[6..]))
    else if s[0] < ' ' then BadText
    else Prepend(s[0] as int, 1, DecodeText(s[1..]))
  }

  // ----- Values -----

  /** The next character that is not white space, and how far it reaches. */
  function NextMark(s: string): (r: Mark)
    ensures r.Mark? ==> 0 < r.size <= |s|
  {
    var w := SpaceLength(s);
    if w == |s| then NoMark else Mark(s[w], w + 1)
  }

  function DecodeConstant(s: string): (r: Decoded)
    ensures r.Got? ==> 0 < r.size <= |s| && !r.value.Number?
  {
    if "null" <= s then Got(Null, 4)
    else if "true" <= s then Got(Bool(true), 4)
    else if "false" <= s then Got(Bool(false), 5)
    else if "NaN" <= s then Got(NonFinite("NaN"), 3)
    else if "Infinity" <= s then Got(NonFinite("Infinity"), 8)
    else Fail
  }

  function DecodeValue(s: string): (r: Decoded)
    ensures r.Got? ==> 0 < r.size <= |s|
    decreases |s|, 0
  {
    if s == [] then Fail
    else if s[0] == '\"' then
      var t := DecodeText(s[1..]);
      if t.BadText? then Fail else Got(String(t.points), 1 + t.size)
    else if s[0] == '{' then
      var m := DecodeMembers(s[1..]);
      if m.BadMembers? then Fail else Got(Object(m.members), 1 + m.size)
    else if s[0] == '[' then
      var a := DecodeItems(s[1..]);
      if a.BadItems? then Fail else Got(Array(a.items), 1 + a.size)
    else if s[0] == '-' then
      if "Infinity" <= s[1..] then Got(NonFinite("-Infinity"), 9) else DecodeNumber(s)
    else if IsDigit(s[0]) then DecodeNumber(s)
    else DecodeConstant(s)
  }

  /** Reads a value that white space may precede. */
  function DecodeSpaced(s: string): (r: Decoded)
    ensures r.Got? ==> 0 < r.size <= |s|
    decreases |s|, 1
  {
    var w := SpaceLength(s);
    var v := DecodeValue(s[w..]);
    if v.Fail? then Fail else Got(v.value, w + v.size)
  }

  /** Reads an array whose opening bracket has been read. */
  function DecodeItems(s: string): (r: Items)
    ensures r.GoodItems? ==> 0 < r.size <= |s|
    decreases |s|, 3
  {
    var mark := NextMark(s);
    if mark.Mark? && mark.c == ']' then GoodItems([], mark.size) else DecodeMoreItems(s)
  }

  /** Reads one item and what follows it, up to the closing bracket. */
  function DecodeMoreItems(s: string): (r: Items)
    ensures r.GoodItems? ==> 0 < r.size <= |s|
    decreases |s|, 2
  {
    var v := DecodeSpaced(s);
    if v.Fail? then BadItems
    else
      var mark := NextMark(s[v.size..]);
      if mark.NoMark? then BadItems
      else if mark.c == ']' then GoodItems([v.value], v.size + mark.size)
      else if mark.c != ',' then BadItems
      else
        var r := DecodeMoreItems(s[v.size + mark.size..]);
        if r.BadItems? then BadItems else GoodItems([v.value] + r.items, v.size + mark.size + r.size)
  }

  /** Reads an object whose opening brace has been read. */
  function DecodeMembers(s: string): (r: Members)
    ensures r.GoodMembers? ==> 0 < r.size <= |s|
    decreases |s|, 4
  {
    var mark := NextMark(s);
    if mark.Mark? && mark.c == '}' then GoodMembers([], mark.size) else DecodeMoreMembers(s)
  }

  /** Reads one quoted key. */
  function DecodeKey(s: string): (r: Text)
    ensures r.GoodText? ==> 0 < r.size <= |s|
  {
    var quote := NextMark(s);
    if quote.NoMark? || quote.c != '\"' then BadText
    else
      var key := DecodeText(s[quote.size..]);
      if key.BadText? then BadText else key.(size := quote.size + key.size)
  }

  /** Reads a key, the colon and the value. */
  function DecodeMember(s: string): (r: Members)
    ensures r.GoodMembers? ==> 0 < r.size <= |s| && |r.members| == 1
    decreases |s|, 2
  {
    var key := DecodeKey(s);
    if key.BadText? then BadMembers
    else
      var colon := NextMark(s[key.size..]);
      if colon.NoMark? || colon.c != ':' then BadMembers
      else
        var v := DecodeSpaced(s[key.size + colon.size..]);
        if v.Fail? then BadMembers
        else GoodMembers([Member(key.points, v.value)], key.size + colon.size + v.size)
  }

  /** Reads one member and what follows it, up to the closing brace. */
  function DecodeMoreMembers(s: string): (r: Members)
    ensures r.GoodMembers? ==> 0 < r.size <= |s|
    decreases |s|, 3
  {
    var m := DecodeMember(s);
    if m.BadMembers? then BadMembers
    else
      var mark := NextMark(s[m.size..]);
      if mark.NoMark? then BadMembers
      else if mark.c == '}' then m.(size := m.size + mark.size)
      else if mark.c != ',' then BadMembers
      else
        var r := DecodeMoreMembers(s[m.size + mark.size..]);
        if r.BadMembers? then BadMembers else GoodMembers(m.members + r.members, m.size + mark.size + r.size)
  }

  /** Reads a whole document: one value, white space around it, nothing else. */
  function DecodeDocument(s: string): (r: Decoded)
    ensures r.Got? ==> r.size <= |s|
  {
    var t := SkipJsonSpace(s);
    var v := DecodeValue(t);
    if v.Got? && SkipJsonSpace(t[v.size..]) == [] then v else Fail
  }
}
