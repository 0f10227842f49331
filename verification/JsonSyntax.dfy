/** How JSON values may be written (RFC 8259, sections 2, 4, 5, 6 and 7, with the
    reference decoder's NaN and Infinity): every choice a writer has, as data. */
module JsonSyntax {
  import opened Json
  import opened Options

  /** One character of a string: itself, a one-letter escape, a code unit in hex, or
      a pair of code units.  `upper` says which hex digits are capitals. */
  datatype Spelling =
    | Plain(c: char)
    | Short(letter: char)
    | Unit(u: int, upper: seq<bool>)
    | Pair(point: int, upper: seq<bool>)

  /** An exponent: its letter, its sign if any, and its digits. */
  datatype Exponent = Exponent(letter: char, sign: string, digits: string)

  datatype Syntax =
    | NullWord | TrueWord | FalseWord | NanWord | InfinityWord | MinusInfinityWord
    | Numeral(minus: bool, whole: string, fraction: string, exponent: Option<Exponent>)
    | Quoted(text: seq<Spelling>)
    | Bracketed(blank: string, items: seq<Item>)
    | Braced(blank: string, entries: seq<Entry>)

  /** A value with the white space around it. */
  datatype Item = Item(before: string, value: Syntax, after: string)

  datatype Entry = Entry(beforeKey: string, key: seq<Spelling>, afterKey: string, item: Item)

  // ----- What is allowed -----

  predicate IsBlank(s: string) {
    forall i :: 0 <= i < |s| ==> s[i] in {' ', '\t', '\n', '\r'}
  }

  predicate AreDigits(s: string) {
    forall i :: 0 <= i < |s| ==> '0' <= s[i] <= '9'
  }

  predicate IsWellSpelled(p: Spelling) {
    match p
    case Plain(c) => c != '\"' && c != '\\' && c as int >= 0x20
    case Short(letter) => letter in {'\"', '\\', '/', 'b', 'f', 'n', 'r', 't'}
    case Unit(u, upper) => 0 <= u < 0x1_0000 && |upper| == 4
    case Pair(point, upper) => 0x1_0000 <= point <= 0x10_FFFF && |upper| == 8
  }

  predicate IsHighUnit(p: Spelling) { p.Unit? && 0xD800 <= p.u < 0xDC00 }

  predicate IsLowUnit(p: Spelling) { p.Unit? && 0xDC00 <= p.u < 0xE000 }

  /** A high surrogate right before a low one would be the pair of them. */
  predicate IsText(text: seq<Spelling>) {
    && (forall i :: 0 <= i < |text| ==> IsWellSpelled(text[i]))
    && (forall i :: 0 < i < |text| ==> !(IsHighUnit(text[i - 1]) && IsLowUnit(text[i])))
  }

  predicate IsExponent(e: Exponent) {
    (e.letter == 'e' || e.letter == 'E') && e.sign in {"", "+", "-"} && e.digits != "" && AreDigits(e.digits)
  }

  predicate IsValid(x: Syntax)
    decreases x
  {
    match x
    case Numeral(_, whole, fraction, exponent) =>
      && whole != "" && AreDigits(whole) && (whole[0] == '0' ==> |whole| == 1) && AreDigits(fraction)
      && (match exponent case None => true case Some(e) => IsExponent(e))
    case Quoted(text) => IsText(text)
    case Bracketed(blank, items) => IsBlank(blank) && AreItems(items)
    case Braced(blank, entries) => IsBlank(blank) && AreEntries(entries)
    case _ => true
  }

  predicate AreItems(items: seq<Item>)
    decreases items
  {
    items == []
    || (IsBlank(items[0].before) && IsValid(items[0].value) && IsBlank(items[0].after) && AreItems(items[1..]))
  }

  predicate AreEntries(entries: seq<Entry>)
    decreases entries
  {
    entries == []
    || (var e := entries[0];
        && IsBlank(e.beforeKey) && IsText(e.key) && IsBlank(e.afterKey)
        && IsBlank(e.item.before) && IsValid(e.item.value) && IsBlank(e.item.after)
        && AreEntries(entries[1..]))
  }

  // ----- The text -----

  function HexDigit(d: int, upper: bool): char
    requires 0 <= d < 16
  {
    if upper then "0123456789ABCDEF"[d] else "0123456789abcdef"[d]
  }

  function Hex(u: int, upper: seq<bool>): string
    requires 0 <= u < 0x1_0000 && |upper| == 4
  {
    [HexDigit(u / 4096, upper[0]), HexDigit(u / 256 % 16, upper[1]), HexDigit(u / 16 % 16, upper[2]), HexDigit(u % 16, upper[3])]
  }

  function HighUnit(point: int): int { 0xD800 + (point - 0x1_0000) / 1024 }

  function LowUnit(point: int): int { 0xDC00 + (point - 0x1_0000) % 1024 }

  function Spelled(p: Spelling): string
    requires IsWellSpelled(p)
  {
    match p
    case Plain(c) => [c]
    case Short(letter) => ['\\', letter]
    case Unit(u, upper) => "\\u" + Hex(u, upper)
    case Pair(point, upper) => "\\u" + Hex(HighUnit(point), upper[..4]) + ("\\u" + Hex(LowUnit(point), upper[4..]))
  }

  /** The rest of a string, with its closing quote. */
  function PrintText(text: seq<Spelling>): string
    requires IsText(text)
  {
    if text == [] then "\"" else Spelled(text[0]) + PrintText(text[1..])
  }

  function PrintExponent(e: Option<Exponent>): string {
    match e case None => "" case Some(x) => [x.letter] + x.sign + x.digits
  }

  function PrintNumeral(x: Syntax): string
    requires x.Numeral?
  {
    (if x.minus then "-" else "") + x.whole + (if x.fraction == "" then "" else "." + x.fraction) + PrintExponent(x.exponent)
  }

  function Print(x: Syntax): string
    requires IsValid(x)
    decreases x
  {
    match x
    case NullWord => "null"
    case TrueWord => "true"
    case FalseWord => "false"
    case NanWord => "NaN"
    case InfinityWord => "Infinity"
    case MinusInfinityWord => "-Infinity"
    case Numeral(_, _, _, _) => PrintNumeral(x)
    case Quoted(text) => "\"" + PrintText(text)
    case Bracketed(blank, items) => "[" + if items == [] then blank + "]" else PrintItems(items)
    case Braced(blank, entries) => "{" + if entries == [] then blank + "}" else PrintEntries(entries)
  }

  function PrintItem(item: Item): string
    requires IsValid(item.value)
    decreases item
  {
    item.before + (Print(item.value) + item.after)
  }

  /** Items and the closing bracket. */
  function PrintItems(items: seq<Item>): string
    requires items != [] && AreItems(items)
    decreases items
  {
    PrintItem(items[0]) + if |items| == 1 then "]" else "," + PrintItems(items[1..])
  }

  function PrintEntry(e: Entry): string
    requires IsText(e.key) && IsValid(e.item.value)
    decreases e
  {
    e.beforeKey + ("\"" + (PrintText(e.key) + (e.afterKey + (":" + PrintItem(e.item)))))
  }

  function PrintEntries(entries: seq<Entry>): string
    requires entries != [] && AreEntries(entries)
    decreases entries
  {
    PrintEntry(entries[0]) + if |entries| == 1 then "}" else "," + PrintEntries(entries[1..])
  }

  // ----- The value -----

  function ShortFor(letter: char): int {
    match letter
    case '\"' => '\"' as int
    case '\\' => '\\' as int
    case '/' => '/' as int
    case 'b' => 8
    case 'f' => 12
    case 'n' => '\n' as int
    case 'r' => '\r' as int
    case _ => '\t' as int
  }

  function Denoted(p: Spelling): int {
    match p
    case Plain(c) => c as int
    case Short(letter) => ShortFor(letter)
    case Unit(u, _) => u
    case Pair(point, _) => point
  }

  function PointsOf(text: seq<Spelling>): (r: seq<int>)
    ensures |r| == |text| && forall i :: 0 <= i < |text| ==> r[i] == Denoted(text[i])
  {
    seq(|text|, i requires 0 <= i < |text| => Denoted(text[i]))
  }

  function Meaning(x: Syntax): Value
    requires IsValid(x)
    decreases x
  {
    match x
    case NullWord => Null
    case TrueWord => Bool(true)
    case FalseWord => Bool(false)
    case NanWord => NonFinite("NaN")
    case InfinityWord => NonFinite("Infinity")
    case MinusInfinityWord => NonFinite("-Infinity")
    case Numeral(_, _, fraction, exponent) => Number(PrintNumeral(x), fraction != "" || exponent.Some?)
    case Quoted(text) => String(PointsOf(text))
    case Bracketed(_, items) => Array(ItemValues(items))
    case Braced(_, entries) => Object(EntryValues(entries))
  }

  function ItemValues(items: seq<Item>): (r: seq<Value>)
    requires AreItems(items)
    ensures |r| == |items|
    decreases items
  {
    if items == [] then [] else [Meaning(items[0].value)] + ItemValues(items[1..])
  }

  function EntryValues(entries: seq<Entry>): (r: seq<Member>)
    requires AreEntries(entries)
    ensures |r| == |entries|
    decreases entries
  {
    if entries == [] then []
    else [Member(PointsOf(entries[0].key), Meaning(entries[0].item.value))] + EntryValues(entries[1..])
  }
}
