/** Whatever way a value is written, it is read back: value and length. */
module JsonRoundTrip {
  import opened Json
  import opened JsonPrefix
  import opened JsonChunks
  import opened JsonSyntax
  import opened Options

  // ----- Strings -----

  lemma DigitReads(d: int, upper: bool)
    requires 0 <= d < 16
    ensures HexValue(HexDigit(d, upper)) == d
  {
  }

  lemma HexReads(u: int, upper: seq<bool>, rest: string)
    requires 0 <= u < 0x1_0000 && |upper| == 4
    ensures Hex4(Hex(u, upper) + rest) == u
  {
    DigitReads(u / 4096, upper[0]);
    DigitReads(u / 256 % 16, upper[1]);
    DigitReads(u / 16 % 16, upper[2]);
    DigitReads(u % 16, upper[3]);
    DigitsMakeUp(u);
    hide HexValue, HexDigit;
    HexValues(u / 4096, u / 256 % 16, u / 16 % 16, u % 16, Hex(u, upper), rest);
  }

  lemma HexValues(a: int, b: int, c: int, d: int, hex: string, rest: string)
    requires |hex| == 4 && 0 <= a == HexValue(hex[0]) && 0 <= b == HexValue(hex[1])
    requires 0 <= c == HexValue(hex[2]) && 0 <= d == HexValue(hex[3])
    ensures Hex4(hex + rest) == ((a * 16 + b) * 16 + c) * 16 + d
  {
    hide HexValue;
  }

  lemma DigitsMakeUp(u: int)
    requires 0 <= u < 0x1_0000
    ensures 0 <= u / 4096 < 16
    ensures ((u / 4096 * 16 + u / 256 % 16) * 16 + u / 16 % 16) * 16 + u % 16 == u
  {
    assert u / 256 == u / 4096 * 16 + u / 256 % 16;
    assert u / 16 == u / 256 * 16 + u / 16 % 16;
  }

  /** A string that begins with the escape of a low surrogate. */
  predicate StartsLow(s: string) {
    "\\u" <= s && IsLowSurrogate(Hex4(s[2..]))
  }

  lemma EscapeAtFront(u: int, upper: seq<bool>, tail: string)
    requires 0 <= u < 0x1_0000 && |upper| == 4
    ensures var s := "\\u" + Hex(u, upper) + tail;
      && |s| == 6 + |tail| && s[0] == '\\' && s[1] == 'u' && "\\u" <= s
      && Hex4(s[2..]) == u && s[6..] == tail
  {
    HexReads(u, upper, tail);
    hide Hex4, HexDigit;
    var s := "\\u" + Hex(u, upper) + tail;
    assert s[2..] == Hex(u, upper) + tail;
  }

  lemma UnitReads(p: Spelling, tail: string)
    requires p.Unit? && IsWellSpelled(p) && DecodeText(tail).GoodText? && (IsHighUnit(p) ==> !StartsLow(tail))
    ensures DecodeText(Spelled(p) + tail) == Prepend(p.u, 6, DecodeText(tail))
  {
    EscapeAtFront(p.u, p.upper, tail);
    hide Hex4, Hex;
    var s := Spelled(p) + tail;
    if "\\u" <= tail {
      assert Hex4(tail[2..]) >= 0;
      assert s[8..] == tail[2..];
    }
  }

  lemma PairUnits(point: int)
    requires 0x1_0000 <= point <= 0x10_FFFF
    ensures IsHighSurrogate(HighUnit(point)) && IsLowSurrogate(LowUnit(point))
    ensures JoinSurrogates(HighUnit(point), LowUnit(point)) == point
  {
  }

  lemma PairReads(p: Spelling, tail: string)
    requires p.Pair? && IsWellSpelled(p) && DecodeText(tail).GoodText?
    ensures DecodeText(Spelled(p) + tail) == Prepend(p.point, 12, DecodeText(tail))
  {
    hide *;
    PairSpelled(p, tail);
    var low := "\\u" + Hex(LowUnit(p.point), p.upper[4..]) + tail;
    EscapeAtFront(LowUnit(p.point), p.upper[4..], tail);
    EscapeAtFront(HighUnit(p.point), p.upper[..4], low);
    PairStep(Spelled(p) + tail, low, HighUnit(p.point), LowUnit(p.point), tail);
  }

  lemma PairSpelled(p: Spelling, tail: string)
    requires p.Pair? && IsWellSpelled(p)
    ensures |p.upper| == 8 && IsHighSurrogate(HighUnit(p.point)) && IsLowSurrogate(LowUnit(p.point))
    ensures 0 <= HighUnit(p.point) < 0x1_0000 && 0 <= LowUnit(p.point) < 0x1_0000
    ensures JoinSurrogates(HighUnit(p.point), LowUnit(p.point)) == p.point
    ensures var low := "\\u" + Hex(LowUnit(p.point), p.upper[4..]) + tail;
      Spelled(p) + tail == "\\u" + Hex(HighUnit(p.point), p.upper[..4]) + low
  {
    PairUnits(p.point);
    hide Hex, HighUnit, LowUnit, JoinSurrogates;
  }

  lemma PairStep(s: string, low: string, high: int, q: int, tail: string)
    requires |s| == 6 + |low| && |low| == 6 + |tail| && s[0] == '\\' && s[1] == 'u' && "\\u" <= low
    requires Hex4(s[2..]) == high && s[6..] == low && Hex4(low[2..]) == q && low[6..] == tail
    requires IsHighSurrogate(high) && IsLowSurrogate(q) && DecodeText(tail).GoodText?
    ensures DecodeText(s) == Prepend(JoinSurrogates(high, q), 12, DecodeText(tail))
  {
    hide Hex4, JoinSurrogates;
    assert s[8..] == low[2..] && s[12..] == low[6..];
  }

  lemma SpellingReads(p: Spelling, tail: string)
    requires IsWellSpelled(p) && DecodeText(tail).GoodText? && (IsHighUnit(p) ==> !StartsLow(tail))
    ensures DecodeText(Spelled(p) + tail) == Prepend(Denoted(p), |Spelled(p)|, DecodeText(tail))
  {
    var s := Spelled(p) + tail;
    match p
    case Plain(c) =>
      assert s[0] == c && s[1..] == tail;
    case Short(letter) =>
      assert s[0] == '\\' && s[1] == letter && s[2..] == tail;
    case Unit(u, upper) => UnitReads(p, tail);
    case Pair(point, upper) => PairReads(p, tail);
  }

  lemma FrontIsLowUnit(text: seq<Spelling>, rest: string)
    requires IsText(text)
    ensures StartsLow(PrintText(text) + rest) ==> text != [] && IsLowUnit(text[0])
  {
    hide Hex4, Hex, DecodeText;
    if text == [] {
      assert (PrintText(text) + rest)[0] == '\"';
    } else {
      TextInFront(text, rest);
      hide PrintText, IsText;
      FrontIsLow(text[0], PrintText(text[1..]) + rest);
    }
  }

  lemma TextInFront(text: seq<Spelling>, rest: string)
    requires IsText(text) && text != []
    ensures IsText(text[1..]) && IsWellSpelled(text[0])
    ensures PrintText(text) + rest == Spelled(text[0]) + (PrintText(text[1..]) + rest)
  {
    hide Spelled;
  }

  lemma FrontIsLow(p: Spelling, tail: string)
    requires IsWellSpelled(p)
    ensures StartsLow(Spelled(p) + tail) ==> IsLowUnit(p)
  {
    hide Hex4, Hex;
    match p
    case Plain(c) => assert (Spelled(p) + tail)[0] == c;
    case Short(letter) => assert (Spelled(p) + tail)[1] == letter;
    case Unit(u, upper) => EscapeAtFront(u, upper, tail);
    case Pair(point, upper) => PairStartsHigh(p, tail);
  }

  lemma PairStartsHigh(p: Spelling, tail: string)
    requires p.Pair? && IsWellSpelled(p)
    ensures !StartsLow(Spelled(p) + tail)
  {
    hide Hex4, Hex, HighUnit, LowUnit, JoinSurrogates, Spelled, IsWellSpelled;
    PairSpelled(p, tail);
    var low := "\\u" + Hex(LowUnit(p.point), p.upper[4..]) + tail;
    EscapeAtFront(HighUnit(p.point), p.upper[..4], low);
  }

  lemma {:induction false} TextReads(text: seq<Spelling>, rest: string)
    requires IsText(text)
    ensures DecodeText(PrintText(text) + rest) == GoodText(PointsOf(text), |PrintText(text)|)
    decreases |text|
  {
    hide *;
    if text == [] {
      NoTextReads(rest);
    } else {
      var p, later := text[0], text[1..];
      TextInFront(text, rest);
      TextReads(later, rest);
      FrontIsLowUnit(later, rest);
      HighThenLow(text);
      SpellingReads(p, PrintText(later) + rest);
      PrependsTo(Denoted(p), |Spelled(p)|, DecodeText(PrintText(later) + rest));
    }
  }

  lemma NoTextReads(rest: string)
    ensures DecodeText(PrintText([]) + rest) == GoodText(PointsOf([]), |PrintText([])|)
  {
    assert (PrintText([]) + rest)[0] == '\"';
  }

  lemma HighThenLow(text: seq<Spelling>)
    requires IsText(text) && text != []
    ensures IsHighUnit(text[0]) && |text| > 1 ==> !IsLowUnit(text[1..][0])
    ensures PointsOf(text) == [Denoted(text[0])] + PointsOf(text[1..])
    ensures |PrintText(text)| == |Spelled(text[0])| + |PrintText(text[1..])|
  {
    hide IsWellSpelled, Spelled, Denoted;
    if |text| > 1 {
      assert !(IsHighUnit(text[1 - 1]) && IsLowUnit(text[1]));
    }
  }

  lemma PrependsTo(point: int, size: nat, rest: Text)
    requires rest.GoodText?
    ensures Prepend(point, size, rest) == GoodText([point] + rest.points, size + rest.size)
  {
  }

  // ----- Numbers -----

  /** What may stand behind a value: behind a number, nothing that could be more of it. */
  predicate MayFollow(x: Syntax, rest: string) {
    x.Numeral? && rest != "" ==> !('0' <= rest[0] <= '9') && rest[0] !in {'.', 'e', 'E'}
  }

  lemma {:induction false} DigitsRead(digits: string, rest: string)
    requires AreDigits(digits) && (rest == "" || !IsDigit(rest[0]))
    ensures DigitsLength(digits + rest) == |digits|
    decreases |digits|
  {
    if digits == "" {
      assert digits + rest == rest;
    } else {
      assert (digits + rest)[1..] == digits[1..] + rest;
      DigitsRead(digits[1..], rest);
    }
  }

  lemma WholeReads(minus: bool, whole: string, rest: string)
    requires whole != "" && AreDigits(whole) && (whole[0] == '0' ==> |whole| == 1) && (rest == "" || !IsDigit(rest[0]))
    ensures var sign := if minus then "-" else "";
      IntegerLength(sign + whole + rest) == |sign| + |whole|
  {
    DigitsRead(whole, rest);
    var s := whole + rest;
    assert s[0] == whole[0] && UnsignedLength(s) == |whole|;
    if minus {
      assert "-" + whole + rest == "-" + s && ("-" + s)[1..] == s;
    } else {
      assert "" + whole + rest == s;
      assert '0' <= s[0] <= '9';
    }
  }

  lemma FractionReads(fraction: string, rest: string)
    requires AreDigits(fraction) && (rest == "" || (!IsDigit(rest[0]) && rest[0] != '.'))
    ensures var f := if fraction == "" then "" else "." + fraction;
      FractionLength(f + rest) == |f|
  {
    if fraction == "" {
      assert "" + rest == rest;
    } else {
      DigitsRead(fraction, rest);
      var s := "." + fraction + rest;
      assert s[0] == '.' && s[1..] == fraction + rest;
    }
  }

  lemma ExponentReads(e: Option<Exponent>, rest: string)
    requires e.Some? ==> IsExponent(e.value)
    requires rest == "" || (!IsDigit(rest[0]) && rest[0] != 'e' && rest[0] != 'E')
    ensures ExponentLength(PrintExponent(e) + rest) == |PrintExponent(e)|
  {
    if e.None? {
      assert "" + rest == rest;
    } else {
      ExponentInFront(e.value, rest);
      DigitsRead(e.value.digits, rest);
      hide DigitsLength, ExponentLength, AreDigits;
      ExponentStep(PrintExponent(e) + rest, |e.value.sign|);
    }
  }

  lemma ExponentInFront(x: Exponent, rest: string)
    requires IsExponent(x)
    ensures var s := PrintExponent(Some(x)) + rest;
      && s[0] == x.letter && |s| > 1 && s[1] == (if x.sign == "" then x.digits[0] else x.sign[0])
      && 1 + |x.sign| <= |s| && s[1 + |x.sign|..] == x.digits + rest
      && |PrintExponent(Some(x))| == 1 + |x.sign| + |x.digits|
      && '0' <= x.digits[0] <= '9'
  {
    hide AreDigits, IsExponent;
    ExponentIs(x);
    ThreeInFront(x.letter, x.sign, x.digits, rest);
  }

  lemma ExponentIs(x: Exponent)
    requires IsExponent(x)
    ensures |x.sign| <= 1 && x.digits != "" && '0' <= x.digits[0] <= '9'
  {
  }

  lemma ThreeInFront(a: char, b: string, c: string, d: string)
    requires c != ""
    ensures var s := [a] + b + c + d;
      && s[0] == a && s[1] == (if b == "" then c[0] else b[0]) && s[1 + |b|..] == c + d
  {
    assert [a] + b + c + d == [a] + (b + (c + d));
  }

  lemma ExponentStep(s: string, k: nat)
    requires |s| > 1 && k <= 1 && (s[0] == 'e' || s[0] == 'E')
    requires if k == 0 then '0' <= s[1] <= '9' else s[1] == '+' || s[1] == '-'
    requires DigitsLength(s[1 + k..]) > 0
    ensures ExponentLength(s) == 1 + k + DigitsLength(s[1 + k..])
  {
    hide DigitsLength;
  }

  /** A fraction and an exponent begin with a point or a letter, if there are any. */
  lemma ExponentStarts(x: Syntax, rest: string)
    requires x.Numeral? && IsValid(x) && MayFollow(x, rest)
    ensures var s := PrintExponent(x.exponent) + rest; s == "" || (!IsDigit(s[0]) && s[0] != '.')
  {
    if x.exponent.Some? {
      var s := PrintExponent(x.exponent) + rest;
      assert s[0] == x.exponent.value.letter;
    } else {
      assert "" + rest == rest;
    }
  }

  lemma FractionStarts(x: Syntax, rest: string)
    requires x.Numeral? && IsValid(x) && MayFollow(x, rest)
    ensures var f := if x.fraction == "" then "" else "." + x.fraction;
      var s := f + (PrintExponent(x.exponent) + rest); s == "" || !IsDigit(s[0])
  {
    ExponentStarts(x, rest);
    hide PrintExponent;
    var t := PrintExponent(x.exponent) + rest;
    assert "" + t == t;
  }

  lemma NumeralParts(x: Syntax, rest: string)
    requires x.Numeral? && IsValid(x) && MayFollow(x, rest)
    ensures var i := |(if x.minus then "-" else "")| + |x.whole|;
      var f := |(if x.fraction == "" then "" else "." + x.fraction)|;
      var e := |PrintExponent(x.exponent)|;
      HasParts(PrintNumeral(x) + rest, i, f, e) && |PrintNumeral(x)| == i + f + e
  {
    hide *;
    FractionStarts(x, rest);
    ExponentStarts(x, rest);
    NumeralIsValid(x, rest);
    var f := if x.fraction == "" then "" else "." + x.fraction;
    var e := PrintExponent(x.exponent);
    WholeReads(x.minus, x.whole, f + (e + rest));
    FractionReads(x.fraction, e + rest);
    ExponentReads(x.exponent, rest);
    PartsAre(if x.minus then "-" else "", x.whole, f, e, rest);
  }

  lemma NumeralIsValid(x: Syntax, rest: string)
    requires x.Numeral? && IsValid(x) && MayFollow(x, rest)
    ensures x.whole != "" && AreDigits(x.whole) && (x.whole[0] == '0' ==> |x.whole| == 1) && AreDigits(x.fraction)
    ensures x.exponent.Some? ==> IsExponent(x.exponent.value)
    ensures rest == "" || (!IsDigit(rest[0]) && rest[0] != 'e' && rest[0] != 'E')
    ensures var f := if x.fraction == "" then "" else "." + x.fraction;
      PrintNumeral(x) == (if x.minus then "-" else "") + x.whole + f + PrintExponent(x.exponent)
  {
    hide AreDigits, IsExponent, PrintExponent;
  }

  lemma PartsInFront(sign: string, whole: string, f: string, e: string, rest: string)
    ensures var s := sign + whole + f + e + rest;
      && s == sign + whole + (f + (e + rest)) && |s| == |sign| + |whole| + |f| + |e| + |rest|
      && s[|sign| + |whole|..] == f + (e + rest) && s[|sign| + |whole| + |f|..] == e + rest
  {
  }

  lemma PartsAre(sign: string, whole: string, f: string, e: string, rest: string)
    requires whole != "" && IntegerLength(sign + whole + (f + (e + rest))) == |sign| + |whole|
    requires FractionLength(f + (e + rest)) == |f| && ExponentLength(e + rest) == |e|
    ensures HasParts(sign + whole + f + e + rest, |sign| + |whole|, |f|, |e|)
  {
    hide IntegerLength, FractionLength, ExponentLength;
    PartsInFront(sign, whole, f, e, rest);
  }

  lemma NumeralStarts(x: Syntax, rest: string)
    requires x.Numeral? && IsValid(x)
    ensures StartsNumber(PrintNumeral(x) + rest)
  {
    hide PrintExponent;
    var s := PrintNumeral(x) + rest;
    if x.minus {
      assert s[0] == '-' && s[1] == x.whole[0];
    } else {
      assert s[0] == x.whole[0];
    }
  }

  lemma NumeralReads(x: Syntax, rest: string)
    requires x.Numeral? && IsValid(x) && MayFollow(x, rest)
    ensures DecodeValue(PrintNumeral(x) + rest) == Got(Meaning(x), |PrintNumeral(x)|)
  {
    hide DecodeValue, HasParts, StartsNumber, PrintNumeral, DecodeNumber;
    var s := PrintNumeral(x) + rest;
    NumeralParts(x, rest);
    NumeralStarts(x, rest);
    NumberDecodes(s);
    var i := |(if x.minus then "-" else "")| + |x.whole|;
    var f := |(if x.fraction == "" then "" else "." + x.fraction)|;
    var e := |PrintExponent(x.exponent)|;
    PartsDecode(s, i, f, e);
    assert s[..i + f + e] == PrintNumeral(x);
    ExponentIsThere(x.exponent);
  }

  lemma ExponentIsThere(e: Option<Exponent>)
    ensures PrintExponent(e) != "" <==> e.Some?
  {
  }

  // ----- Values -----

  lemma {:induction false} BlankReads(blank: string, s: string)
    requires IsBlank(blank) && s != "" && !IsJsonSpace(s[0])
    ensures SpaceLength(blank + s) == |blank| && (blank + s)[|blank|..] == s
    decreases |blank|
  {
    if blank == "" {
      assert blank + s == s;
    } else {
      assert (blank + s)[1..] == blank[1..] + s;
      BlankReads(blank[1..], s);
    }
  }

  /** A mark behind white space. */
  lemma MarkReads(blank: string, c: char, rest: string)
    requires IsBlank(blank) && !IsJsonSpace(c)
    ensures var s := blank + ([c] + rest);
      NextMark(s) == Mark(c, |blank| + 1) && s[|blank| + 1..] == rest
  {
    BlankReads(blank, [c] + rest);
    var s := blank + ([c] + rest);
    assert s[|blank|..][0] == c;
  }

  /** What a value's text begins with: no white space, no closing mark. */
  lemma PrintStarts(x: Syntax)
    requires IsValid(x)
    ensures Print(x) != "" && !IsJsonSpace(Print(x)[0]) && Print(x)[0] != ']' && Print(x)[0] != '}'
  {
    if x.Numeral? {
      NumeralStarts(x, "");
      assert PrintNumeral(x) + "" == PrintNumeral(x);
    }
    hide PrintNumeral, PrintText, PrintItems, PrintEntries;
  }

  lemma SpacedReads(before: string, x: Syntax, rest: string)
    requires IsBlank(before) && IsValid(x)
    requires DecodeValue(Print(x) + rest) == Got(Meaning(x), |Print(x)|)
    ensures DecodeSpaced(before + (Print(x) + rest)) == Got(Meaning(x), |before| + |Print(x)|)
    ensures NextMark(before + (Print(x) + rest)) == Mark(Print(x)[0], |before| + 1)
    ensures Print(x)[0] != ']' && Print(x)[0] != '}'
  {
    PrintStarts(x);
    hide Print, Meaning, DecodeValue;
    var s := Print(x) + rest;
    assert s[0] == Print(x)[0];
    BlankReads(before, s);
    assert (before + s)[|before|] == s[0];
  }

  lemma WordReads(x: Syntax, rest: string)
    requires x.NullWord? || x.TrueWord? || x.FalseWord? || x.NanWord? || x.InfinityWord? || x.MinusInfinityWord?
    ensures DecodeValue(Print(x) + rest) == Got(Meaning(x), |Print(x)|)
  {
    hide DecodeText, DecodeMembers, DecodeItems, DecodeNumber;
    var s := Print(x) + rest;
    assert Print(x) <= s && s[0] == Print(x)[0];
    if x.MinusInfinityWord? {
      assert s[1..] == "Infinity" + rest;
    }
  }

  lemma QuotedReads(x: Syntax, rest: string)
    requires x.Quoted? && IsValid(x)
    ensures DecodeValue(Print(x) + rest) == Got(Meaning(x), |Print(x)|)
  {
    hide *;
    QuotedIs(x);
    TextReads(x.text, rest);
    var t := PrintText(x.text) + rest;
    TextOpens(t);
    assert "\"" + PrintText(x.text) + rest == "\"" + t;
  }

  lemma QuotedIs(x: Syntax)
    requires x.Quoted? && IsValid(x)
    ensures IsText(x.text) && Print(x) == "\"" + PrintText(x.text) && Meaning(x) == String(PointsOf(x.text))
  {
    hide IsText, PrintText, PointsOf;
  }

  lemma TextOpens(t: string)
    requires DecodeText(t).GoodText?
    ensures DecodeValue("\"" + t) == Got(String(DecodeText(t).points), 1 + DecodeText(t).size)
  {
    hide DecodeText;
    assert ("\"" + t)[1..] == t;
  }

  lemma {:induction false} BracketedReads(x: Syntax, rest: string)
    requires x.Bracketed? && IsValid(x)
    ensures DecodeValue(Print(x) + rest) == Got(Meaning(x), |Print(x)|)
    decreases x, 0
  {
    hide DecodeMoreItems, NextMark, PrintItems, ItemValues, IsBlank, AreItems;
    var s := Print(x) + rest;
    if x.items == [] {
      MarkReads(x.blank, ']', rest);
      assert s[1..] == x.blank + ([']'] + rest);
      NoItems();
    } else {
      assert s[1..] == PrintItems(x.items) + rest;
      ItemsRead(x.items, rest);
    }
  }

  lemma NoItems()
    ensures ItemValues([]) == [] && EntryValues([]) == []
  {
  }

  /** At the front of `s` a value of length `n`, then the mark, then `tail`. */
  predicate ItemAt(s: string, v: Value, n: nat, mark: Mark, tail: string) {
    && DecodeSpaced(s) == Got(v, n)
    && NextMark(s[n..]) == mark && mark.Mark? && s[n + mark.size..] == tail
    && NextMark(s).Mark? && NextMark(s).c != ']' && NextMark(s).c != '}'
  }

  lemma MoreItemsStep(s: string, v: Value, n: nat, mark: Mark, tail: string)
    requires ItemAt(s, v, n, mark, tail) && mark.Mark?
    ensures NextMark(s).Mark? && NextMark(s).c != ']'
    ensures mark.c == ']' ==> DecodeMoreItems(s) == GoodItems([v], n + mark.size)
    ensures var r := DecodeMoreItems(tail);
      mark.c == ',' && r.GoodItems? ==> DecodeMoreItems(s) == GoodItems([v] + r.items, n + mark.size + r.size)
  {
    hide DecodeSpaced, NextMark;
  }

  lemma ItemValuesStep(items: seq<Item>)
    requires items != [] && AreItems(items)
    ensures ItemValues(items) == [Meaning(items[0].value)] + ItemValues(items[1..])
    ensures |items| == 1 ==> ItemValues(items) == [Meaning(items[0].value)]
  {
    hide Meaning;
  }

  /** An item, the mark behind it, and what follows. */
  function Written(item: Item, mark: char, tail: string): string
    requires IsValid(item.value)
  {
    item.before + (Print(item.value) + (item.after + ([mark] + tail)))
  }

  /** Items, up to the closing bracket. */
  lemma {:induction false} ItemsRead(items: seq<Item>, rest: string)
    requires items != [] && AreItems(items)
    ensures var s := PrintItems(items) + rest;
      && DecodeMoreItems(s) == GoodItems(ItemValues(items), |PrintItems(items)|)
      && NextMark(s).Mark? && NextMark(s).c != ']'
    decreases items, 1
  {
    hide *;
    FirstItem(items);
    ItemReads(items[0], if |items| == 1 then ']' else ',', ItemsTail(items, rest));
    if |items| > 1 {
      ItemsRead(items[1..], rest);
    }
    ItemsStep(items, rest);
  }

  /** What follows the first item and its mark. */
  function ItemsTail(items: seq<Item>, rest: string): string
    requires items != [] && AreItems(items)
  {
    if |items| == 1 then rest else PrintItems(items[1..]) + rest
  }

  lemma ItemsTailIs(items: seq<Item>, rest: string)
    requires items != [] && AreItems(items)
    ensures AreItems(items[1..])
    ensures ItemsTail(items, rest) == if |items| == 1 then rest else PrintItems(items[1..]) + rest
  {
    hide PrintItems;
  }

  lemma FirstItem(items: seq<Item>)
    requires items != [] && AreItems(items)
    ensures IsBlank(items[0].before) && IsValid(items[0].value) && IsBlank(items[0].after) && AreItems(items[1..])
  {
  }

  lemma ItemsStep(items: seq<Item>, rest: string)
    requires items != [] && AreItems(items) && IsValid(items[0].value) && AreItems(items[1..])
    requires var item, mark := items[0], if |items| == 1 then ']' else ',';
      ItemAt(Written(item, mark, ItemsTail(items, rest)), Meaning(item.value), |item.before| + |Print(item.value)|,
             Mark(mark, |item.after| + 1), ItemsTail(items, rest))
    requires |items| > 1 ==>
      DecodeMoreItems(PrintItems(items[1..]) + rest) == GoodItems(ItemValues(items[1..]), |PrintItems(items[1..])|)
    ensures var s := PrintItems(items) + rest;
      && DecodeMoreItems(s) == GoodItems(ItemValues(items), |PrintItems(items)|)
      && NextMark(s).Mark? && NextMark(s).c != ']'
  {
    hide *;
    var item, mark, tail := items[0], if |items| == 1 then ']' else ',', ItemsTail(items, rest);
    ItemsTailIs(items, rest);
    ItemIsThere(items, rest, mark, tail);
    ItemValuesStep(items);
    MoreItemsStep(Written(item, mark, tail), Meaning(item.value), |item.before| + |Print(item.value)|,
      Mark(mark, |item.after| + 1), tail);
  }

  lemma ItemIsThere(items: seq<Item>, rest: string, mark: char, tail: string)
    requires items != [] && AreItems(items)
    requires mark == if |items| == 1 then ']' else ','
    requires tail == if |items| == 1 then rest else PrintItems(items[1..]) + rest
    ensures var item := items[0];
      && PrintItems(items) + rest == Written(item, mark, tail)
      && |PrintItems(items)| == |item.before| + |Print(item.value)| + |item.after| + 1
           + if |items| == 1 then 0 else |PrintItems(items[1..])|
  {
    hide *;
    FirstItem(items);
    var item := items[0];
    var later := if |items| == 1 then "" else PrintItems(items[1..]);
    ItemsPrinted(items, mark, later);
    WrittenIs(item, mark, tail);
    Nested(item.before, Print(item.value), item.after, [mark] + later, rest);
    assert ([mark] + later) + rest == [mark] + tail;
  }

  lemma ItemsPrinted(items: seq<Item>, mark: char, later: string)
    requires items != [] && AreItems(items) && IsValid(items[0].value) && AreItems(items[1..])
    requires mark == (if |items| == 1 then ']' else ',') && later == if |items| == 1 then "" else PrintItems(items[1..])
    ensures var item := items[0];
      PrintItems(items) == item.before + (Print(item.value) + item.after) + ([mark] + later)
  {
    hide Print;
  }

  lemma WrittenIs(item: Item, mark: char, tail: string)
    requires IsValid(item.value)
    ensures Written(item, mark, tail) == item.before + (Print(item.value) + (item.after + ([mark] + tail)))
    ensures PrintItem(item) == item.before + (Print(item.value) + item.after)
  {
    hide Print;
  }

  lemma Nested(a: string, b: string, c: string, d: string, e: string)
    ensures (a + (b + c) + d) + e == a + (b + (c + (d + e)))
  {
  }

  /** An item and the mark behind it. */
  lemma {:induction false} ItemReads(item: Item, mark: char, tail: string)
    requires IsBlank(item.before) && IsValid(item.value) && IsBlank(item.after) && mark in {',', ']', '}'}
    ensures
      ItemAt(Written(item, mark, tail), Meaning(item.value), |item.before| + |Print(item.value)|,
             Mark(mark, |item.after| + 1), tail)
    decreases item
  {
    hide *;
    MarkFollows(item, mark, tail);
    Reads(item.value, item.after + ([mark] + tail));
    ItemStep(item, mark, tail);
  }

  lemma MarkFollows(item: Item, mark: char, tail: string)
    requires IsBlank(item.after) && mark in {',', ']', '}'}
    ensures MayFollow(item.value, item.after + ([mark] + tail)) && !IsJsonSpace(mark)
  {
    var behind := item.after + ([mark] + tail);
    assert behind[0] == if item.after == "" then mark else item.after[0];
  }

  lemma ItemStep(item: Item, mark: char, tail: string)
    requires IsBlank(item.before) && IsValid(item.value) && IsBlank(item.after) && !IsJsonSpace(mark)
    requires DecodeValue(Print(item.value) + (item.after + ([mark] + tail))) == Got(Meaning(item.value), |Print(item.value)|)
    ensures
      ItemAt(Written(item, mark, tail), Meaning(item.value), |item.before| + |Print(item.value)|,
             Mark(mark, |item.after| + 1), tail)
  {
    hide DecodeSpaced, NextMark, Print, Meaning, IsBlank, DecodeValue, IsValid;
    SpacedReads(item.before, item.value, item.after + ([mark] + tail));
    MarkReads(item.after, mark, tail);
    WrittenBehind(item, mark, tail);
  }

  lemma WrittenBehind(item: Item, mark: char, tail: string)
    requires IsValid(item.value)
    ensures var s, n := Written(item, mark, tail), |item.before| + |Print(item.value)|;
      && |s| == n + |item.after| + 1 + |tail|
      && s[n..] == item.after + ([mark] + tail)
      && s[n + (|item.after| + 1)..] == tail
  {
    hide Print, IsValid;
  }

  lemma {:induction false} BracedReads(x: Syntax, rest: string)
    requires x.Braced? && IsValid(x)
    ensures DecodeValue(Print(x) + rest) == Got(Meaning(x), |Print(x)|)
    decreases x, 0
  {
    hide DecodeMoreMembers, NextMark, PrintEntries, EntryValues, IsBlank, AreEntries;
    var s := Print(x) + rest;
    if x.entries == [] {
      MarkReads(x.blank, '}', rest);
      assert s[1..] == x.blank + (['}'] + rest);
      NoItems();
    } else {
      assert s[1..] == PrintEntries(x.entries) + rest;
      EntriesRead(x.entries, rest);
    }
  }

  /** At the front of `s` a member of length `n`, then the mark, then `tail`. */
  predicate MemberAt(s: string, m: Member, n: nat, mark: Mark, tail: string) {
    && DecodeMember(s) == GoodMembers([m], n)
    && NextMark(s[n..]) == mark && mark.Mark? && s[n + mark.size..] == tail
    && NextMark(s).Mark? && NextMark(s).c != '}'
  }

  lemma MoreMembersStep(s: string, m: Member, n: nat, mark: Mark, tail: string)
    requires MemberAt(s, m, n, mark, tail) && mark.Mark?
    ensures NextMark(s).Mark? && NextMark(s).c != '}'
    ensures mark.c == '}' ==> DecodeMoreMembers(s) == GoodMembers([m], n + mark.size)
    ensures var r := DecodeMoreMembers(tail);
      mark.c == ',' && r.GoodMembers? ==> DecodeMoreMembers(s) == GoodMembers([m] + r.members, n + mark.size + r.size)
  {
    hide DecodeMember, NextMark, DecodeMoreMembers;
    if mark.c == '}' {
      LastMember(s, m, n, mark);
    } else if mark.c == ',' && DecodeMoreMembers(tail).GoodMembers? {
      MemberThenMore(s, m, n, mark, tail);
    }
  }

  lemma LastMember(s: string, m: Member, n: nat, mark: Mark)
    requires DecodeMember(s) == GoodMembers([m], n) && NextMark(s[n..]) == mark && mark.Mark? && mark.c == '}'
    ensures DecodeMoreMembers(s) == GoodMembers([m], n + mark.size)
  {
    hide DecodeMember, NextMark;
  }

  lemma MemberThenMore(s: string, m: Member, n: nat, mark: Mark, tail: string)
    requires DecodeMember(s) == GoodMembers([m], n) && NextMark(s[n..]) == mark && mark.Mark? && mark.c == ','
    requires s[n + mark.size..] == tail && DecodeMoreMembers(tail).GoodMembers?
    ensures var r := DecodeMoreMembers(tail);
      DecodeMoreMembers(s) == GoodMembers([m] + r.members, n + mark.size + r.size)
  {
    hide DecodeMember, NextMark;
  }

  lemma EntryValuesStep(entries: seq<Entry>)
    requires entries != [] && AreEntries(entries)
    ensures var m := Member(PointsOf(entries[0].key), Meaning(entries[0].item.value));
      && EntryValues(entries) == [m] + EntryValues(entries[1..])
      && (|entries| == 1 ==> EntryValues(entries) == [m])
  {
    hide Meaning, PointsOf;
  }

  /** Members, up to the closing brace. */
  lemma {:induction false} EntriesRead(entries: seq<Entry>, rest: string)
    requires entries != [] && AreEntries(entries)
    ensures var s := PrintEntries(entries) + rest;
      && DecodeMoreMembers(s) == GoodMembers(EntryValues(entries), |PrintEntries(entries)|)
      && NextMark(s).Mark? && NextMark(s).c != '}'
    decreases entries, 1
  {
    hide *;
    FirstEntry(entries);
    EntryReads(entries[0], if |entries| == 1 then '}' else ',', EntriesTail(entries, rest));
    if |entries| > 1 {
      EntriesRead(entries[1..], rest);
    }
    EntriesStep(entries, rest);
  }

  /** What follows the first member and its mark. */
  function EntriesTail(entries: seq<Entry>, rest: string): string
    requires entries != [] && AreEntries(entries)
  {
    if |entries| == 1 then rest else PrintEntries(entries[1..]) + rest
  }

  lemma EntriesTailIs(entries: seq<Entry>, rest: string)
    requires entries != [] && AreEntries(entries)
    ensures AreEntries(entries[1..])
    ensures EntriesTail(entries, rest) == if |entries| == 1 then rest else PrintEntries(entries[1..]) + rest
  {
    hide PrintEntries;
  }

  lemma FirstEntry(entries: seq<Entry>)
    requires entries != [] && AreEntries(entries)
    ensures var e := entries[0];
      && IsBlank(e.beforeKey) && IsText(e.key) && IsBlank(e.afterKey)
      && IsBlank(e.item.before) && IsValid(e.item.value) && IsBlank(e.item.after) && AreEntries(entries[1..])
  {
  }

  lemma EntriesStep(entries: seq<Entry>, rest: string)
    requires entries != [] && AreEntries(entries) && IsText(entries[0].key) && IsValid(entries[0].item.value)
    requires AreEntries(entries[1..])
    requires var e, mark := entries[0], if |entries| == 1 then '}' else ',';
      MemberAt(KeyPart(e) + Written(e.item, mark, EntriesTail(entries, rest)),
               Member(PointsOf(e.key), Meaning(e.item.value)),
               |KeyPart(e)| + |e.item.before| + |Print(e.item.value)|, Mark(mark, |e.item.after| + 1),
               EntriesTail(entries, rest))
    requires |entries| > 1 ==>
      DecodeMoreMembers(PrintEntries(entries[1..]) + rest)
        == GoodMembers(EntryValues(entries[1..]), |PrintEntries(entries[1..])|)
    ensures var s := PrintEntries(entries) + rest;
      && DecodeMoreMembers(s) == GoodMembers(EntryValues(entries), |PrintEntries(entries)|)
      && NextMark(s).Mark? && NextMark(s).c != '}'
  {
    hide *;
    var e, mark, tail := entries[0], if |entries| == 1 then '}' else ',', EntriesTail(entries, rest);
    EntriesTailIs(entries, rest);
    EntryIsThere(entries, rest, mark, tail);
    EntryValuesStep(entries);
    MoreMembersStep(KeyPart(e) + Written(e.item, mark, tail), Member(PointsOf(e.key), Meaning(e.item.value)),
      |KeyPart(e)| + |e.item.before| + |Print(e.item.value)|, Mark(mark, |e.item.after| + 1), tail);
  }

  /** A member as far as its colon. */
  function KeyPart(e: Entry): string
    requires IsText(e.key)
  {
    e.beforeKey + ("\"" + (PrintText(e.key) + (e.afterKey + ":")))
  }

  lemma EntryIsThere(entries: seq<Entry>, rest: string, mark: char, tail: string)
    requires entries != [] && AreEntries(entries)
    requires mark == if |entries| == 1 then '}' else ','
    requires tail == if |entries| == 1 then rest else PrintEntries(entries[1..]) + rest
    ensures var e := entries[0];
      && PrintEntries(entries) + rest
           == KeyPart(e) + Written(e.item, mark, tail)
      && |PrintEntries(entries)| == |KeyPart(e)| + |e.item.before| + |Print(e.item.value)| + |e.item.after| + 1
           + if |entries| == 1 then 0 else |PrintEntries(entries[1..])|
  {
    hide *;
    FirstEntry(entries);
    var e := entries[0];
    var later := if |entries| == 1 then "" else PrintEntries(entries[1..]);
    EntriesPrinted(entries, mark, later);
    KeyThenItem(e);
    WrittenIs(e.item, mark, tail);
    KeyNested(KeyPart(e), PrintItem(e.item), [mark] + later, rest);
    Nested(e.item.before, Print(e.item.value), e.item.after, [mark] + later, rest);
    assert ([mark] + later) + rest == [mark] + tail;
  }

  lemma KeyNested(a: string, b: string, c: string, d: string)
    ensures (a + b + c) + d == a + (b + c + d)
  {
  }

  lemma EntriesPrinted(entries: seq<Entry>, mark: char, later: string)
    requires entries != [] && AreEntries(entries) && IsText(entries[0].key) && IsValid(entries[0].item.value)
    requires AreEntries(entries[1..]) && mark == (if |entries| == 1 then '}' else ',')
    requires later == if |entries| == 1 then "" else PrintEntries(entries[1..])
    ensures PrintEntries(entries) == PrintEntry(entries[0]) + ([mark] + later)
  {
    hide PrintEntry;
  }

  lemma KeyThenItem(e: Entry)
    requires IsText(e.key) && IsValid(e.item.value)
    ensures PrintEntry(e) == KeyPart(e) + PrintItem(e.item)
  {
    hide PrintText, PrintItem;
  }

  lemma KeyStep(s: string, quote: Mark, key: Text)
    requires NextMark(s) == quote && quote.Mark? && quote.c == '\"' && DecodeText(s[quote.size..]) == key && key.GoodText?
    ensures DecodeKey(s) == GoodText(key.points, quote.size + key.size)
  {
    hide NextMark, DecodeText;
  }

  lemma KeyReads(e: Entry, rest: string)
    requires IsBlank(e.beforeKey) && IsText(e.key) && IsBlank(e.afterKey)
    ensures var s := KeyPart(e) + rest;
      var size := |e.beforeKey| + 1 + |PrintText(e.key)|;
      && DecodeKey(s) == GoodText(PointsOf(e.key), size)
      && NextMark(s[size..]) == Mark(':', |e.afterKey| + 1)
      && size + |e.afterKey| + 1 == |KeyPart(e)|
      && NextMark(s) == Mark('\"', |e.beforeKey| + 1)
  {
    KeyIsThere(e, rest);
    hide *;
    var s := KeyPart(e) + rest;
    var colon := e.afterKey + ([':'] + rest);
    var text := PrintText(e.key) + colon;
    NoSpaces();
    MarkReads(e.beforeKey, '\"', text);
    TextReads(e.key, colon);
    MarkReads(e.afterKey, ':', rest);
    KeyStep(s, Mark('\"', |e.beforeKey| + 1), GoodText(PointsOf(e.key), |PrintText(e.key)|));
  }

  lemma NoSpaces()
    ensures !IsJsonSpace('\"') && !IsJsonSpace(':')
  {
  }

  lemma KeyIsThere(e: Entry, rest: string)
    requires IsText(e.key)
    ensures var s := KeyPart(e) + rest;
      var colon := e.afterKey + ([':'] + rest);
      && s == e.beforeKey + (['\"'] + (PrintText(e.key) + colon))
      && |KeyPart(e)| == |e.beforeKey| + 1 + |PrintText(e.key)| + |e.afterKey| + 1
      && s[|e.beforeKey| + 1 + |PrintText(e.key)|..] == colon
  {
    hide PrintText;
    var colon := e.afterKey + ([':'] + rest);
    var s := e.beforeKey + (['\"'] + (PrintText(e.key) + colon));
    assert KeyPart(e) + rest == s;
  }

  lemma MemberStep(s: string, key: Text, colon: Mark, v: Decoded)
    requires DecodeKey(s) == key && key.GoodText? && NextMark(s[key.size..]) == colon && colon.Mark? && colon.c == ':'
    requires DecodeSpaced(s[key.size + colon.size..]) == v && v.Got?
    ensures DecodeMember(s) == GoodMembers([Member(key.points, v.value)], key.size + colon.size + v.size)
  {
    hide DecodeKey, NextMark, DecodeSpaced;
  }

  /** A member and the mark behind it. */
  lemma {:induction false} EntryReads(e: Entry, mark: char, tail: string)
    requires IsBlank(e.beforeKey) && IsText(e.key) && IsBlank(e.afterKey)
    requires IsBlank(e.item.before) && IsValid(e.item.value) && IsBlank(e.item.after) && mark in {',', '}'}
    ensures var s := KeyPart(e) + Written(e.item, mark, tail);
      var size := |KeyPart(e)| + |e.item.before| + |Print(e.item.value)|;
      MemberAt(s, Member(PointsOf(e.key), Meaning(e.item.value)), size, Mark(mark, |e.item.after| + 1), tail)
    decreases e
  {
    hide NextMark, DecodeKey, DecodeSpaced, DecodeMember, KeyPart, Print, Meaning, PointsOf, IsBlank, IsText, PrintText;
    hide IsValid, Written;
    var value := Written(e.item, mark, tail);
    ItemReads(e.item, mark, tail);
    KeyReads(e, value);
    var s := KeyPart(e) + value;
    var size := |e.item.before| + |Print(e.item.value)|;
    SkipFront(KeyPart(e), value, 0);
    SkipFront(KeyPart(e), value, size);
    SkipFront(KeyPart(e), value, size + |e.item.after| + 1);
    MemberStep(s, GoodText(PointsOf(e.key), |e.beforeKey| + 1 + |PrintText(e.key)|), Mark(':', |e.afterKey| + 1),
      Got(Meaning(e.item.value), size));
  }

  lemma SkipFront(a: string, b: string, k: nat)
    requires k <= |b|
    ensures (a + b)[|a| + k..] == b[k..] && b[0..] == b
  {
  }

  /** Whatever way a value is written, with any white space between its parts, any
      escapes in its strings and its members in any order, and whatever follows that
      could be no more of a number: the decoder returns that value, its members in
      that order, and the length of the text. */
  lemma {:induction false} Reads(x: Syntax, rest: string)
    requires IsValid(x) && MayFollow(x, rest)
    ensures DecodeValue(Print(x) + rest) == Got(Meaning(x), |Print(x)|)
    decreases x, 1
  {
    match x
    case Numeral(_, _, _, _) => NumeralReads(x, rest);
    case Quoted(_) => QuotedReads(x, rest);
    case Bracketed(_, _) => BracketedReads(x, rest);
    case Braced(_, _) => BracedReads(x, rest);
    case _ => WordReads(x, rest);
  }
}
