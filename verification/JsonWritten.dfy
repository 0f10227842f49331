/** And whatever the decoder accepts is a value written in one of the allowed ways. */
module JsonWritten {
  import opened Json
  import opened JsonPrefix
  import opened JsonChunks
  import opened JsonSyntax
  import opened JsonRoundTrip
  import opened Options

  // ----- Strings -----

  lemma DigitIsWritten(c: char)
    requires HexValue(c) >= 0
    ensures HexValue(c) < 16 && HexDigit(HexValue(c), 'A' <= c <= 'F') == c
  {
  }

  lemma DigitsOfSum(a: int, b: int, c: int, d: int)
    requires 0 <= a < 16 && 0 <= b < 16 && 0 <= c < 16 && 0 <= d < 16
    ensures var u := ((a * 16 + b) * 16 + c) * 16 + d;
      0 <= u < 0x1_0000 && u / 4096 == a && u / 256 % 16 == b && u / 16 % 16 == c && u % 16 == d
  {
    var u := ((a * 16 + b) * 16 + c) * 16 + d;
    assert u / 16 == (a * 16 + b) * 16 + c && u / 256 == a * 16 + b;
  }

  lemma HexOfDigits(a: int, b: int, c: int, d: int, upper: seq<bool>)
    requires 0 <= a < 16 && 0 <= b < 16 && 0 <= c < 16 && 0 <= d < 16 && |upper| == 4
    ensures var u := ((a * 16 + b) * 16 + c) * 16 + d;
      && 0 <= u < 0x1_0000
      && Hex(u, upper) == [HexDigit(a, upper[0]), HexDigit(b, upper[1]), HexDigit(c, upper[2]), HexDigit(d, upper[3])]
  {
    DigitsOfSum(a, b, c, d);
    hide HexDigit;
  }

  lemma HexIsWritten(s: string) returns (upper: seq<bool>)
    requires Hex4(s) >= 0
    ensures |s| >= 4 && |upper| == 4 && Hex4(s) < 0x1_0000 && Hex(Hex4(s), upper) == s[..4]
  {
    hide HexValue, HexDigit, Hex;
    upper := ['A' <= s[0] <= 'F', 'A' <= s[1] <= 'F', 'A' <= s[2] <= 'F', 'A' <= s[3] <= 'F'];
    DigitIsWritten(s[0]);
    DigitIsWritten(s[1]);
    DigitIsWritten(s[2]);
    DigitIsWritten(s[3]);
    HexOfDigits(HexValue(s[0]), HexValue(s[1]), HexValue(s[2]), HexValue(s[3]), upper);
  }

  lemma PairIsJoined(high: int, low: int)
    requires IsHighSurrogate(high) && IsLowSurrogate(low)
    ensures var point := JoinSurrogates(high, low);
      0x1_0000 <= point <= 0x10_FFFF && HighUnit(point) == high && LowUnit(point) == low
  {
  }

  /** The first character of an accepted string, as it is written. */
  lemma SpellingIsWritten(s: string) returns (p: Spelling)
    requires DecodeText(s).GoodText? && s[0] != '\"'
    ensures IsWellSpelled(p) && Spelled(p) <= s && DecodeText(s[|Spelled(p)|..]).GoodText?
    ensures DecodeText(s) == Prepend(Denoted(p), |Spelled(p)|, DecodeText(s[|Spelled(p)|..]))
    ensures IsHighUnit(p) ==> !StartsLow(s[|Spelled(p)|..])
  {
    if s[0] == '\\' && s[1] != 'u' {
      p := Short(s[1]);
    } else if s[0] == '\\' {
      p := EscapeIsWritten(s);
    } else {
      p := Plain(s[0]);
    }
    hide Hex4, Hex;
  }

  lemma EscapeIsWritten(s: string) returns (p: Spelling)
    requires DecodeText(s).GoodText? && s[0] == '\\' && s[1] == 'u'
    ensures IsWellSpelled(p) && Spelled(p) <= s && DecodeText(s[|Spelled(p)|..]).GoodText?
    ensures DecodeText(s) == Prepend(Denoted(p), |Spelled(p)|, DecodeText(s[|Spelled(p)|..]))
    ensures IsHighUnit(p) ==> !StartsLow(s[|Spelled(p)|..])
  {
    hide Hex4, Hex, JoinSurrogates, HighUnit, LowUnit;
    assert "\\u" <= s[6..] ==> s[8..] == s[6..][2..];
    var upper := HexIsWritten(s[2..]);
    assert s[2..][..4] == s[2..6];
    if IsHighSurrogate(Hex4(s[2..])) && StartsLow(s[6..]) {
      var upper' := HexIsWritten(s[8..]);
      assert s[8..][..4] == s[8..12];
      assert DecodeText(s) == Prepend(JoinSurrogates(Hex4(s[2..]), Hex4(s[8..])), 12, DecodeText(s[12..]));
      hide DecodeText;
      p := PairIsWritten(s, upper, upper');
    } else {
      assert DecodeText(s) == Prepend(Hex4(s[2..]), 6, DecodeText(s[6..]));
      hide DecodeText;
      p := UnitIsWritten(s, upper);
    }
  }

  lemma UnitIsWritten(s: string, upper: seq<bool>) returns (p: Spelling)
    requires |s| >= 6 && s[0] == '\\' && s[1] == 'u' && |upper| == 4
    requires 0 <= Hex4(s[2..]) < 0x1_0000 && Hex(Hex4(s[2..]), upper) == s[2..6]
    ensures p == Unit(Hex4(s[2..]), upper) && IsWellSpelled(p) && Spelled(p) <= s && |Spelled(p)| == 6
  {
    hide Hex4, Hex;
    p := Unit(Hex4(s[2..]), upper);
    assert s[..6] == "\\u" + s[2..6];
  }

  lemma PairIsWritten(s: string, upper: seq<bool>, upper': seq<bool>) returns (p: Spelling)
    requires |s| >= 12 && "\\u" <= s && "\\u" <= s[6..] && |upper| == 4 && |upper'| == 4
    requires IsHighSurrogate(Hex4(s[2..])) && Hex(Hex4(s[2..]), upper) == s[2..6]
    requires IsLowSurrogate(Hex4(s[8..])) && Hex(Hex4(s[8..]), upper') == s[8..12]
    ensures p.Pair? && p.point == JoinSurrogates(Hex4(s[2..]), Hex4(s[8..]))
    ensures IsWellSpelled(p) && Spelled(p) <= s && |Spelled(p)| == 12
  {
    PairIsJoined(Hex4(s[2..]), Hex4(s[8..]));
    hide Hex4, Hex, JoinSurrogates, HighUnit, LowUnit;
    p := Pair(JoinSurrogates(Hex4(s[2..]), Hex4(s[8..])), upper + upper');
    assert (upper + upper')[..4] == upper && (upper + upper')[4..] == upper';
    assert s[6..8] == "\\u";
    assert s[..12] == "\\u" + s[2..6] + ("\\u" + s[8..12]);
  }

  lemma {:induction false} TextIsWritten(s: string) returns (text: seq<Spelling>)
    requires DecodeText(s).GoodText?
    ensures IsText(text) && PrintText(text) == s[..DecodeText(s).size] && PointsOf(text) == DecodeText(s).points
    decreases |s|
  {
    if s[0] == '\"' {
      return [];
    }
    var p := SpellingIsWritten(s);
    SpelledIsSomething(p);
    hide *;
    var t := s[|Spelled(p)|..];
    var later := TextIsWritten(t);
    PrependsTo(Denoted(p), |Spelled(p)|, DecodeText(t));
    text := TextOf(s, p, t, later);
  }

  lemma TextOf(s: string, p: Spelling, t: string, later: seq<Spelling>) returns (text: seq<Spelling>)
    requires IsWellSpelled(p) && Spelled(p) <= s && t == s[|Spelled(p)|..] && (IsHighUnit(p) ==> !StartsLow(t))
    requires IsText(later) && |PrintText(later)| <= |t| && PrintText(later) == t[..|PrintText(later)|]
    ensures IsText(text) && |Spelled(p)| + |PrintText(later)| <= |s|
    ensures PrintText(text) == s[..|Spelled(p)| + |PrintText(later)|]
    ensures PointsOf(text) == [Denoted(p)] + PointsOf(later)
  {
    hide *;
    TextGrows(p, later, t);
    TextStep(p, later);
    text := [p] + later;
    InTwo(s, |Spelled(p)|, |PrintText(later)|);
  }

  lemma InTwo(s: string, n: nat, m: nat)
    requires n + m <= |s|
    ensures s[..n + m] == s[..n] + s[n..][..m]
  {
  }

  lemma SpelledIsSomething(p: Spelling)
    requires IsWellSpelled(p)
    ensures |Spelled(p)| > 0
  {
  }

  lemma TextStep(p: Spelling, later: seq<Spelling>)
    requires IsWellSpelled(p) && IsText(later) && IsText([p] + later)
    ensures PrintText([p] + later) == Spelled(p) + PrintText(later)
    ensures PointsOf([p] + later) == [Denoted(p)] + PointsOf(later)
  {
    hide Spelled, IsText, Denoted, IsWellSpelled;
    assert ([p] + later)[1..] == later;
  }

  lemma TextGrows(p: Spelling, later: seq<Spelling>, s: string)
    requires IsWellSpelled(p) && IsText(later) && PrintText(later) <= s && (IsHighUnit(p) ==> !StartsLow(s))
    ensures IsText([p] + later)
  {
    hide Hex4, Hex, IsWellSpelled;
    if later != [] && IsLowUnit(later[0]) {
      var tail := s[|PrintText(later)|..];
      assert s == PrintText(later) + tail;
      LowUnitStarts(later, tail);
    }
  }

  lemma LowUnitStarts(text: seq<Spelling>, rest: string)
    requires IsText(text) && text != [] && IsLowUnit(text[0])
    ensures StartsLow(PrintText(text) + rest)
  {
    var p, tail := text[0], PrintText(text[1..]) + rest;
    EscapeAtFront(p.u, p.upper, tail);
    UnitInFront(text, rest);
    hide Hex4, Hex, PrintText, IsText;
  }

  lemma UnitInFront(text: seq<Spelling>, rest: string)
    requires IsText(text) && text != [] && text[0].Unit?
    ensures IsWellSpelled(text[0])
    ensures PrintText(text) + rest == "\\u" + Hex(text[0].u, text[0].upper) + (PrintText(text[1..]) + rest)
  {
    hide Hex;
  }

  // ----- Numbers -----

  lemma {:induction false} DigitsAreWritten(s: string)
    ensures AreDigits(s[..DigitsLength(s)])
  {
    var n := DigitsLength(s);
    if n > 0 {
      DigitsAreWritten(s[1..]);
      assert s[..n] == [s[0]] + s[1..][..n - 1];
    }
  }

  lemma WholeIsWritten(s: string)
    requires UnsignedLength(s) > 0
    ensures var whole := s[..UnsignedLength(s)];
      whole != "" && AreDigits(whole) && (whole[0] == '0' ==> |whole| == 1)
  {
    DigitsAreWritten(s);
  }

  lemma FractionIsWritten(s: string) returns (fraction: string)
    ensures AreDigits(fraction)
    ensures s[..FractionLength(s)] == if fraction == "" then "" else "." + fraction
    ensures fraction == "" <==> FractionLength(s) == 0
  {
    var n := FractionLength(s);
    if n == 0 {
      return "";
    }
    DigitsAreWritten(s[1..]);
    fraction := s[1..][..n - 1];
    assert s[..n] == "." + fraction;
  }

  lemma ExponentIsWritten(s: string) returns (e: Option<Exponent>)
    ensures e.Some? ==> IsExponent(e.value)
    ensures s[..ExponentLength(s)] == PrintExponent(e)
    ensures e.None? <==> ExponentLength(s) == 0
  {
    var n := ExponentLength(s);
    if n == 0 {
      return None;
    }
    var sign := if |s| > 1 && (s[1] == '+' || s[1] == '-') then [s[1]] else "";
    var digits := s[1 + |sign|..][..n - 1 - |sign|];
    DigitsAreWritten(s[1 + |sign|..]);
    assert sign == "" || sign == "+" || sign == "-";
    e := Some(Exponent(s[0], sign, digits));
    assert s[..n] == [s[0]] + sign + digits;
  }

  lemma NumeralIsWritten(s: string) returns (x: Syntax)
    requires DecodeNumber(s).Got?
    ensures x.Numeral? && IsValid(x) && PrintNumeral(x) == s[..DecodeNumber(s).size]
    ensures Meaning(x) == DecodeNumber(s).value
  {
    var sign := if s[0] == '-' then 1 else 0;
    var i, f, e := NumberParts(s);
    var whole := IntegerIsWritten(s);
    hide *;
    var fraction := FractionIsWritten(s[i..]);
    var exponent := ExponentIsWritten(s[i + f..]);
    InThree(s, sign, i, f, e);
    x := NumeralOf(s[0] == '-', whole, fraction, exponent);
    hide DecodeNumber;
  }

  lemma NumberParts(s: string) returns (i: nat, f: nat, e: nat)
    requires DecodeNumber(s).Got?
    ensures 0 < i == IntegerLength(s) && i + f + e <= |s|
    ensures f == FractionLength(s[i..]) && e == ExponentLength(s[i + f..])
    ensures DecodeNumber(s) == Got(Number(s[..i + f + e], f + e > 0), i + f + e)
  {
    hide IntegerLength, FractionLength, ExponentLength;
    i := IntegerLength(s);
    f := FractionLength(s[i..]);
    e := ExponentLength(s[i + f..]);
  }

  lemma IntegerIsWritten(s: string) returns (whole: string)
    requires s != "" && IntegerLength(s) > 0
    ensures var sign := if s[0] == '-' then 1 else 0;
      sign < IntegerLength(s) && whole == s[sign..IntegerLength(s)]
    ensures whole != "" && AreDigits(whole) && (whole[0] == '0' ==> |whole| == 1)
  {
    hide AreDigits;
    var sign := if s[0] == '-' then 1 else 0;
    WholeIsWritten(s[sign..]);
    whole := s[sign..IntegerLength(s)];
    assert whole == s[sign..][..UnsignedLength(s[sign..])] by {
      assert s[0..] == s;
    }
  }

  lemma NumeralOf(minus: bool, whole: string, fraction: string, exponent: Option<Exponent>) returns (x: Syntax)
    requires whole != "" && AreDigits(whole) && (whole[0] == '0' ==> |whole| == 1) && AreDigits(fraction)
    requires exponent.Some? ==> IsExponent(exponent.value)
    ensures x.Numeral? && IsValid(x)
    ensures var f := if fraction == "" then "" else "." + fraction;
      PrintNumeral(x) == (if minus then "-" else "") + whole + f + PrintExponent(exponent)
    ensures Meaning(x) == Number(PrintNumeral(x), fraction != "" || exponent.Some?)
  {
    x := Numeral(minus, whole, fraction, exponent);
    hide AreDigits, IsExponent, PrintExponent;
  }

  lemma InThree(s: string, sign: nat, i: nat, f: nat, e: nat)
    requires sign <= i && i + f + e <= |s| && sign <= 1
    ensures s[..i + f + e] == s[..sign] + s[sign..i] + s[i..][..f] + s[i + f..][..e]
    ensures sign == 0 ==> s[..sign] == ""
    ensures sign == 1 ==> s[..sign] == [s[0]]
  {
    InTwo(s, i + f, e);
    InTwo(s, i, f);
    assert s[..i] == s[..sign] + s[sign..i];
  }

  // ----- Values -----

  lemma {:induction false} BlankIsWritten(s: string)
    ensures IsBlank(s[..SpaceLength(s)])
  {
    var n := SpaceLength(s);
    if n > 0 {
      BlankIsWritten(s[1..]);
      assert s[..n] == [s[0]] + s[1..][..n - 1];
    }
  }

  lemma MarkIsWritten(s: string)
    requires NextMark(s).Mark?
    ensures var mark := NextMark(s);
      IsBlank(s[..mark.size - 1]) && s[..mark.size] == s[..mark.size - 1] + [mark.c]
  {
    BlankIsWritten(s);
    hide IsBlank;
  }

  lemma ConstantIsWritten(s: string) returns (x: Syntax)
    requires DecodeConstant(s).Got?
    ensures IsValid(x) && Print(x) == s[..DecodeConstant(s).size] && Meaning(x) == DecodeConstant(s).value
  {
    x := if "null" <= s then NullWord else if "true" <= s then TrueWord else if "false" <= s then FalseWord
         else if "NaN" <= s then NanWord else InfinityWord;
  }

  /** Whatever the decoder accepts is a value written in one of the allowed ways, and
      it returns that value and the length of that text. */
  lemma {:induction false} ValueIsWritten(s: string) returns (x: Syntax)
    requires DecodeValue(s).Got?
    ensures IsValid(x) && Print(x) == s[..DecodeValue(s).size] && Meaning(x) == DecodeValue(s).value
    decreases |s|, 0
  {
    hide DecodeText, DecodeNumber, DecodeConstant, DecodeItems, DecodeMembers, PrintText, PrintNumeral, PointsOf, IsText;
    if s[0] == '\"' {
      var text := TextIsWritten(s[1..]);
      x := Quoted(text);
      Front(s);
    } else if s[0] == '{' {
      x := ObjectIsWritten(s[1..]);
      Front(s);
    } else if s[0] == '[' {
      x := ArrayIsWritten(s[1..]);
      Front(s);
    } else if s[0] == '-' && "Infinity" <= s[1..] {
      x := MinusInfinityWord;
      assert s[..9] == ['-'] + s[1..][..8];
    } else if s[0] == '-' || IsDigit(s[0]) {
      x := NumeralIsWritten(s);
    } else {
      x := ConstantIsWritten(s);
    }
  }

  lemma Front(s: string)
    requires s != ""
    ensures forall n: nat :: n < |s| ==> s[..1 + n] == [s[0]] + s[1..][..n]
  {
  }

  lemma {:induction false} ArrayIsWritten(s: string) returns (x: Syntax)
    requires DecodeItems(s).GoodItems?
    ensures x.Bracketed? && IsValid(x) && Print(x) == "[" + s[..DecodeItems(s).size]
    ensures Meaning(x) == Array(DecodeItems(s).items)
    decreases |s|, 3
  {
    hide DecodeMoreItems, NextMark, IsBlank, AreItems, PrintItems, ItemValues;
    var mark := NextMark(s);
    if mark.Mark? && mark.c == ']' {
      MarkIsWritten(s);
      x := Bracketed(s[..mark.size - 1], []);
      NoneAreValid();
      NoItems();
    } else {
      var items := ItemsAreWritten(s);
      x := Bracketed("", items);
      NoneAreValid();
    }
  }

  lemma NoneAreValid()
    ensures AreItems([]) && AreEntries([]) && IsBlank("")
  {
  }

  /** The mark behind the first `n` characters. */
  function MarkBehind(s: string, n: nat): Mark
    requires n <= |s|
  {
    NextMark(s[n..])
  }

  /** `s` begins with the item, `n` characters without the white space behind it,
      and then the mark. */
  ghost predicate ItemWritten(s: string, item: Item, n: nat, mark: Mark) {
    && IsBlank(item.before) && IsValid(item.value) && IsBlank(item.after)
    && mark.Mark? && 0 < mark.size && n + mark.size <= |s|
    && PrintItem(item) == s[..n + mark.size - 1] && s[n + mark.size - 1] == mark.c
  }

  /** One item of `s` and its white space. */
  lemma {:induction false} ItemIsWritten(s: string) returns (item: Item)
    requires DecodeSpaced(s).Got? && MarkBehind(s, DecodeSpaced(s).size).Mark?
    ensures IsValid(item.value) && Meaning(item.value) == DecodeSpaced(s).value
    ensures ItemWritten(s, item, DecodeSpaced(s).size, MarkBehind(s, DecodeSpaced(s).size))
    decreases |s|, 1
  {
    var w, n := SpaceLength(s), DecodeSpaced(s).size;
    var mark := NextMark(s[n..]);
    SpacedParts(s);
    hide *;
    var x := ValueIsWritten(s[w..]);
    BlankIsWritten(s);
    MarkIsWritten(s[n..]);
    item := ItemOf(s, w, n, mark, x);
  }

  lemma SpacedParts(s: string)
    requires DecodeSpaced(s).Got?
    ensures var w := SpaceLength(s);
      && DecodeValue(s[w..]).Got? && w <= DecodeSpaced(s).size == w + DecodeValue(s[w..]).size
      && DecodeSpaced(s).value == DecodeValue(s[w..]).value
  {
    hide DecodeValue;
  }

  lemma ItemOf(s: string, w: nat, n: nat, mark: Mark, x: Syntax) returns (item: Item)
    requires w <= n && mark.Mark? && 0 < mark.size && n + mark.size <= |s|
    requires IsBlank(s[..w]) && IsBlank(s[n..][..mark.size - 1]) && IsValid(x) && Print(x) == s[w..][..n - w]
    requires s[n..][..mark.size] == s[n..][..mark.size - 1] + [mark.c]
    ensures item.value == x && ItemWritten(s, item, n, mark)
  {
    hide IsBlank, IsValid, Print;
    item := Item(s[..w], x, s[n..][..mark.size - 1]);
    SplitFront(s, w, n, mark);
  }

  lemma SplitFront(s: string, w: nat, n: nat, mark: Mark)
    requires w <= n && mark.Mark? && 0 < mark.size && n + mark.size <= |s|
    requires s[n..][..mark.size] == s[n..][..mark.size - 1] + [mark.c]
    ensures s[..n + mark.size - 1] == s[..w] + (s[w..][..n - w] + s[n..][..mark.size - 1])
    ensures s[n + mark.size - 1] == mark.c
  {
    assert s[n..][..mark.size][mark.size - 1] == s[n + mark.size - 1];
  }

  lemma {:induction false} ItemsAreWritten(s: string) returns (items: seq<Item>)
    requires DecodeMoreItems(s).GoodItems?
    ensures items != [] && AreItems(items)
    ensures PrintItems(items) == s[..DecodeMoreItems(s).size] && ItemValues(items) == DecodeMoreItems(s).items
    decreases |s|, 2
  {
    hide DecodeSpaced, NextMark, PrintItems, PrintItem, ItemValues, IsBlank, IsValid, Meaning;
    var item := ItemIsWritten(s);
    var v := DecodeSpaced(s);
    var mark := NextMark(s[v.size..]);
    var k := v.size + mark.size;
    if mark.c == ']' {
      items := [item];
      OneItem(item);
      assert s[..k] == s[..k - 1] + "]";
    } else {
      var later := ItemsAreWritten(s[k..]);
      items := [item] + later;
      MoreItems(item, later);
      MoreText(s, k, |PrintItems(later)|);
    }
    hide AreItems;
  }

  lemma OneItem(item: Item)
    requires IsBlank(item.before) && IsValid(item.value) && IsBlank(item.after)
    ensures AreItems([item]) && PrintItems([item]) == PrintItem(item) + "]" && ItemValues([item]) == [Meaning(item.value)]
  {
    hide IsBlank, IsValid, PrintItem, Meaning;
  }

  lemma MoreItems(item: Item, later: seq<Item>)
    requires IsBlank(item.before) && IsValid(item.value) && IsBlank(item.after) && later != [] && AreItems(later)
    ensures var items := [item] + later;
      && AreItems(items) && PrintItems(items) == PrintItem(item) + ("," + PrintItems(later))
      && ItemValues(items) == [Meaning(item.value)] + ItemValues(later)
  {
    hide IsBlank, IsValid, PrintItem, Meaning;
    assert ([item] + later)[1..] == later;
  }

  lemma MoreText(s: string, k: nat, n: nat)
    requires 0 < k && k + n <= |s| && s[k - 1] == ','
    ensures s[..k + n] == s[..k - 1] + ("," + s[k..][..n])
  {
  }

  lemma {:induction false} ObjectIsWritten(s: string) returns (x: Syntax)
    requires DecodeMembers(s).GoodMembers?
    ensures x.Braced? && IsValid(x) && Print(x) == "{" + s[..DecodeMembers(s).size]
    ensures Meaning(x) == Object(DecodeMembers(s).members)
    decreases |s|, 4
  {
    hide DecodeMoreMembers, NextMark, IsBlank, AreEntries, PrintEntries, EntryValues;
    var mark := NextMark(s);
    if mark.Mark? && mark.c == '}' {
      MarkIsWritten(s);
      x := Braced(s[..mark.size - 1], []);
      NoneAreValid();
      NoItems();
    } else {
      var entries := EntriesAreWritten(s);
      x := Braced("", entries);
      NoneAreValid();
    }
  }

  /** `s` begins with the key and its colon, `k` characters. */
  ghost predicate KeyWritten(s: string, beforeKey: string, key: seq<Spelling>, afterKey: string, k: nat) {
    && IsBlank(beforeKey) && IsText(key) && IsBlank(afterKey) && k <= |s|
    && beforeKey + ("\"" + (PrintText(key) + (afterKey + ":"))) == s[..k]
  }

  /** A key of `s`, its colon, and the white space around it. */
  lemma KeyIsWritten(s: string) returns (beforeKey: string, key: seq<Spelling>, afterKey: string)
    requires DecodeKey(s).GoodText? && MarkBehind(s, DecodeKey(s).size).Mark? && MarkBehind(s, DecodeKey(s).size).c == ':'
    ensures PointsOf(key) == DecodeKey(s).points
    ensures KeyWritten(s, beforeKey, key, afterKey, DecodeKey(s).size + MarkBehind(s, DecodeKey(s).size).size)
  {
    var quote, t, n, colon := KeyParts(s);
    hide *;
    MarkIsWritten(s);
    key := TextIsWritten(t);
    MarkIsWritten(s[n..]);
    beforeKey, afterKey := KeyOf(s, quote.size, t, key, n, colon.size);
  }

  lemma KeyParts(s: string) returns (quote: Mark, t: string, n: nat, colon: Mark)
    requires DecodeKey(s).GoodText? && MarkBehind(s, DecodeKey(s).size).Mark?
    ensures quote == NextMark(s) && quote.Mark? && quote.c == '\"' && 0 < quote.size <= |s|
    ensures t == s[quote.size..] && |t| < |s| && DecodeText(t).GoodText? && DecodeText(t).points == DecodeKey(s).points
    ensures n == DecodeKey(s).size == quote.size + DecodeText(t).size && n <= |s|
    ensures colon == MarkBehind(s, n) == NextMark(s[n..]) && colon.Mark? && 0 < colon.size && n + colon.size <= |s|
  {
    hide DecodeText, NextMark;
    quote := NextMark(s);
    t := s[quote.size..];
    n := DecodeKey(s).size;
    colon := NextMark(s[n..]);
  }

  lemma KeyOf(s: string, q: nat, t: string, key: seq<Spelling>, n: nat, c: nat) returns (beforeKey: string, afterKey: string)
    requires 0 < q <= n && 0 < c && n + c <= |s| && t == s[q..] && IsText(key) && PrintText(key) == t[..n - q]
    requires IsBlank(s[..q - 1]) && s[..q] == s[..q - 1] + "\""
    requires IsBlank(s[n..][..c - 1]) && s[n..][..c] == s[n..][..c - 1] + ":"
    ensures KeyWritten(s, beforeKey, key, afterKey, n + c)
  {
    hide IsBlank, IsText, PrintText;
    beforeKey, afterKey := s[..q - 1], s[n..][..c - 1];
    KeyInFront(s, q, n, c);
  }

  lemma KeyInFront(s: string, q: nat, n: nat, c: nat)
    requires 0 < q <= n && 0 < c && n + c <= |s|
    requires s[..q] == s[..q - 1] + "\"" && s[n..][..c] == s[n..][..c - 1] + ":"
    ensures s[..n + c] == s[..q - 1] + ("\"" + (s[q..][..n - q] + (s[n..][..c - 1] + ":")))
  {
    assert s[..n + c] == s[..q] + (s[q..][..n - q] + s[n..][..c]);
  }

  /** Likewise for a member. */
  ghost predicate EntryWritten(s: string, e: Entry, n: nat, mark: Mark) {
    && IsBlank(e.beforeKey) && IsText(e.key) && IsBlank(e.afterKey)
    && IsBlank(e.item.before) && IsValid(e.item.value) && IsBlank(e.item.after)
    && mark.Mark? && 0 < mark.size && n + mark.size <= |s|
    && PrintEntry(e) == s[..n + mark.size - 1] && s[n + mark.size - 1] == mark.c
  }

  /** One member of `s` and its white space. */
  lemma {:induction false} EntryIsWritten(s: string) returns (e: Entry)
    requires DecodeMember(s).GoodMembers? && MarkBehind(s, DecodeMember(s).size).Mark?
    ensures IsValid(e.item.value) && DecodeMember(s).members == [Member(PointsOf(e.key), Meaning(e.item.value))]
    ensures EntryWritten(s, e, DecodeMember(s).size, MarkBehind(s, DecodeMember(s).size))
    decreases |s|, 2
  {
    var k, t, v, mark := MemberParts(s);
    hide *;
    var beforeKey, key, afterKey := KeyIsWritten(s);
    var item := ItemIsWritten(t);
    e := EntryOf(s, k, t, v, mark, beforeKey, key, afterKey, item);
  }

  lemma EntryOf(s: string, k: nat, t: string, v: Decoded, mark: Mark,
                beforeKey: string, key: seq<Spelling>, afterKey: string, item: Item) returns (e: Entry)
    requires k <= |s| && t == s[k..] && v.Got? && KeyWritten(s, beforeKey, key, afterKey, k)
    requires IsValid(item.value) && ItemWritten(t, item, v.size, mark) && v.value == Meaning(item.value)
    requires DecodeMember(s) == GoodMembers([Member(PointsOf(key), v.value)], k + v.size)
    requires k + v.size <= |s| && mark == MarkBehind(s, k + v.size)
    ensures IsValid(e.item.value) && DecodeMember(s).GoodMembers?
    ensures DecodeMember(s).members == [Member(PointsOf(e.key), Meaning(e.item.value))]
    ensures EntryWritten(s, e, DecodeMember(s).size, MarkBehind(s, DecodeMember(s).size))
  {
    hide *;
    e := Entry(beforeKey, key, afterKey, item);
    EntryInFront(s, k, t, v.size, mark, e);
  }

  lemma MemberParts(s: string) returns (k: nat, t: string, v: Decoded, mark: Mark)
    requires DecodeMember(s).GoodMembers? && MarkBehind(s, DecodeMember(s).size).Mark?
    ensures DecodeKey(s).GoodText? && MarkBehind(s, DecodeKey(s).size).Mark? && MarkBehind(s, DecodeKey(s).size).c == ':'
    ensures k == DecodeKey(s).size + MarkBehind(s, DecodeKey(s).size).size
    ensures 0 < k <= |s| && t == s[k..] && |t| < |s|
    ensures v == DecodeSpaced(t) && v.Got? && mark == MarkBehind(t, v.size) && mark.Mark?
    ensures DecodeMember(s) == GoodMembers([Member(DecodeKey(s).points, v.value)], k + v.size)
    ensures mark == MarkBehind(s, k + v.size)
  {
    hide DecodeKey, DecodeSpaced, NextMark;
    k := DecodeKey(s).size + MarkBehind(s, DecodeKey(s).size).size;
    t := s[k..];
    v := DecodeSpaced(t);
    assert t[v.size..] == s[k + v.size..];
    mark := NextMark(t[v.size..]);
  }

  lemma EntryInFront(s: string, k: nat, t: string, n: nat, mark: Mark, e: Entry)
    requires k <= |s| && t == s[k..]
    requires KeyWritten(s, e.beforeKey, e.key, e.afterKey, k) && ItemWritten(t, e.item, n, mark)
    ensures EntryWritten(s, e, k + n, mark)
  {
    KeyThenItem(e);
    hide PrintEntry, PrintItem, PrintText, IsBlank, IsText, IsValid;
    var m := n + mark.size - 1;
    assert s[..k + m] == s[..k] + t[..m];
  }

  lemma {:induction false} EntriesAreWritten(s: string) returns (entries: seq<Entry>)
    requires DecodeMoreMembers(s).GoodMembers?
    ensures entries != [] && AreEntries(entries)
    ensures PrintEntries(entries) == s[..DecodeMoreMembers(s).size] && EntryValues(entries) == DecodeMoreMembers(s).members
    decreases |s|, 3
  {
    hide DecodeMember, NextMark, PrintEntries, PrintEntry, EntryValues, IsBlank, IsText, IsValid, Meaning, PointsOf;
    var e := EntryIsWritten(s);
    var m := DecodeMember(s);
    var mark := NextMark(s[m.size..]);
    var k := m.size + mark.size;
    if mark.c == '}' {
      entries := [e];
      OneEntry(e);
      assert s[..k] == s[..k - 1] + "}";
    } else {
      var later := EntriesAreWritten(s[k..]);
      entries := [e] + later;
      MoreEntries(e, later);
      MoreText(s, k, |PrintEntries(later)|);
    }
    hide AreEntries;
  }

  lemma OneEntry(e: Entry)
    requires IsBlank(e.beforeKey) && IsText(e.key) && IsBlank(e.afterKey)
    requires IsBlank(e.item.before) && IsValid(e.item.value) && IsBlank(e.item.after)
    ensures AreEntries([e]) && PrintEntries([e]) == PrintEntry(e) + "}"
    ensures EntryValues([e]) == [Member(PointsOf(e.key), Meaning(e.item.value))]
  {
    hide IsBlank, IsText, IsValid, PrintEntry, Meaning, PointsOf;
  }

  lemma MoreEntries(e: Entry, later: seq<Entry>)
    requires IsBlank(e.beforeKey) && IsText(e.key) && IsBlank(e.afterKey) && later != [] && AreEntries(later)
    requires IsBlank(e.item.before) && IsValid(e.item.value) && IsBlank(e.item.after)
    ensures var entries := [e] + later;
      && AreEntries(entries) && PrintEntries(entries) == PrintEntry(e) + ("," + PrintEntries(later))
      && EntryValues(entries) == [Member(PointsOf(e.key), Meaning(e.item.value))] + EntryValues(later)
  {
    hide IsBlank, IsText, IsValid, PrintEntry, Meaning, PointsOf;
    assert ([e] + later)[1..] == later;
  }
}
