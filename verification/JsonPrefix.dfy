/** Self-delimitation: what the decoder makes of a value does not depend on the
    text after it.  Reading a value from a prefix that contains it, or from the
    whole text, gives the same value and length; only a bare number needs one
    more character to be sure that it has ended. */
module JsonPrefix {
  import opened Json

  /** A character after which a number might still be going on. */
  predicate ExtendsNumber(c: char) {
    c == '.' || c == 'e' || c == 'E'
  }

  lemma DropSum(s: string, t: string, k: nat)
    requires k <= |s|
    ensures (s + t)[k..] == s[k..] + t
  {
  }

  lemma {:induction false} SpacePrefix(s: string, t: string)
    ensures SpaceLength(s + t) == if SpaceLength(s) < |s| then SpaceLength(s) else |s| + SpaceLength(t)
  {
    if s == [] {
      assert s + t == t;
    } else {
      assert (s + t)[1..] == s[1..] + t;
      SpacePrefix(s[1..], t);
    }
  }

  lemma {:induction false} DigitsPrefix(s: string, t: string)
    ensures DigitsLength(s + t) == if DigitsLength(s) < |s| then DigitsLength(s) else |s| + DigitsLength(t)
  {
    if s == [] {
      assert s + t == t;
    } else {
      assert (s + t)[1..] == s[1..] + t;
      DigitsPrefix(s[1..], t);
    }
  }

  /** Strings end at their closing quote, whatever follows. */
  lemma {:induction false} TextPrefix(s: string, t: string)
    ensures DecodeText(s).GoodText? ==> DecodeText(s + t) == DecodeText(s)
    ensures DecodeText(s + t).GoodText? && DecodeText(s + t).size <= |s| ==> DecodeText(s) == DecodeText(s + t)
    decreases |s|, 2
  {
    if s == [] {
      return;
    }
    if s[0] == '\\' {
      if |s| >= 2 {
        DropSum(s, t, 2);
        if s[1] != 'u' {
          TextPrefix(s[2..], t);
        } else if |s| >= 6 {
          EscapePrefix(s, t);
        }
      }
    } else {
      DropSum(s, t, 1);
      TextPrefix(s[1..], t);
    }
  }

  lemma HexPrefix(s: string, t: string)
    requires |s| >= 4
    ensures Hex4(s + t) == Hex4(s)
  {
    assert (s + t)[0] == s[0] && (s + t)[1] == s[1] && (s + t)[2] == s[2] && (s + t)[3] == s[3];
  }

  lemma EscapeIsLong(s: string)
    requires "\\u" <= s && DecodeText(s).GoodText?
    ensures Hex4(s[2..]) >= 0 && DecodeText(s).size >= 7
  {
  }

  lemma {:induction false} EscapePrefix(s: string, t: string)
    requires |s| >= 6 && s[0] == '\\' && s[1] == 'u'
    ensures DecodeText(s).GoodText? ==> DecodeText(s + t) == DecodeText(s)
    ensures DecodeText(s + t).GoodText? && DecodeText(s + t).size <= |s| ==> DecodeText(s) == DecodeText(s + t)
    decreases |s|, 1
  {
    hide Hex4, JoinSurrogates;
    DropSum(s, t, 2);
    DropSum(s, t, 6);
    HexPrefix(s[2..], t);
    TextPrefix(s[6..], t);
    if IsHighSurrogate(Hex4(s[2..])) {
      if |s| >= 12 {
        PairPrefix(s, t);
      } else {
        ShortPairPrefix(s, t);
      }
    }
  }

  lemma {:induction false} PairPrefix(s: string, t: string)
    requires |s| >= 12 && s[0] == '\\' && s[1] == 'u' && IsHighSurrogate(Hex4(s[2..]))
    ensures DecodeText(s).GoodText? ==> DecodeText(s + t) == DecodeText(s)
    ensures DecodeText(s + t).GoodText? && DecodeText(s + t).size <= |s| ==> DecodeText(s) == DecodeText(s + t)
    decreases |s|, 0
  {
    hide Hex4, JoinSurrogates;
    DropSum(s, t, 2);
    DropSum(s, t, 6);
    DropSum(s, t, 8);
    DropSum(s, t, 12);
    HexPrefix(s[2..], t);
    HexPrefix(s[8..], t);
    TextPrefix(s[6..], t);
    TextPrefix(s[12..], t);
  }

  /** Too short for a second escape: a pair cannot complete within `s`. */
  lemma {:induction false} ShortPairPrefix(s: string, t: string)
    requires 6 <= |s| < 12 && s[0] == '\\' && s[1] == 'u' && IsHighSurrogate(Hex4(s[2..]))
    ensures DecodeText(s).GoodText? ==> DecodeText(s + t) == DecodeText(s)
    ensures DecodeText(s + t).GoodText? && DecodeText(s + t).size <= |s| ==> DecodeText(s) == DecodeText(s + t)
    decreases |s|, 0
  {
    hide JoinSurrogates;
    DropSum(s, t, 2);
    DropSum(s, t, 6);
    HexPrefix(s[2..], t);
    TextPrefix(s[6..], t);
    var u := s[6..];
    if "\\u" <= u + t {
      assert DecodeText(s).BadText? by {
        assert |s[6..]| < 6;
        assert "\\u" <= u ==> Hex4(s[8..]) == -1;
      }
      if DecodeText(s + t).GoodText? && DecodeText(u + t).GoodText? {
        EscapeIsLong(u + t);
      }
    }
  }

  // ----- Numbers -----

  lemma IntegerPrefix(s: string, t: string)
    requires 0 < IntegerLength(s) < |s|
    ensures IntegerLength(s + t) == IntegerLength(s)
  {
    DropSum(s, t, 1);
    DigitsPrefix(s, t);
    DigitsPrefix(s[1..], t);
  }

  lemma FractionPrefix(s: string, t: string)
    requires FractionLength(s) < |s| && (FractionLength(s) == 0 ==> s[0] != '.')
    ensures FractionLength(s + t) == FractionLength(s)
  {
    DropSum(s, t, 1);
    DigitsPrefix(s[1..], t);
  }

  lemma ExponentPrefix(s: string, t: string)
    requires ExponentLength(s) < |s| && (ExponentLength(s) == 0 ==> s[0] != 'e' && s[0] != 'E')
    ensures ExponentLength(s + t) == ExponentLength(s)
  {
    if s[0] == 'e' || s[0] == 'E' {
      assert (s + t)[1] == s[1];
      DropSum(s, t, 1);
      DropSum(s, t, 2);
      DigitsPrefix(s[1..], t);
      DigitsPrefix(s[2..], t);
    }
  }

  /** The lengths of the three parts of the number at the front of `s`. */
  ghost predicate HasParts(s: string, i: nat, f: nat, e: nat) {
    && 0 < i && i + f + e <= |s|
    && IntegerLength(s) == i && FractionLength(s[i..]) == f && ExponentLength(s[i + f..]) == e
  }

  lemma PartsPrefix(s: string, t: string, i: nat, f: nat, e: nat)
    requires HasParts(s, i, f, e) && i + f + e < |s| && !ExtendsNumber(s[i + f + e])
    ensures HasParts(s + t, i, f, e)
  {
    IntegerPrefix(s, t);
    assert FractionLength((s + t)[i..]) == f by {
      DropSum(s, t, i);
      FractionPrefix(s[i..], t);
    }
    assert ExponentLength((s + t)[i + f..]) == e by {
      DropSum(s, t, i + f);
      ExponentPrefix(s[i + f..], t);
    }
  }

  lemma PartsDecode(s: string, i: nat, f: nat, e: nat)
    requires HasParts(s, i, f, e)
    ensures DecodeNumber(s) == Got(Number(s[..i + f + e], f + e > 0), i + f + e)
  {
  }

  /** A number that has visibly ended is read the same with more text behind it. */
  lemma NumberPrefix(s: string, t: string)
    requires DecodeNumber(s).Got? && DecodeNumber(s).size < |s| && !ExtendsNumber(s[DecodeNumber(s).size])
    ensures DecodeNumber(s + t) == DecodeNumber(s)
  {
    hide IntegerLength, FractionLength, ExponentLength, ExtendsNumber;
    var i := IntegerLength(s);
    var f := FractionLength(s[i..]);
    var e := ExponentLength(s[i + f..]);
    PartsPrefix(s, t, i, f, e);
    PartsDecode(s + t, i, f, e);
    assert (s + t)[..i + f + e] == s[..i + f + e];
  }

  /** And a number that ends within `s` can be read from `s` alone. */
  lemma NumberTruncated(s: string, t: string)
    requires DecodeNumber(s + t).Got? && DecodeNumber(s + t).size <= |s|
    ensures DecodeNumber(s) == DecodeNumber(s + t)
  {
    hide IntegerLength, FractionLength, ExponentLength;
    var i := IntegerLength(s + t);
    var f := FractionLength((s + t)[i..]);
    IntegerTruncated(s, t);
    DropSum(s, t, i);
    FractionTruncated(s[i..], t);
    DropSum(s, t, i + f);
    ExponentTruncated(s[i + f..], t);
  }

  lemma IntegerTruncated(s: string, t: string)
    requires IntegerLength(s + t) <= |s|
    ensures IntegerLength(s) == IntegerLength(s + t)
  {
    if s == [] {
      return;
    }
    DropSum(s, t, 1);
    DigitsPrefix(s, t);
    DigitsPrefix(s[1..], t);
  }

  lemma FractionTruncated(s: string, t: string)
    requires FractionLength(s + t) <= |s|
    ensures FractionLength(s) == FractionLength(s + t)
  {
    if s != [] {
      DropSum(s, t, 1);
      DigitsPrefix(s[1..], t);
    }
  }

  lemma ExponentTruncated(s: string, t: string)
    requires ExponentLength(s + t) <= |s|
    ensures ExponentLength(s) == ExponentLength(s + t)
  {
    if |s| > 1 {
      DropSum(s, t, 1);
      DropSum(s, t, 2);
      DigitsPrefix(s[1..], t);
      DigitsPrefix(s[2..], t);
    }
  }

  // ----- Values -----

  /** Nothing that could follow would change how `v`, read from `s`, was read. */
  predicate HasEnded(s: string, v: Decoded)
    requires v.Got? ==> v.size <= |s|
  {
    v.Got? && (v.value.Number? ==> v.size < |s| && !ExtendsNumber(s[v.size]))
  }

  lemma {:induction false} ValuePrefix(s: string, t: string)
    ensures HasEnded(s, DecodeValue(s)) ==> DecodeValue(s + t) == DecodeValue(s)
    ensures DecodeValue(s + t).Got? && DecodeValue(s + t).size <= |s| ==> DecodeValue(s) == DecodeValue(s + t)
    decreases |s|, 0
  {
    hide DecodeText, DecodeItems, DecodeMembers, DecodeNumber, DecodeConstant;
    if s == [] {
      return;
    }
    DropSum(s, t, 1);
    if s[0] == '\"' {
      TextPrefix(s[1..], t);
    } else if s[0] == '{' {
      MembersPrefix(s[1..], t);
    } else if s[0] == '[' {
      ItemsPrefix(s[1..], t);
    } else {
      ScalarPrefix(s, t);
    }
  }

  lemma NumbersStartWithDigits(s: string)
    ensures DecodeNumber(s).Got? && s[0] != '-' ==> IsDigit(s[0])
    ensures DecodeNumber(s).Got? && s[0] == '-' ==> |s| > 1 && IsDigit(s[1])
  {
  }

  lemma BlankHoldsNothing(s: string)
    requires NextMark(s).NoMark?
    ensures DecodeMoreItems(s).BadItems? && DecodeMoreMembers(s).BadMembers?
  {
  }

  lemma LiteralPrefix(p: string, s: string, t: string)
    ensures p <= s ==> p <= s + t
    ensures p <= s + t && |p| <= |s| ==> p <= s
    ensures p <= s + t && p != [] && s != [] ==> s[0] == p[0]
  {
    if p <= s + t && |p| <= |s| {
      assert forall i :: 0 <= i < |p| ==> s[i] == (s + t)[i];
    }
    if p <= s + t && p != [] && s != [] {
      assert (s + t)[0] == s[0];
    }
  }

  lemma ConstantPrefix(s: string, t: string)
    requires s != []
    ensures DecodeConstant(s).Got? ==> DecodeConstant(s + t) == DecodeConstant(s)
    ensures DecodeConstant(s + t).Got? && DecodeConstant(s + t).size <= |s| ==> DecodeConstant(s) == DecodeConstant(s + t)
  {
    LiteralPrefix("null", s, t);
    LiteralPrefix("true", s, t);
    LiteralPrefix("false", s, t);
    LiteralPrefix("NaN", s, t);
    LiteralPrefix("Infinity", s, t);
  }

  lemma ScalarPrefix(s: string, t: string)
    requires s != [] && s[0] != '\"' && s[0] != '{' && s[0] != '['
    ensures HasEnded(s, DecodeValue(s)) ==> DecodeValue(s + t) == DecodeValue(s)
    ensures DecodeValue(s + t).Got? && DecodeValue(s + t).size <= |s| ==> DecodeValue(s) == DecodeValue(s + t)
  {
    hide DecodeNumber, DecodeConstant, ExtendsNumber;
    if s[0] == '-' || IsDigit(s[0]) {
      if DecodeNumber(s).Got? && HasEnded(s, DecodeNumber(s)) {
        NumberPrefix(s, t);
      }
      if DecodeNumber(s + t).Got? && DecodeNumber(s + t).size <= |s| {
        NumberTruncated(s, t);
      }
      MinusPrefix(s, t);
    } else {
      ConstantPrefix(s, t);
    }
  }

  /** Whether a minus sign is followed by the constant or by a digit does not change. */
  lemma MinusPrefix(s: string, t: string)
    requires s != []
    ensures "Infinity" <= s[1..] ==> "Infinity" <= (s + t)[1..]
    ensures "Infinity" <= (s + t)[1..] && |s| >= 9 ==> "Infinity" <= s[1..]
    ensures "Infinity" <= s[1..] ==> DecodeNumber(s).Fail? || s[0] != '-'
    ensures "Infinity" <= (s + t)[1..] ==> DecodeNumber(s).Fail? || s[0] != '-'
  {
    hide DecodeNumber;
    DropSum(s, t, 1);
    LiteralPrefix("Infinity", s[1..], t);
    LiteralPrefix("Infinity", s[1..], []);
    assert s[1..] + [] == s[1..];
    if s[0] == '-' && DecodeNumber(s).Got? {
      NumbersStartWithDigits(s);
    }
  }

  lemma MarkPrefix(s: string, t: string)
    ensures NextMark(s).Mark? ==> NextMark(s + t) == NextMark(s)
    ensures NextMark(s + t).Mark? && NextMark(s + t).size <= |s| ==> NextMark(s) == NextMark(s + t)
  {
    SpacePrefix(s, t);
  }

  lemma {:induction false} SpacedPrefix(s: string, t: string)
    ensures HasEnded(s, DecodeSpaced(s)) ==> DecodeSpaced(s + t) == DecodeSpaced(s)
    ensures DecodeSpaced(s + t).Got? && DecodeSpaced(s + t).size <= |s| ==> DecodeSpaced(s) == DecodeSpaced(s + t)
    decreases |s|, 1
  {
    hide DecodeValue;
    SpacePrefix(s, t);
    if SpaceLength(s) < |s| {
      DropSum(s, t, SpaceLength(s));
      ValuePrefix(s[SpaceLength(s)..], t);
    }
  }

  /** A value followed by punctuation has visibly ended. */
  lemma MarkEndsValue(s: string, v: Decoded)
    requires v.Got? && v.size <= |s|
    requires var mark := NextMark(s[v.size..]); mark.Mark? && (mark.c == ']' || mark.c == ',')
    ensures HasEnded(s, v)
  {
  }

  lemma {:induction false} ItemsPrefix(s: string, t: string)
    ensures DecodeItems(s).GoodItems? ==> DecodeItems(s + t) == DecodeItems(s)
    ensures DecodeItems(s + t).GoodItems? && DecodeItems(s + t).size <= |s| ==> DecodeItems(s) == DecodeItems(s + t)
    decreases |s|, 3
  {
    hide DecodeMoreItems, NextMark;
    MarkPrefix(s, t);
    MoreItemsPrefix(s, t);
    if NextMark(s).NoMark? {
      BlankHoldsNothing(s);
    }
  }

  lemma {:induction false} MoreItemsPrefix(s: string, t: string)
    ensures DecodeMoreItems(s).GoodItems? ==> DecodeMoreItems(s + t) == DecodeMoreItems(s)
    ensures DecodeMoreItems(s + t).GoodItems? && DecodeMoreItems(s + t).size <= |s| ==> DecodeMoreItems(s) == DecodeMoreItems(s + t)
    decreases |s|, 2
  {
    hide DecodeSpaced, NextMark, HasEnded, DecodeValue, DecodeItems;
    SpacedPrefix(s, t);
    var v := DecodeSpaced(s);
    if v.Got? {
      DropSum(s, t, v.size);
      MarkPrefix(s[v.size..], t);
      var mark := NextMark(s[v.size..]);
      if mark.Mark? {
        if mark.c == ']' {
          MarkEndsValue(s, v);
        } else if mark.c == ',' {
          MarkEndsValue(s, v);
          DropSum(s, t, v.size + mark.size);
          MoreItemsPrefix(s[v.size + mark.size..], t);
        }
      }
    }
  }

  lemma {:induction false} MembersPrefix(s: string, t: string)
    ensures DecodeMembers(s).GoodMembers? ==> DecodeMembers(s + t) == DecodeMembers(s)
    ensures DecodeMembers(s + t).GoodMembers? && DecodeMembers(s + t).size <= |s| ==> DecodeMembers(s) == DecodeMembers(s + t)
    decreases |s|, 4
  {
    hide DecodeMoreMembers, NextMark;
    MarkPrefix(s, t);
    MoreMembersPrefix(s, t);
    if NextMark(s).NoMark? {
      BlankHoldsNothing(s);
    }
  }

  lemma KeyPrefix(s: string, t: string)
    ensures DecodeKey(s).GoodText? ==> DecodeKey(s + t) == DecodeKey(s)
    ensures DecodeKey(s + t).GoodText? && DecodeKey(s + t).size <= |s| ==> DecodeKey(s) == DecodeKey(s + t)
  {
    MarkPrefix(s, t);
    var quote := NextMark(s);
    if quote.Mark? {
      DropSum(s, t, quote.size);
      TextPrefix(s[quote.size..], t);
    }
  }

  /** A member ends where its value does. */
  ghost predicate MemberEnded(s: string) {
    var m := DecodeMember(s);
    m.GoodMembers? && m.size < |s| && !ExtendsNumber(s[m.size])
  }

  lemma MarkEndsMember(s: string)
    requires DecodeMember(s).GoodMembers?
    requires var mark := NextMark(s[DecodeMember(s).size..]); mark.Mark? && !ExtendsNumber(mark.c)
    ensures MemberEnded(s)
  {
    hide DecodeMember;
  }

  lemma {:induction false} MemberPrefix(s: string, t: string)
    ensures MemberEnded(s) ==> DecodeMember(s + t) == DecodeMember(s)
    ensures DecodeMember(s + t).GoodMembers? && DecodeMember(s + t).size <= |s| ==> DecodeMember(s) == DecodeMember(s + t)
    decreases |s|, 2
  {
    hide DecodeKey, DecodeSpaced, NextMark;
    KeyPrefix(s, t);
    var key := DecodeKey(s);
    if key.GoodText? {
      DropSum(s, t, key.size);
      MarkPrefix(s[key.size..], t);
      var colon := NextMark(s[key.size..]);
      if colon.Mark? {
        DropSum(s, t, key.size + colon.size);
        SpacedPrefix(s[key.size + colon.size..], t);
      }
    }
  }

  lemma {:induction false} MoreMembersPrefix(s: string, t: string)
    ensures DecodeMoreMembers(s).GoodMembers? ==> DecodeMoreMembers(s + t) == DecodeMoreMembers(s)
    ensures DecodeMoreMembers(s + t).GoodMembers? && DecodeMoreMembers(s + t).size <= |s| ==>
      DecodeMoreMembers(s) == DecodeMoreMembers(s + t)
    decreases |s|, 3
  {
    hide DecodeMember, MemberEnded, NextMark, SpaceLength;
    MemberPrefix(s, t);
    var m := DecodeMember(s);
    if m.GoodMembers? {
      DropSum(s, t, m.size);
      MarkPrefix(s[m.size..], t);
      var mark := NextMark(s[m.size..]);
      if mark.Mark? {
        if mark.c == '}' || mark.c == ',' {
          MarkEndsMember(s);
        }
        DropSum(s, t, m.size + mark.size);
        MoreMembersPrefix(s[m.size + mark.size..], t);
      }
    }
  }
}
