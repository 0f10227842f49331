/** Where a chunk boundary may fall: which cuts through a bare number the reader
    mends, and which it does not. */
module JsonCuts {
  import opened Json
  import opened JsonPrefix
  import opened JsonArrayReader
  import opened JsonChunks
  import opened JsonChunkTheorems
  import opened TextSpace

  // ----- Cuts that break -----

  /** How far an exponent reaches before its digits. */
  function ExponentLead(s: string): nat {
    if |s| > 1 && (s[1] == '+' || s[1] == '-') then 2 else 1
  }

  /** A cut at `x` separates the point of a number with parts of these lengths from
      a digit beside it, or the letter or sign of its exponent from what is beside it. */
  predicate CutsParts(s: string, i: nat, f: nat, e: nat, x: nat)
    requires i + f <= |s|
  {
    || (f > 0 && (x == i || x == i + 1))
    || (e > 0 && i + f <= x <= i + f + ExponentLead(s[i + f..]))
  }

  predicate CutsNumber(s: string, x: nat) {
    var i := IntegerLength(s);
    var f := FractionLength(s[i..]);
    CutsParts(s, i, f, ExponentLength(s[i + f..]), x)
  }

  /** What stands in front of a cut: the dictionaries that end there, and whether the
      cut breaks a bare number. */
  datatype Front = Front(objects: seq<Value>, breaks: bool)

  function Ahead(objects: seq<Value>, front: Front): Front {
    front.(objects := objects + front.objects)
  }

  /** What stands in front of a cut of the elements `s` at `x`. */
  function FrontOf(s: string, x: nat): Front
    decreases |s|, 1
  {
    var t := Trim(s);
    var blanks := |s| - |t|;
    if x <= blanks then Front([], false) else FrontOfTrimmed(t, x - blanks)
  }

  /** The same behind the white space, for a cut that is not at the front. */
  function FrontOfTrimmed(t: string, x: nat): Front
    requires x > 0
    decreases |t|, 0
  {
    if t == [] || t[0] == ']' then Front([], false)
    else if t[0] == ',' then FrontOf(t[1..], x - 1)
    else
      var v := DecodeValue(t);
      if v.Fail? then Front([], false)
      else if x < v.size then Front([], v.value.Number? && CutsNumber(t, x))
      else Ahead(if v.value.Object? then [v.value] else [], FrontOf(t[v.size..], x - v.size))
  }

  lemma FrontOfTrim(t: string, x: nat)
    requires Trim(t) == t && x > 0
    ensures FrontOf(t, x) == FrontOfTrimmed(t, x)
  {
    hide Trim, FrontOfTrimmed;
  }

  function FrontFrom(s: string, started: bool, x: nat): Front {
    if started then FrontOf(s, x)
    else
      var t := Trim(s);
      if t != [] && t[0] == '[' && x > |s| - |t| then FrontOf(t[1..], x - (|s| - |t|) - 1)
      else Front([], false)
  }

  /** What stands in front of a cut `x` characters behind position `base`. */
  function CutAt(s: string, started: bool, base: nat, x: nat): Front {
    FrontFrom(s, started, base + x)
  }

  lemma NothingAhead(front: Front)
    ensures Ahead([], front) == front
  {
  }

  lemma AheadTwice(a: seq<Value>, b: seq<Value>, front: Front)
    ensures Ahead(a + b, front) == Ahead(a, Ahead(b, front))
  {
    assert (a + b) + front.objects == a + (b + front.objects);
  }

  // ----- Texts that run on -----

  /** A real among the elements is directly followed by what would extend it, so that
      nothing behind it decodes. */
  predicate RunsOn(s: string)
    decreases |s|
  {
    var t := Trim(s);
    if t == [] || t[0] == ']' then false
    else if t[0] == ',' then RunsOn(t[1..])
    else
      var v := DecodeValue(t);
      v.Got? && ((IsReal(v.value) && IsBroken(t[v.size..])) || RunsOn(t[v.size..]))
  }

  predicate RunsOnFrom(s: string, started: bool) {
    if started then RunsOn(s)
    else
      var t := Trim(s);
      t != [] && t[0] == '[' && RunsOn(t[1..])
  }

  lemma ElementRunsOn(t: string)
    requires t != [] && Trim(t) == t && t[0] != ',' && t[0] != ']' && DecodeValue(t).Got?
    ensures var v := DecodeValue(t);
      RunsOn(t) <==> (IsReal(v.value) && IsBroken(t[v.size..])) || RunsOn(t[v.size..])
  {
    hide DecodeValue, IsBroken;
  }

  lemma {:induction false} RunningOnIsBad(s: string)
    requires RunsOn(s)
    ensures ScanElements(s).outcome == BadPayload
    decreases |s|
  {
    hide DecodeValue, IsBroken;
    var t := Trim(s);
    if t[0] == ',' {
      RunningOnIsBad(t[1..]);
    } else {
      var rest := t[DecodeValue(t).size..];
      if RunsOn(rest) {
        RunningOnIsBad(rest);
      } else {
        BrokenDoesNotDecode(rest);
        StuckMeansBad(rest);
      }
    }
  }

  lemma RunningOnFromIsBad(s: string, started: bool)
    requires RunsOnFrom(s, started)
    ensures ScanFrom(s, started).outcome == BadPayload
  {
    hide RunsOn, ScanElements;
    if started {
      RunningOnIsBad(s);
    } else {
      RunningOnIsBad(Trim(s)[1..]);
    }
  }

  lemma BrokenDoesNotDecode(s: string)
    requires IsBroken(s)
    ensures IsStuck(s)
  {
  }

  // ----- Tails of numbers -----

  /** A run of `p` digits, then a fraction and an exponent of these lengths. */
  ghost predicate HasTail(u: string, p: nat, f: nat, e: nat) {
    && 0 < p && p + f + e <= |u|
    && DigitsLength(u) == p && FractionLength(u[p..]) == f && ExponentLength(u[p + f..]) == e
  }

  lemma TailDecodes(u: string, p: nat, f: nat, e: nat)
    requires HasTail(u, p, f, e) && (u[0] != '0' || p == 1)
    ensures HasParts(u, p, f, e)
  {
    hide FractionLength, ExponentLength;
  }

  lemma ZeroDecodes(u: string, p: nat, f: nat, e: nat)
    requires HasTail(u, p, f, e) && u[0] == '0' && p > 1
    ensures HasParts(u, 1, 0, 0) && HasTail(u[1..], p - 1, f, e)
  {
    assert DigitsLength(u) == 1 + DigitsLength(u[1..]);
    assert IsDigit(u[1..][0]);
    assert u[1..][p - 1..] == u[p..] && u[1..][p - 1 + f..] == u[p + f..];
    hide ExponentLength;
    assert ExponentLength(u[1..]) == 0 by { NoExponentAtDigit(u[1..]); }
  }

  lemma NoExponentAtDigit(s: string)
    requires s != [] && IsDigit(s[0])
    ensures ExponentLength(s) == 0
  {
  }

  lemma TailStarts(u: string, p: nat, f: nat, e: nat)
    requires HasTail(u, p, f, e)
    ensures u != [] && IsDigit(u[0])
  {
  }

  lemma PartsCut(u: string, i: nat, f: nat, e: nat, x: nat)
    requires HasParts(u, i, f, e)
    ensures CutsNumber(u, x) <==> CutsParts(u, i, f, e, x)
  {
    hide IntegerLength, FractionLength, ExponentLength, ExponentLead;
  }

  /** What a cut does to an element and what is behind it. */
  lemma ElementCut(t: string, x: nat)
    requires t != [] && Trim(t) == t && t[0] != ',' && t[0] != ']' && DecodeValue(t).Got? && x > 0
    ensures var v := DecodeValue(t);
      FrontOf(t, x) ==
        if x < v.size then Front([], v.value.Number? && CutsNumber(t, x))
        else Ahead(if v.value.Object? then [v.value] else [], FrontOf(t[v.size..], x - v.size))
  {
    hide DecodeValue, CutsNumber, Trim, Ahead;
  }

  /** A cut at `x` breaks the number with these parts, or what is behind it. */
  function CutsThere(u: string, p: nat, f: nat, e: nat, x: nat): Front
    requires p + f + e <= |u|
  {
    if x < p + f + e then Front([], CutsParts(u, p, f, e, x)) else FrontOf(u[p + f + e..], x - (p + f + e))
  }

  ghost predicate CutsLike(u: string, p: nat, f: nat, e: nat)
    requires p + f + e <= |u|
  {
    forall x: nat :: x > 0 ==> (FrontOf(u, x) == CutsThere(u, p, f, e, x))
  }

  lemma NumberCut(u: string, i: nat, f: nat, e: nat, x: nat)
    requires DecodeValue(u).Got? && DecodeValue(u).value.Number? && DecodeValue(u).size == i + f + e
    requires u != [] && Trim(u) == u && u[0] != ',' && u[0] != ']' && HasParts(u, i, f, e) && x > 0
    ensures FrontOf(u, x) == CutsThere(u, i, f, e, x)
  {
    hide HasParts, DecodeValue, CutsNumber, FrontOf, CutsParts, Trim;
    PartsCut(u, i, f, e, x);
    ElementCut(u, x);
    if x >= i + f + e {
      NothingAhead(FrontOf(u[i + f + e..], x - (i + f + e)));
    }
  }

  lemma NumberReads(u: string, i: nat, f: nat, e: nat)
    requires u != [] && IsDigit(u[0]) && HasParts(u, i, f, e)
    ensures DecodeValue(u).Got? && DecodeValue(u).value.Number? && DecodeValue(u).size == i + f + e
    ensures IsReal(DecodeValue(u).value) <==> f + e > 0
    ensures Trim(u) == u && u[0] != ',' && u[0] != ']'
  {
    PartsDecode(u, i, f, e);
    NumberDecodes(u);
    hide DecodeValue, DecodeNumber, HasParts;
  }

  /** The number with these parts yields nothing, a cut through it breaks it according
      to the parts, and it runs on only if broken off. */
  ghost predicate IsSkipped(u: string, p: nat, f: nat, e: nat)
    requires p + f + e <= |u|
  {
    && ReadingOf(ScanElements(u)) == ReadingOf(ScanElements(u[p + f + e..]))
    && CutsLike(u, p, f, e)
    && (RunsOn(u) <==> (f + e > 0 && IsBroken(u[p + f + e..])) || RunsOn(u[p + f + e..]))
  }

  /** The number at the front of `u`, as an element. */
  lemma NumberElement(u: string, i: nat, f: nat, e: nat)
    requires u != [] && IsDigit(u[0]) && HasParts(u, i, f, e)
    ensures IsSkipped(u, i, f, e)
  {
    hide FrontOf, CutsThere, DecodeValue, ScanElements, Drain, Trim, HasParts, RunsOn, IsBroken;
    NumberReads(u, i, f, e);
    ElementStep(u);
    ElementRunsOn(u);
    PrefixedNothing(ReadingOf(ScanElements(u[i + f + e..])));
    forall x: nat | x > 0 ensures FrontOf(u, x) == CutsThere(u, i, f, e, x) {
      NumberCut(u, i, f, e, x);
    }
  }

  lemma PrefixedNothing(r: Reading)
    ensures Prefixed([], r) == r
  {
  }

  /** The tail of a number yields nothing, and later cuts break what they would
      break of the whole number. */
  lemma {:induction false} TailIsSkipped(u: string, p: nat, f: nat, e: nat)
    requires HasTail(u, p, f, e)
    ensures IsSkipped(u, p, f, e)
    decreases p
  {
    TailStarts(u, p, f, e);
    if u[0] != '0' || p == 1 {
      TailDecodes(u, p, f, e);
      hide *;
      NumberElement(u, p, f, e);
    } else {
      ZeroDecodes(u, p, f, e);
      hide *;
      NumberElement(u, 1, 0, 0);
      TailIsSkipped(u[1..], p - 1, f, e);
      ZeroSkips(u, p, f, e);
    }
  }

  lemma ZeroSkips(u: string, p: nat, f: nat, e: nat)
    requires p > 1 && p + f + e <= |u|
    requires IsSkipped(u, 1, 0, 0) && IsSkipped(u[1..], p - 1, f, e)
    ensures IsSkipped(u, p, f, e)
  {
    forall x: nat | x > 0 ensures FrontOf(u, x) == CutsThere(u, p, f, e, x) {
      assert FrontOf(u, x) == CutsThere(u, 1, 0, 0, x);
      assert u[1..][p - 1 + f + e..] == u[p + f + e..];
      assert u[1..][p - 1 + f..] == u[p + f..];
      if x == 1 {
        NothingBeforeTheFront(u[1..]);
      } else {
        assert FrontOf(u[1..], x - 1) == CutsThere(u[1..], p - 1, f, e, x - 1);
      }
      hide FrontOf, ExponentLead, CutsLike, RunsOn;
    }
    hide FrontOf, CutsThere, ScanElements, RunsOn, IsBroken;
    assert u[1..][p - 1 + f + e..] == u[p + f + e..];
  }

  lemma NothingBeforeTheFront(s: string)
    ensures FrontOf(s, 0) == Front([], false)
  {
    hide DecodeValue;
  }

  // ----- Numbers cut in two -----

  ghost predicate SameCutsInNumber(t: string, rest: string, i: nat, f: nat, e: nat, p: nat, g: nat, h: nat)
    requires i + f <= |t + rest| && p + g <= |rest|
  {
    forall x: nat :: x > 0 ==> (CutsParts(t + rest, i, f, e, |t| + x) <==> CutsParts(rest, p, g, h, x))
  }

  /** A cut inside the integer part leaves digits, the fraction and the exponent. */
  lemma CutInInteger(t: string, rest: string, i: nat, f: nat, e: nat) returns (p: nat)
    requires HasParts(t + rest, i, f, e) && |t| < i && IntegerLength(t) > 0
    ensures p == i - |t| && DecodeNumber(t).Got? && DecodeNumber(t).size == |t|
    ensures HasTail(rest, p, f, e) && SameCutsInNumber(t, rest, i, f, e, p, f, e)
  {
    hide IntegerLength, FractionLength, ExponentLength, DigitsLength, DecodeNumber, SameCutsInNumber;
    IntegerCut(t, rest);
    p := i - |t|;
    assert (t + rest)[i..] == rest[p..] && (t + rest)[i + f..] == rest[p + f..];
    assert HasParts(t, |t|, 0, 0) by { NothingBehind(t); }
    PartsDecode(t, |t|, 0, 0);
    CutsShift(t, rest, i, f, e, p);
  }

  lemma IntegerCut(t: string, rest: string)
    requires 0 < IntegerLength(t) && |t| < IntegerLength(t + rest)
    ensures IntegerLength(t) == |t| && IntegerLength(t + rest) == |t| + DigitsLength(rest)
  {
    hide IntegerLength, DigitsLength;
    if IntegerLength(t) < |t| {
      IntegerPrefix(t, rest);
    }
    IntegerGoesOn(t, rest);
  }

  lemma CutsShift(t: string, rest: string, i: nat, f: nat, e: nat, p: nat)
    requires i + f <= |t + rest| && |t| < i && p == i - |t|
    ensures SameCutsInNumber(t, rest, i, f, e, p, f, e)
  {
    hide ExponentLead;
    assert (t + rest)[i + f..] == rest[p + f..];
  }

  lemma NothingBehind(t: string)
    ensures t[|t|..] == [] && FractionLength([]) == 0 && ExponentLength([]) == 0
  {
  }

  lemma FractionCut(s: string, rest: string)
    requires 1 < |s| < FractionLength(s + rest)
    ensures FractionLength(s) == |s| && DigitsLength(rest) == FractionLength(s + rest) - |s|
  {
    DropSum(s, rest, 1);
    DigitsPrefix(s[1..], rest);
  }

  /** A cut between two digits of the fraction leaves digits and the exponent. */
  lemma CutInFraction(t: string, rest: string, i: nat, f: nat, e: nat) returns (p: nat)
    requires HasParts(t + rest, i, f, e) && i + 1 < |t| < i + f
    requires e == 0 ==> i + f == |t + rest| || !ExtendsNumber((t + rest)[i + f])
    ensures p == i + f - |t| && DecodeNumber(t).Got? && DecodeNumber(t).size == |t|
    ensures HasTail(rest, p, 0, e) && SameCutsInNumber(t, rest, i, f, e, p, 0, e)
  {
    hide IntegerLength, DigitsLength, FractionLength, ExponentLength, DecodeNumber, ExponentLead, ExtendsNumber;
    IntegerTruncated(t, rest);
    p := i + f - |t|;
    DropSum(t, rest, i);
    FractionCut(t[i..], rest);
    NothingBehind(t);
    assert HasParts(t, i, |t| - i, 0);
    PartsDecode(t, i, |t| - i, 0);
    assert (t + rest)[i + f..] == rest[p..] && rest[p + 0..] == rest[p..];
    NoFractionBehind(rest[p..], e);
  }

  lemma NoFractionBehind(s: string, e: nat)
    requires ExponentLength(s) == e && (e == 0 ==> s == [] || !ExtendsNumber(s[0]))
    ensures FractionLength(s) == 0
  {
  }

  lemma ExponentCut(s: string, rest: string)
    requires ExponentLead(s + rest) < |s| < ExponentLength(s + rest)
    ensures ExponentLength(s) == |s| && DigitsLength(rest) == ExponentLength(s + rest) - |s|
  {
    var lead := ExponentLead(s + rest);
    assert (s + rest)[0] == s[0] && (s + rest)[1] == s[1];
    DropSum(s, rest, lead);
    DigitsPrefix(s[lead..], rest);
  }

  /** A cut between two digits of the exponent leaves digits. */
  lemma CutInExponent(t: string, rest: string, i: nat, f: nat, e: nat) returns (p: nat)
    requires HasParts(t + rest, i, f, e) && i + f + ExponentLead((t + rest)[i + f..]) < |t| < i + f + e
    requires i + f + e == |t + rest| || !ExtendsNumber((t + rest)[i + f + e])
    ensures p == i + f + e - |t| && DecodeNumber(t).Got? && DecodeNumber(t).size == |t|
    ensures HasTail(rest, p, 0, 0) && SameCutsInNumber(t, rest, i, f, e, p, 0, 0)
  {
    hide IntegerLength, FractionLength, DigitsLength, ExponentLength, ExtendsNumber, DecodeNumber, ExponentLead;
    IntegerTruncated(t, rest);
    DropSum(t, rest, i);
    FractionTruncated(t[i..], rest);
    p := i + f + e - |t|;
    var k := i + f;
    DropSum(t, rest, k);
    ExponentCut(t[k..], rest);
    assert HasParts(t, i, f, |t| - k);
    PartsDecode(t, i, f, |t| - k);
    assert (t + rest)[k + e..] == rest[p..];
    NoMore(rest[p..]);
    assert rest[p + 0..] == rest[p..];
  }

  lemma NoMore(s: string)
    requires s == [] || !ExtendsNumber(s[0])
    ensures FractionLength(s) == 0 && ExponentLength(s) == 0
  {
  }
}
