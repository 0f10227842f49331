/** Which chunk sizes are safe for a given text: exactly those that put no chunk
    boundary where it breaks a bare number. */
module JsonChunkSizes {
  import opened Json
  import opened JsonPrefix
  import opened JsonArrayReader
  import opened JsonChunks
  import opened JsonChunkTheorems
  import opened JsonCuts
  import opened TextSpace

  // ----- One element cut in two -----

  ghost predicate SameCuts(s: string, inS: bool, base: nat, t: string, inT: bool, base': nat) {
    CutsAhead(s, inS, base, t, inT, base', [])
  }

  /** Cuts of `s` have in front of them what those of `t` have, behind `objects`. */
  ghost predicate CutsAhead(s: string, inS: bool, a: nat, t: string, inT: bool, b: nat, objects: seq<Value>) {
    forall x: nat :: x > 0 ==> CutAt(s, inS, a, x) == Ahead(objects, CutAt(t, inT, b, x))
  }

  /** A value that reaches beyond the cut although its front decodes is a number. */
  lemma OnlyNumbersGoOn(t: string, rest: string)
    requires DecodeValue(t).Got? && DecodeValue(t + rest).Got? && DecodeValue(t + rest).size > |t|
    ensures DecodeValue(t) == DecodeNumber(t) && DecodeValue(t + rest) == DecodeNumber(t + rest)
    ensures DecodeValue(t).value.Number?
  {
    hide DecodeValue, DecodeNumber;
    ValuePrefix(t, rest);
    NumberStarts(t);
    NumberDecodes(t);
    NumberDecodes(t + rest);
  }

  ghost predicate Splits(t: string, rest: string) {
    && ReadingOf(ScanElements(t + rest)) == ReadingOf(ScanElements(rest))
    && SameCuts(t + rest, true, |t|, rest, true, 0)
    && !RunsOn(rest)
  }

  /** The parts of the number that is cut, and of the tail that is left. */
  lemma CutLeavesTail(t: string, rest: string, i: nat, f: nat, e: nat) returns (p: nat, g: nat, h: nat)
    requires HasParts(t + rest, i, f, e) && 0 < |t| < i + f + e && !CutsParts(t + rest, i, f, e, |t|)
    requires f + e > 0 ==> i + f + e == |t + rest| || !ExtendsNumber((t + rest)[i + f + e])
    requires DecodeNumber(t).Got?
    ensures DecodeNumber(t).size == |t|
    ensures HasTail(rest, p, g, h) && p + g + h == i + f + e - |t| && (g + h > 0 ==> f + e > 0)
    ensures SameCutsInNumber(t, rest, i, f, e, p, g, h)
  {
    assert IntegerLength(t) > 0;
    hide IntegerLength, FractionLength, ExponentLength, ExponentLead, HasTail, SameCutsInNumber;
    if |t| < i {
      p := CutInInteger(t, rest, i, f, e);
      g, h := f, e;
    } else if f > 0 && |t| < i + f {
      p := CutInFraction(t, rest, i, f, e);
      g, h := 0, e;
    } else {
      p := CutInExponent(t, rest, i, f, e);
      g, h := 0, 0;
    }
  }

  lemma PartsOf(s: string) returns (i: nat, f: nat, e: nat)
    requires DecodeNumber(s).Got?
    ensures HasParts(s, i, f, e) && DecodeNumber(s).size == i + f + e
    ensures IsReal(DecodeNumber(s).value) <==> f + e > 0
  {
    i := IntegerLength(s);
    f := FractionLength(s[i..]);
    e := ExponentLength(s[i + f..]);
  }

  /** The parts of a number that a harmless cut goes through. */
  lemma HarmlessCut(t: string, rest: string) returns (i: nat, f: nat, e: nat)
    requires t != [] && Trim(t + rest) == t + rest && t[0] != ',' && t[0] != ']'
    requires DecodeValue(t).Got? && DecodeValue(t + rest).Got? && DecodeValue(t + rest).size > |t|
    requires !RunsOn(t + rest) && !FrontOf(t + rest, |t|).breaks
    ensures HasParts(t + rest, i, f, e) && DecodeValue(t + rest).value.Number?
    ensures DecodeValue(t + rest).size == i + f + e
    ensures !CutsParts(t + rest, i, f, e, |t|) && !RunsOn((t + rest)[i + f + e..])
    ensures f + e > 0 ==> !IsBroken((t + rest)[i + f + e..])
  {
    var whole := t + rest;
    hide DecodeValue, RunsOn, FrontOf, HasParts, CutsParts, CutsNumber, Trim, IsBroken, DecodeNumber;
    OnlyNumbersGoOn(t, rest);
    ElementRunsOn(whole);
    i, f, e := PartsOf(whole);
    ElementCut(whole, |t|);
    PartsCut(whole, i, f, e, |t|);
  }

  /** Cutting a bare number elsewhere changes nothing that is yielded, nor what
      later cuts break. */
  lemma SafeSplit(t: string, rest: string)
    requires t != [] && Trim(t + rest) == t + rest && t[0] != ',' && t[0] != ']'
    requires DecodeValue(t).Got? && DecodeValue(t + rest).Got? && DecodeValue(t + rest).size > |t|
    requires !RunsOn(t + rest) && !FrontOf(t + rest, |t|).breaks
    ensures DecodeValue(t).size == |t| && Splits(t, rest) && !DecodeValue(t).value.Object?
  {
    hide DecodeValue, ScanElements, Drain, FrontOf, HasParts, HasTail, CutsParts, IsSkipped, SameCutsInNumber;
    hide Trim, DecodeNumber, ExtendsNumber, SameCuts, RunsOn;
    var i, f, e := HarmlessCut(t, rest);
    OnlyNumbersGoOn(t, rest);
    ElementStep(t + rest);
    assert i + f + e == |t + rest| || (t + rest)[i + f + e..][0] == (t + rest)[i + f + e];
    var p, g, h := CutLeavesTail(t, rest, i, f, e);
    TailFits(rest, p, g, h);
    TailIsSkipped(rest, p, g, h);
    assert rest[p + g + h..] == (t + rest)[i + f + e..];
    SplitYields(t, rest, i, f, e, p, g, h);
    TailDoesNotRunOn(t, rest, i, f, e, p, g, h);
    SplitCuts(t, rest, i, f, e, p, g, h);
  }

  lemma TailFits(rest: string, p: nat, g: nat, h: nat)
    requires HasTail(rest, p, g, h)
    ensures p + g + h <= |rest|
  {
  }

  lemma TailDoesNotRunOn(t: string, rest: string, i: nat, f: nat, e: nat, p: nat, g: nat, h: nat)
    requires i + f + e <= |t + rest| && p + g + h <= |rest| && IsSkipped(rest, p, g, h)
    requires rest[p + g + h..] == (t + rest)[i + f + e..] && !RunsOn((t + rest)[i + f + e..])
    requires f + e > 0 ==> !IsBroken((t + rest)[i + f + e..])
    requires g + h > 0 ==> f + e > 0
    ensures !RunsOn(rest)
  {
    hide ScanElements, CutsLike, RunsOn, IsBroken;
  }

  lemma SplitYields(t: string, rest: string, i: nat, f: nat, e: nat, p: nat, g: nat, h: nat)
    requires i + f + e <= |t + rest| && p + g + h <= |rest| && IsSkipped(rest, p, g, h)
    requires rest[p + g + h..] == (t + rest)[i + f + e..]
    requires ReadingOf(ScanElements(t + rest)) == Prefixed([], ReadingOf(ScanElements((t + rest)[i + f + e..])))
    ensures ReadingOf(ScanElements(t + rest)) == ReadingOf(ScanElements(rest))
  {
    PrefixedNothing(ReadingOf(ScanElements((t + rest)[i + f + e..])));
    hide ScanElements, ReadingOf, Prefixed, CutsLike;
  }

  lemma SplitCut(t: string, rest: string, i: nat, f: nat, e: nat, p: nat, g: nat, h: nat, x: nat)
    requires t != [] && Trim(t + rest) == t + rest && t[0] != ',' && t[0] != ']' && x > 0
    requires var v := DecodeValue(t + rest); v.Got? && v.value.Number? && v.size == i + f + e
    requires HasParts(t + rest, i, f, e) && p + g + h <= |rest| && p + g + h == i + f + e - |t|
    requires FrontOf(rest, x) == CutsThere(rest, p, g, h, x)
    requires i + f + e <= |t + rest|
    requires CutsParts(t + rest, i, f, e, |t| + x) <==> CutsParts(rest, p, g, h, x)
    ensures CutAt(t + rest, true, |t|, x) == Ahead([], CutAt(rest, true, 0, x))
  {
    hide *;
    NumberCut(t + rest, i, f, e, |t| + x);
    CutsThereShift(t, rest, i, f, e, p, g, h, x);
    CutAtStarted(t + rest, |t|, x);
    CutAtStarted(rest, 0, x);
    NothingAhead(CutAt(rest, true, 0, x));
  }

  lemma CutAtStarted(s: string, base: nat, x: nat)
    ensures CutAt(s, true, base, x) == FrontOf(s, base + x)
  {
  }

  lemma CutsThereShift(t: string, rest: string, i: nat, f: nat, e: nat, p: nat, g: nat, h: nat, x: nat)
    requires p + g + h <= |rest| && p + g + h == i + f + e - |t| && i + f + e <= |t + rest|
    requires CutsParts(t + rest, i, f, e, |t| + x) <==> CutsParts(rest, p, g, h, x)
    ensures CutsThere(t + rest, i, f, e, |t| + x) == CutsThere(rest, p, g, h, x)
  {
    hide CutsParts, FrontOf;
    assert (t + rest)[i + f + e..] == rest[p + g + h..];
  }

  lemma SplitCuts(t: string, rest: string, i: nat, f: nat, e: nat, p: nat, g: nat, h: nat)
    requires t != [] && Trim(t + rest) == t + rest && t[0] != ',' && t[0] != ']'
    requires var v := DecodeValue(t + rest); v.Got? && v.value.Number? && v.size == i + f + e
    requires HasParts(t + rest, i, f, e) && p + g + h <= |rest| && p + g + h == i + f + e - |t|
    requires IsSkipped(rest, p, g, h) && SameCutsInNumber(t, rest, i, f, e, p, g, h)
    ensures SameCuts(t + rest, true, |t|, rest, true, 0)
  {
    hide HasParts, DecodeValue, Trim, CutsParts, FrontOf, ScanElements, CutAt, CutsThere;
    forall x: nat | x > 0 ensures CutAt(t + rest, true, |t|, x) == Ahead([], CutAt(rest, true, 0, x)) {
      SplitCut(t, rest, i, f, e, p, g, h, x);
    }
  }

  /** Where a cut breaks a number, the front is used up or stuck and the rest broken. */
  lemma FragileNumber(t: string, rest: string, i: nat, f: nat, e: nat)
    requires HasParts(t + rest, i, f, e) && 0 < |t| < i + f + e && CutsParts(t + rest, i, f, e, |t|)
    ensures DecodeNumber(t).Got? && BreaksBehind(t, rest, DecodeNumber(t).size)
  {
    hide HasParts, DecodeNumber, BreaksBehind, ExponentLead;
    if f > 0 && (|t| == i || |t| == i + 1) {
      FragileAtPoint(t, rest, i, f, e);
    } else {
      FragileAtLetter(t, rest, i, f, e);
    }
  }

  predicate BreaksBehind(t: string, rest: string, k: nat) {
    k <= |t| && IsBroken(t[k..] + rest) && (t[k..] == [] || IsBroken(t[k..]))
  }

  lemma FragileAtPoint(t: string, rest: string, i: nat, f: nat, e: nat)
    requires HasParts(t + rest, i, f, e) && f > 0 && (|t| == i || |t| == i + 1)
    ensures DecodeNumber(t) == Got(Number(t[..i], false), i) && BreaksBehind(t, rest, i)
  {
    IntegerTruncated(t, rest);
    DropSum(t, rest, i);
    assert (t + rest)[i..][0] == '.';
    hide IntegerLength, DecodeNumber;
    FragilePoint(t[i..]);
    hide FractionLength, ExponentLength;
    assert t[i + 0..] == t[i..];
    PartsDecode(t, i, 0, 0);
  }

  lemma FragileAtLetter(t: string, rest: string, i: nat, f: nat, e: nat)
    requires HasParts(t + rest, i, f, e) && e > 0 && i + f <= |t| <= i + f + ExponentLead((t + rest)[i + f..])
    ensures DecodeNumber(t).Got? && DecodeNumber(t).size == i + f && BreaksBehind(t, rest, i + f)
  {
    hide IntegerLength, FractionLength, ExponentLength, DecodeNumber, ExponentLead, IsBroken;
    IntegerTruncated(t, rest);
    DropSum(t, rest, i);
    FractionTruncated(t[i..], rest);
    DropSum(t, rest, i + f);
    FragileLetter(t[i + f..], rest);
    assert HasParts(t, i, f, 0);
    PartsDecode(t, i, f, 0);
  }

  lemma FragilePoint(s: string)
    requires s == [] || s == ['.']
    ensures FractionLength(s) == 0 && ExponentLength(s) == 0 && s[0..] == s
  {
  }

  lemma FragileLetter(s: string, rest: string)
    requires ExponentLength(s + rest) > 0 && |s| <= ExponentLead(s + rest)
    ensures ExponentLength(s) == 0 && IsBroken(s + rest) && (s == [] || IsBroken(s))
  {
  }

  // ----- One buffer, cut from the rest -----

  /** White space in front shifts the cuts. */
  lemma FragileSeesTrimmed(s: string, t: string, started: bool, x: nat)
    requires Trim(s) == Trim(t) && |t| <= |s|
    ensures FrontFrom(s, started, |s| - |t| + x) == FrontFrom(t, started, x)
  {
    hide *;
    if started {
      FrontSeesTrimmed(s, t, x);
      StartedCut(s, |s| - |t| + x);
      StartedCut(t, x);
    } else {
      UnstartedSeesTrimmed(s, t, x);
    }
  }

  lemma UnstartedSeesTrimmed(s: string, t: string, x: nat)
    requires Trim(s) == Trim(t) && |t| <= |s|
    ensures FrontFrom(s, false, |s| - |t| + x) == FrontFrom(t, false, x)
  {
    hide FrontOf, Trim, IsSpace;
  }

  lemma FrontSeesTrimmed(s: string, t: string, x: nat)
    requires Trim(s) == Trim(t) && |t| <= |s|
    ensures FrontOf(s, |s| - |t| + x) == FrontOf(t, x)
  {
    var y := |s| - |t| + x;
    FrontBehindBlanks(s, y);
    FrontBehindBlanks(t, x);
    hide *;
    assert y - (|s| - |Trim(s)|) == x - (|t| - |Trim(t)|);
  }

  lemma FrontBehindBlanks(s: string, x: nat)
    ensures var blanks := |s| - |Trim(s)|;
      FrontOf(s, x) == if x <= blanks then Front([], false) else FrontOf(Trim(s), x - blanks)
  {
    hide *;
    FrontUnfolds(s, x);
    TrimTwice(s);
    if x > |s| - |Trim(s)| {
      FrontOfTrim(Trim(s), x - (|s| - |Trim(s)|));
    }
  }

  lemma FrontUnfolds(s: string, x: nat)
    ensures var blanks := |s| - |Trim(s)|;
      FrontOf(s, x) == if x <= blanks then Front([], false) else FrontOfTrimmed(Trim(s), x - blanks)
  {
    hide Trim, FrontOfTrimmed;
  }

  lemma TrimTwice(s: string)
    ensures Trim(Trim(s)) == Trim(s)
  {
  }

  lemma RunsOnTrimmed(s: string, t: string, started: bool)
    requires Trim(s) == Trim(t)
    ensures RunsOnFrom(s, started) <==> RunsOnFrom(t, started)
  {
    hide DecodeValue, IsBroken, Trim;
  }

  lemma TrimmedTexts(buf: string, rest: string)
    ensures Trim(Trim(buf) + rest) == Trim(buf + rest)
  {
    TrimPrefix(buf, rest);
    TrimPrefix(Trim(buf), rest);
    assert [] + rest == rest;
  }

  lemma TrimmedCut(buf: string, rest: string, started: bool, x: nat)
    ensures CutAt(buf + rest, started, |buf|, x) == Ahead([], CutAt(Trim(buf) + rest, started, |Trim(buf)|, x))
  {
    var t := Trim(buf);
    TrimmedTexts(buf, rest);
    hide Trim, FrontFrom;
    FragileSeesTrimmed(buf + rest, t + rest, started, |t| + x);
    assert |buf + rest| - |t + rest| + (|t| + x) == |buf| + x;
  }

  lemma CutAtBase(s: string, started: bool, base: nat)
    ensures CutAt(s, started, base, 0) == FrontFrom(s, started, base)
  {
    assert base + 0 == base;
  }

  lemma TrimmedCuts(buf: string, rest: string, started: bool)
    ensures var t := Trim(buf);
      && Trim(t + rest) == Trim(buf + rest)
      && SameCuts(buf + rest, started, |buf|, t + rest, started, |t|)
      && FrontFrom(buf + rest, started, |buf|) == FrontFrom(t + rest, started, |t|)
      && (RunsOnFrom(buf + rest, started) <==> RunsOnFrom(t + rest, started))
  {
    var t := Trim(buf);
    TrimmedTexts(buf, rest);
    RunsOnTrimmed(buf + rest, t + rest, started);
    hide Trim, FrontFrom, CutAt, RunsOnFrom;
    forall x: nat ensures CutAt(buf + rest, started, |buf|, x) == Ahead([], CutAt(t + rest, started, |t|, x)) {
      TrimmedCut(buf, rest, started, x);
    }
    CutAtBase(buf + rest, started, |buf|);
    CutAtBase(t + rest, started, |t|);
    NothingAhead(FrontFrom(t + rest, started, |t|));
    TrimmedCut(buf, rest, started, 0);
  }

  lemma {:induction false} FragileIsInside(s: string, x: nat)
    requires FrontOf(s, x).breaks
    ensures x < |s|
    decreases |s|
  {
    hide DecodeValue, CutsNumber, Trim;
    var t := Trim(s);
    var blanks := |s| - |t|;
    if t[0] == ',' {
      FragileIsInside(t[1..], x - blanks - 1);
    } else if x - blanks >= DecodeValue(t).size {
      FragileIsInside(t[DecodeValue(t).size..], x - blanks - DecodeValue(t).size);
    }
  }

  lemma FragileFromIsInside(s: string, started: bool, x: nat)
    requires FrontFrom(s, started, x).breaks
    ensures x < |s|
  {
    hide FrontOf, Trim;
    if started {
      FragileIsInside(s, x);
    } else {
      FragileIsInside(Trim(s)[1..], x - (|s| - |Trim(s)|) - 1);
    }
  }

  /** No cut behind position `base` breaks anything. */
  ghost predicate NoCuts(s: string, started: bool, base: nat) {
    forall x: nat :: x > 0 ==> !CutAt(s, started, base, x).breaks
  }

  /** Scanning a buffer and then the rest, against scanning both as one text, where
      the cut between them breaks nothing and the text does not run on. */
  ghost predicate SafelyDrained(buf: string, rest: string, started: bool) {
    var d := Drain(buf, started);
    var whole := ScanFrom(buf + rest, started);
    match d.stop
    case Refused => ReadingOf(whole) == Reading(d.objects, NotAnArray) && NoCuts(buf + rest, started, |buf|)
    case Closed => ReadingOf(whole) == Reading(d.objects, Complete) && NoCuts(buf + rest, started, |buf|)
    case _ =>
      && ReadingOf(whole) == Prefixed(d.objects, ReadingOf(Remaining(d, rest)))
      && (d.stop.Stuck? ==> IsStuck(d.tail) && d.started)
      && !RunsOnFrom(d.tail + rest, d.started)
      && CutsAhead(buf + rest, started, |buf|, d.tail + rest, d.started, |d.tail|, d.objects)
  }

  /** `t` stands for `buf` with something consumed that yields `objects`. */
  lemma SafelyFound(buf: string, inBuf: bool, t: string, inT: bool, rest: string, objects: seq<Value>)
    requires SafelyDrained(t, rest, inT)
    requires Drain(buf, inBuf) == Found(objects, Drain(t, inT))
    requires ReadingOf(ScanFrom(buf + rest, inBuf)) == Prefixed(objects, ReadingOf(ScanFrom(t + rest, inT)))
    requires CutsAhead(buf + rest, inBuf, |buf|, t + rest, inT, |t|, objects)
    ensures SafelyDrained(buf, rest, inBuf)
  {
    hide Drain, ScanFrom, IsStuck, CutAt, RunsOnFrom, CutsAhead, NoCuts;
    var d := Drain(t, inT);
    if d.stop.Closed? || d.stop.Refused? {
      NoCutsAhead(buf + rest, inBuf, |buf|, t + rest, inT, |t|, objects);
    } else {
      PrefixedTwice(objects, d.objects, ReadingOf(Remaining(d, rest)));
      CutsAheadTwice(buf + rest, inBuf, |buf|, t + rest, inT, |t|, d.tail + rest, d.started, |d.tail|, objects, d.objects);
    }
  }

  lemma NoCutsAhead(s: string, inS: bool, a: nat, t: string, inT: bool, b: nat, objects: seq<Value>)
    requires CutsAhead(s, inS, a, t, inT, b, objects) && NoCuts(t, inT, b)
    ensures NoCuts(s, inS, a)
  {
    hide CutAt;
  }

  lemma CutsAheadTwice(s: string, inS: bool, a: nat, t: string, inT: bool, b: nat, u: string, inU: bool, c: nat,
                       objects: seq<Value>, more: seq<Value>)
    requires CutsAhead(s, inS, a, t, inT, b, objects) && CutsAhead(t, inT, b, u, inU, c, more)
    ensures CutsAhead(s, inS, a, u, inU, c, objects + more)
  {
    hide CutAt, Ahead;
    forall x: nat | x > 0 ensures CutAt(s, inS, a, x) == Ahead(objects + more, CutAt(u, inU, c, x)) {
      AheadTwice(objects, more, CutAt(u, inU, c, x));
    }
  }


  lemma MarkCut(s: string, started: bool, x: nat)
    requires s != [] && Trim(s) == s && s[0] == (if started then ',' else '[') && x > 0
    ensures FrontFrom(s, started, x) == FrontOf(s[1..], x - 1)
    ensures RunsOnFrom(s, started) <==> RunsOn(s[1..])
  {
    if started {
      FrontOfTrim(s, x);
    }
    hide DecodeValue, CutsNumber, Trim;
  }

  lemma MarkScans(s: string, started: bool)
    requires s != [] && Trim(s) == s && s[0] == (if started then ',' else '[')
    ensures Drain(s, started) == Drain(s[1..], true)
    ensures ScanFrom(s, started) == ScanElements(s[1..])
  {
    hide DecodeValue, Trim;
  }

  /** The bracket or a comma, consumed. */
  lemma MarkConsumed(t: string, rest: string, started: bool)
    requires t != [] && Trim(t) == t && Trim(t + rest) == t + rest && t[0] == (if started then ',' else '[')
    ensures Drain(t, started) == Found([], Drain(t[1..], true))
    ensures ScanFrom(t + rest, started) == ScanElements(t[1..] + rest)
    ensures SameCuts(t + rest, started, |t|, t[1..] + rest, true, |t[1..]|)
    ensures FrontFrom(t + rest, started, |t|) == FrontOf(t[1..] + rest, |t[1..]|)
    ensures RunsOnFrom(t + rest, started) <==> RunsOn(t[1..] + rest)
  {
    hide Trim, Drain, ScanElements, FrontOf, FrontFrom, ScanFrom, RunsOn, RunsOnFrom;
    DropSum(t, rest, 1);
    MarkScans(t, started);
    MarkScans(t + rest, started);
    FoundNothing(Drain(t[1..], true));
    MarkCut(t + rest, started, |t|);
    forall x: nat | x > 0 ensures CutAt(t + rest, started, |t|, x) == Ahead([], CutAt(t[1..] + rest, true, |t[1..]|, x)) {
      MarkCut(t + rest, started, |t| + x);
      StartedCut(t[1..] + rest, |t[1..]| + x);
      NothingAhead(FrontOf(t[1..] + rest, |t[1..]| + x));
    }
  }

  lemma StartedCut(s: string, x: nat)
    ensures FrontFrom(s, true, x) == FrontOf(s, x)
  {
  }

  /** An element that ends in front of the cut, consumed. */
  lemma ElementConsumed(t: string, rest: string)
    requires t != [] && Trim(t) == t && Trim(t + rest) == t + rest && t[0] != ',' && t[0] != ']'
    requires DecodeValue(t + rest).Got? && DecodeValue(t + rest).size <= |t|
    ensures DecodeValue(t) == DecodeValue(t + rest)
    ensures var v := DecodeValue(t);
      var left := t[v.size..];
      var objects := if v.value.Object? then [v.value] else [];
      && Drain(t, true) == Found(objects, Drain(left, true))
      && ReadingOf(ScanElements(t + rest)) == Prefixed(objects, ReadingOf(ScanElements(left + rest)))
      && CutsAhead(t + rest, true, |t|, left + rest, true, |left|, objects)
      && FrontOf(t + rest, |t|) == Ahead(objects, FrontOf(left + rest, |left|))
      && (RunsOn(left + rest) ==> RunsOn(t + rest))
  {
    ValuePrefix(t, rest);
    hide DecodeValue, ScanElements, Drain, FrontOf, Trim, CutsNumber, RunsOn, IsBroken;
    ElementStep(t);
    ElementStep(t + rest);
    var k := DecodeValue(t).size;
    var objects := if DecodeValue(t).value.Object? then [DecodeValue(t).value] else [];
    DropSum(t, rest, k);
    ElementCut(t + rest, |t|);
    ElementRunsOn(t + rest);
    forall x: nat | x > 0 ensures CutAt(t + rest, true, |t|, x) == Ahead(objects, CutAt(t[k..] + rest, true, |t[k..]|, x)) {
      ElementCut(t + rest, |t| + x);
    }
  }

  lemma {:induction false} SafeDrain(buf: string, rest: string, started: bool)
    requires !RunsOnFrom(buf + rest, started) && !FrontFrom(buf + rest, started, |buf|).breaks
    ensures SafelyDrained(buf, rest, started)
    decreases |buf|, 2
  {
    hide DecodeValue, ScanElements, ScanText, Drain, FrontOf, IsSpace, CutAt, RunsOn, RunsOnFrom;
    var t := Trim(buf);
    TrimmedCuts(buf, rest, started);
    ScanSeesTrimmed(buf + rest, t + rest, started);
    DrainSeesTrimmed(buf, t, started);
    assert Trim(t) == t;
    hide FrontFrom, Trim;
    if t == [] {
      assert [] + rest == rest;
      BlankDrained(rest, started);
    } else {
      FirstIsNoSpace(t, rest);
      SafeDrainTrimmed(t, rest, started);
    }
    FoundNothing(Drain(t, started));
    PrefixedNothing(ReadingOf(ScanFrom(t + rest, started)));
    SafelyFound(buf, started, t, started, rest, []);
  }

  lemma BlankDrained(rest: string, started: bool)
    requires !RunsOnFrom(rest, started)
    ensures SafelyDrained([], rest, started)
  {
    hide DecodeValue, CutAt, ScanElements, RunsOn;
    assert [] + rest == rest;
    PrefixedNothing(ReadingOf(ScanFrom(rest, started)));
  }

  lemma FirstIsNoSpace(t: string, rest: string)
    requires t != [] && Trim(t) == t
    ensures Trim(t + rest) == t + rest
  {
    TrimPrefix(t, rest);
  }

  lemma {:induction false} SafeDrainTrimmed(t: string, rest: string, started: bool)
    requires t != [] && Trim(t) == t && Trim(t + rest) == t + rest
    requires !RunsOnFrom(t + rest, started) && !FrontFrom(t + rest, started, |t|).breaks
    ensures SafelyDrained(t, rest, started)
    decreases |t|, 1
  {
    hide DecodeValue, Drain, FrontOf, CutAt, Trim, RunsOn;
    if t[0] == (if started then ',' else '[') {
      MarkConsumed(t, rest, started);
      hide ScanElements, ScanText, SafelyDrained;
      SafeDrain(t[1..], rest, true);
      PrefixedNothing(ReadingOf(ScanElements(t[1..] + rest)));
      SafelyFound(t, started, t[1..], true, rest, []);
    } else if !started {
      RefusedSafely(t, rest);
    } else if t[0] == ']' {
      ClosedSafely(t, rest);
    } else if DecodeValue(t).Fail? {
      StuckSafely(t, rest);
    } else {
      SafeElement(t, rest);
    }
  }

  lemma {:induction false} SafeElement(t: string, rest: string)
    requires t != [] && Trim(t) == t && Trim(t + rest) == t + rest && t[0] != ',' && t[0] != ']'
    requires DecodeValue(t).Got? && !RunsOn(t + rest) && !FrontOf(t + rest, |t|).breaks
    ensures SafelyDrained(t, rest, true)
    decreases |t|, 0
  {
    hide DecodeValue, Drain, FrontOf, CutAt, Trim, RunsOn, ScanElements, ScanText, SafelyDrained;
    var v := DecodeValue(t);
    var objects := if v.value.Object? then [v.value] else [];
    StillDecodes(t, rest);
    if DecodeValue(t + rest).size <= |t| {
      ElementConsumed(t, rest);
      SafeDrain(t[v.size..], rest, true);
      SafelyFound(t, true, t[v.size..], true, rest, objects);
    } else {
      SafeSplit(t, rest);
      ElementStep(t);
      BlankDrained(rest, true);
      assert t[|t|..] == [] && [] + rest == rest;
      PrefixedNothing(ReadingOf(ScanElements(rest)));
      SafelyFound(t, true, [], true, rest, []);
    }
  }

  /** What decodes goes on decoding with more text behind it. */
  lemma StillDecodes(t: string, rest: string)
    requires DecodeValue(t).Got?
    ensures DecodeValue(t + rest).Got?
  {
    hide DecodeValue;
    ValuePrefix(t, rest);
    if DecodeValue(t).value.Number? {
      NumberStarts(t);
      NumberDecodes(t);
      NumberDecodes(t + rest);
      IntegerGrows(t, rest);
    }
  }

  lemma IntegerGrows(t: string, rest: string)
    requires IntegerLength(t) > 0
    ensures IntegerLength(t + rest) > 0
  {
  }

  lemma RefusedSafely(t: string, rest: string)
    requires t != [] && Trim(t) == t && Trim(t + rest) == t + rest && t[0] != '['
    ensures SafelyDrained(t, rest, false)
  {
    hide ScanElements, Trim;
  }

  lemma ClosedSafely(t: string, rest: string)
    requires t != [] && Trim(t) == t && Trim(t + rest) == t + rest && t[0] == ']'
    ensures SafelyDrained(t, rest, true)
  {
    forall x: nat | x > 0 ensures !CutAt(t + rest, true, |t|, x).breaks {
      FrontOfTrim(t + rest, |t| + x);
    }
    hide DecodeValue, CutsNumber;
  }

  lemma StuckSafely(t: string, rest: string)
    requires t != [] && Trim(t) == t && t[0] != ',' && t[0] != ']' && DecodeValue(t).Fail?
    requires !RunsOn(t + rest)
    ensures SafelyDrained(t, rest, true)
  {
    hide DecodeValue, CutAt, RunsOn;
    PrefixedNothing(ReadingOf(ScanElements(t + rest)));
  }

  // ----- A buffer that ends where a number breaks -----

  /** The buffer ends in front of something broken, with the dictionaries in front of
      its end, the first of the text's. */
  ghost predicate BreaksOff(buf: string, rest: string, started: bool) {
    var d := Drain(buf, started);
    && d.started && (d.stop.UsedUp? || d.stop.Stuck?) && IsBroken(d.tail + rest)
    && d.objects == FrontFrom(buf + rest, started, |buf|).objects
    && d.objects <= ReadingOf(ScanFrom(buf + rest, started)).objects
  }

  lemma BreaksOffLater(buf: string, inBuf: bool, t: string, inT: bool, rest: string, objects: seq<Value>)
    requires BreaksOff(t, rest, inT)
    requires Drain(buf, inBuf) == Found(objects, Drain(t, inT))
    requires ReadingOf(ScanFrom(buf + rest, inBuf)) == Prefixed(objects, ReadingOf(ScanFrom(t + rest, inT)))
    requires FrontFrom(buf + rest, inBuf, |buf|) == Ahead(objects, FrontFrom(t + rest, inT, |t|))
    ensures BreaksOff(buf, rest, inBuf)
  {
    hide Drain, ScanFrom, IsBroken, FrontFrom;
  }

  lemma {:induction false} FragileDrain(buf: string, rest: string, started: bool)
    requires FrontFrom(buf + rest, started, |buf|).breaks
    ensures BreaksOff(buf, rest, started)
    decreases |buf|, 1
  {
    hide DecodeValue, ScanElements, ScanText, Drain, FrontOf, IsSpace, CutAt, RunsOn, RunsOnFrom;
    var t := Trim(buf);
    TrimmedCuts(buf, rest, started);
    ScanSeesTrimmed(buf + rest, t + rest, started);
    DrainSeesTrimmed(buf, t, started);
    assert Trim(t) == t;
    if t == [] {
      NothingFragileAtFront(t + rest, started);
      assert false;
    }
    hide FrontFrom, Trim;
    FirstIsNoSpace(t, rest);
    FragileDrainTrimmed(t, rest, started);
    FoundNothing(Drain(t, started));
    PrefixedNothing(ReadingOf(ScanFrom(t + rest, started)));
    NothingAhead(FrontFrom(t + rest, started, |t|));
    BreaksOffLater(buf, started, t, started, rest, []);
  }

  lemma NothingFragileAtFront(s: string, started: bool)
    ensures !FrontFrom(s, started, 0).breaks
  {
    hide DecodeValue;
  }

  lemma {:induction false} FragileDrainTrimmed(t: string, rest: string, started: bool)
    requires t != [] && Trim(t) == t && Trim(t + rest) == t + rest
    requires FrontFrom(t + rest, started, |t|).breaks
    ensures BreaksOff(t, rest, started)
    decreases |t|, 0
  {
    hide DecodeValue, Drain, FrontOf, CutAt, Trim, ScanElements, ScanText;
    FragileFront(t + rest, started, |t|);
    if t[0] == (if started then ',' else '[') {
      MarkConsumed(t, rest, started);
      hide BreaksOff;
      FragileDrain(t[1..], rest, true);
      PrefixedNothing(ReadingOf(ScanElements(t[1..] + rest)));
      NothingAhead(FrontOf(t[1..] + rest, |t[1..]|));
      BreaksOffLater(t, started, t[1..], true, rest, []);
    } else if DecodeValue(t + rest).size <= |t| {
      hide BreaksOff;
      var v := DecodeValue(t + rest);
      var objects := if v.value.Object? then [v.value] else [];
      ElementConsumed(t, rest);
      FragileDrain(t[v.size..], rest, true);
      BreaksOffLater(t, true, t[v.size..], true, rest, objects);
    } else {
      FragileElement(t, rest);
    }
  }

  /** What stands at the front of a text in which a cut breaks something. */
  lemma FragileFront(s: string, started: bool, x: nat)
    requires s != [] && Trim(s) == s && FrontFrom(s, started, x).breaks && x > 0
    ensures s[0] == '[' || started
    ensures started && s[0] != ',' ==> s[0] != ']' && DecodeValue(s).Got?
    ensures started && s[0] != ',' && x < DecodeValue(s).size ==>
      DecodeValue(s).value.Number? && CutsNumber(s, x) && FrontOf(s, x).objects == []
  {
    if started {
      FrontOfTrim(s, x);
    }
    hide DecodeValue, CutsNumber, Trim;
  }

  lemma FragileElement(t: string, rest: string)
    requires t != [] && Trim(t) == t && Trim(t + rest) == t + rest && t[0] != ',' && t[0] != ']'
    requires var v := DecodeValue(t + rest); v.Got? && v.value.Number? && |t| < v.size && CutsNumber(t + rest, |t|)
    requires FrontOf(t + rest, |t|).objects == []
    ensures BreaksOff(t, rest, true)
  {
    hide DecodeValue, Drain, ScanElements, DecodeNumber, CutsNumber, CutsParts, HasParts, Trim, IsBroken;
    hide IsDigit;
    NumberStarts(t + rest);
    NumberDecodes(t + rest);
    var i, f, e := PartsOf(t + rest);
    PartsCut(t + rest, i, f, e, |t|);
    FragileNumber(t, rest, i, f, e);
    var k := DecodeNumber(t).size;
    NumberOfFront(t, rest);
    ElementStep(t);
    FoundNothing(Drain(t[k..], true));
    if t[k..] == [] {
      DrainNothing(t[k..], true);
      assert [] + rest == rest;
    } else {
      BrokenIsStuck(t[k..]);
    }
  }

  /** A number that starts a longer text. */
  lemma NumberOfFront(t: string, rest: string)
    requires DecodeNumber(t).Got?
    ensures DecodeValue(t) == DecodeNumber(t) && !DecodeNumber(t).value.Object?
  {
    hide DecodeValue;
    NumbersStartWithDigits(t);
    assert t != [];
    NumberDecodes(t);
  }

  // ----- Chunk boundaries -----

  /** No boundary `c`, `2 * c`, ... characters behind `base` breaks a number. */
  predicate AreSafe(s: string, started: bool, base: nat, c: nat)
    requires c > 0
    decreases |s| - base
  {
    base + c >= |s| || (!CutAt(s, started, base, c).breaks && AreSafe(s, started, base + c, c))
  }

  lemma CutFurther(s: string, started: bool, base: nat, c: nat, x: nat)
    ensures CutAt(s, started, base, c + x) == CutAt(s, started, base + c, x)
  {
    assert base + (c + x) == (base + c) + x;
  }

  /** The dictionaries in front of the first boundary that breaks a number. */
  function FirstRead(s: string, started: bool, base: nat, c: nat): seq<Value>
    requires c > 0 && !AreSafe(s, started, base, c)
    decreases |s| - base
  {
    var front := CutAt(s, started, base, c);
    if front.breaks then front.objects else FirstRead(s, started, base + c, c)
  }

  lemma CutsFurther(s: string, inS: bool, a: nat, t: string, inT: bool, b: nat, objects: seq<Value>, c: nat)
    requires CutsAhead(s, inS, a, t, inT, b, objects)
    ensures CutsAhead(s, inS, a + c, t, inT, b + c, objects)
  {
    hide CutAt, Ahead;
    var a', b' := a + c, b + c;
    forall x: nat | x > 0 ensures CutAt(s, inS, a', x) == Ahead(objects, CutAt(t, inT, b', x)) {
      CutFurther(s, inS, a, c, x);
      CutFurther(t, inT, b, c, x);
    }
  }

  lemma {:induction false} SafeShift(
    s: string, inS: bool, a: nat, t: string, inT: bool, b: nat, objects: seq<Value>, c: nat)
    requires c > 0 && CutsAhead(s, inS, a, t, inT, b, objects) && |s| - a == |t| - b
    ensures AreSafe(s, inS, a, c) <==> AreSafe(t, inT, b, c)
    ensures !AreSafe(s, inS, a, c) ==> FirstRead(s, inS, a, c) == objects + FirstRead(t, inT, b, c)
    decreases |s| - a
  {
    hide CutAt;
    if a + c < |s| {
      assert CutAt(s, inS, a, c) == Ahead(objects, CutAt(t, inT, b, c));
      CutsFurther(s, inS, a, t, inT, b, objects, c);
      hide CutsAhead;
      SafeShift(s, inS, a + c, t, inT, b + c, objects, c);
    }
  }

  lemma {:induction false} NoCutsAreSafe(s: string, started: bool, base: nat, c: nat)
    requires c > 0 && NoCuts(s, started, base)
    ensures AreSafe(s, started, base, c)
    decreases |s| - base
  {
    hide CutAt;
    if base + c < |s| {
      var next := base + c;
      forall x: nat | x > 0 ensures !CutAt(s, started, next, x).breaks {
        CutFurther(s, started, base, c, x);
      }
      NoCutsAreSafe(s, started, next, c);
    }
  }

  /** What safe draining means at each way a buffer's scan can end. */
  lemma SafePart(buf: string, rest: string, started: bool, c: nat)
    requires c > 0 && SafelyDrained(buf, rest, started)
    ensures var d := Drain(buf, started);
      var whole := ReadingOf(ScanFrom(buf + rest, started));
      && (d.stop.Refused? ==> whole == Reading(d.objects, NotAnArray) && AreSafe(buf + rest, started, |buf|, c))
      && (d.stop.Closed? ==> whole == Reading(d.objects, Complete) && AreSafe(buf + rest, started, |buf|, c))
      && (d.stop.UsedUp? || d.stop.Stuck? ==>
            && whole == Prefixed(d.objects, ReadingOf(ScanFrom(d.tail + rest, d.started)))
            && !RunsOnFrom(d.tail + rest, d.started)
            && (AreSafe(buf + rest, started, |buf|, c) <==> AreSafe(d.tail + rest, d.started, |d.tail|, c))
            && (!AreSafe(buf + rest, started, |buf|, c) ==>
                  FirstRead(buf + rest, started, |buf|, c)
                    == d.objects + FirstRead(d.tail + rest, d.started, |d.tail|, c)))
      && (d.stop.Stuck? ==> IsStuck(d.tail) && d.started)
  {
    hide Drain, ScanFrom, CutAt, IsStuck, RunsOnFrom;
    var d := Drain(buf, started);
    if d.stop.Closed? || d.stop.Refused? {
      NoCutsAreSafe(buf + rest, started, |buf|, c);
    } else {
      SafeShift(buf + rest, started, |buf|, d.tail + rest, d.started, |d.tail|, d.objects, c);
    }
  }

  lemma LastChunkIsSafe(s: string, started: bool, base: nat, c: nat, n: nat)
    requires c > 0 && base + n <= |s| && (n == c || base + n == |s|) && AreSafe(s, started, base, c)
    ensures !FrontFrom(s, started, base + n).breaks && AreSafe(s, started, base + n, c)
  {
    hide FrontFrom;
    if base + n == |s| && FrontFrom(s, started, base + n).breaks {
      FragileFromIsInside(s, started, base + n);
    }
  }

  lemma {:induction false} FeedSafely(buf: string, unread: string, c: nat, started: bool, eof: bool)
    requires c > 0 && (eof ==> unread == [])
    requires !RunsOnFrom(buf + unread, started) && AreSafe(buf + unread, started, |buf|, c)
    ensures Feed(buf, unread, c, started, eof) == ReadingOf(ScanFrom(buf + unread, started))
    decreases if eof then 0 else 1 + |unread|, |buf|
  {
    hide Drain, ScanFrom, DecodeValue, RunsOnFrom, SafelyDrained, Trim, IsStuck, AreSafe, FrontFrom;
    var n := if eof then 0 else ReadSize(c, unread);
    var buf', rest := buf + unread[..n], unread[n..];
    assert buf' + rest == buf + unread;
    if buf' == [] {
      NothingToScan(buf + unread, started);
      return;
    }
    LastChunkIsSafe(buf' + rest, started, |buf|, c, n);
    SafeDrain(buf', rest, started);
    var d := Drain(buf', started);
    SafePart(buf', rest, started, c);
    if d.stop.UsedUp? || (d.stop.Stuck? && n > 0) {
      FeedSafely(d.tail, rest, c, d.started, eof || n == 0);
    } else if d.stop.Stuck? {
      assert d.tail + rest == d.tail;
      StuckMeansBad(d.tail);
    }
  }

  /** An unsafe boundary ends the iteration in the payload error, after exactly the
      dictionaries in front of the first one, which are the first of the text's. */
  lemma {:induction false} FeedUnsafely(buf: string, unread: string, c: nat, started: bool)
    requires c > 0
    requires !RunsOnFrom(buf + unread, started) && !AreSafe(buf + unread, started, |buf|, c)
    ensures var r := Feed(buf, unread, c, started, false);
      && r == Reading(FirstRead(buf + unread, started, |buf|, c), BadPayload)
      && r.objects <= ReadingOf(ScanFrom(buf + unread, started)).objects
    decreases |unread|
  {
    hide Drain, ScanFrom, DecodeValue, RunsOnFrom, SafelyDrained, Trim, IsStuck, FrontFrom, BreaksOff;
    var buf', rest := buf + unread[..c], unread[c..];
    assert buf' + rest == buf + unread;
    var d := Drain(buf', started);
    if CutAt(buf + unread, started, |buf|, c).breaks {
      FragileDrain(buf', rest, started);
      BrokenOff(buf', rest, started, c);
    } else {
      SafeDrain(buf', rest, started);
      SafePart(buf', rest, started, c);
      hide AreSafe;
      FeedUnsafely(d.tail, rest, c, d.started);
    }
  }

  lemma BrokenOff(buf: string, rest: string, started: bool, c: nat)
    requires c > 0 && BreaksOff(buf, rest, started)
    ensures var d := Drain(buf, started);
      && (d.stop.UsedUp? || d.stop.Stuck?)
      && Prefixed(d.objects, Feed(d.tail, rest, c, d.started, false)) == Reading(d.objects, BadPayload)
      && d.objects == FrontFrom(buf + rest, started, |buf|).objects
      && d.objects <= ReadingOf(ScanFrom(buf + rest, started)).objects
  {
    hide Drain, Feed, ScanFrom, FrontFrom;
    var d := Drain(buf, started);
    BrokenNeverMends(d.tail, rest, c, false);
  }

  /** Exactly when a chunk size is harmless: a text in which no real runs on reads the
      same by chunks of this size if and only if no chunk boundary breaks a bare number,
      or the whole reading, too, ends in the payload error and has no dictionary behind
      the first boundary that does. */
  lemma ChunkSizeIsHarmlessIff(text: string, c: nat)
    requires c > 0 && !RunsOnFrom(text, false)
    ensures ReadChunked(text, c) == ReadWhole(text) <==>
      || AreSafe(text, false, 0, c)
      || ReadWhole(text) == Reading(FirstRead(text, false, 0, c), BadPayload)
    ensures !AreSafe(text, false, 0, c) ==>
      && ReadChunked(text, c) == Reading(FirstRead(text, false, 0, c), BadPayload)
      && ReadChunked(text, c).objects <= ReadWhole(text).objects
  {
    hide ScanText, Feed, AreSafe, FirstRead, RunsOnFrom;
    assert [] + text == text;
    if AreSafe(text, false, 0, c) {
      FeedSafely([], text, c, false, false);
    } else {
      FeedUnsafely([], text, c, false);
    }
  }

  /** So a text that reads well as a whole reads the same by chunks of this size if and
      only if no chunk boundary breaks a bare number; and otherwise the reading ends in
      the payload error after the dictionaries in front of the first that does. */
  lemma ChunkSizeIsSafeIff(text: string, c: nat)
    requires c > 0 && ReadWhole(text).outcome == Complete
    ensures ReadChunked(text, c) == ReadWhole(text) <==> AreSafe(text, false, 0, c)
    ensures !AreSafe(text, false, 0, c) ==>
      && ReadChunked(text, c) == Reading(FirstRead(text, false, 0, c), BadPayload)
      && ReadChunked(text, c).objects <= ReadWhole(text).objects
  {
    hide ReadChunked, AreSafe, FirstRead, RunsOnFrom, ScanText;
    if RunsOnFrom(text, false) {
      RunningOnFromIsBad(text, false);
    }
    ChunkSizeIsHarmlessIff(text, c);
  }
}
