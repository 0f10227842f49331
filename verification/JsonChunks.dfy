/** Reading by chunks against reading the whole text: when they agree. */
module JsonChunks {
  import opened Json
  import opened JsonPrefix
  import opened JsonArrayReader
  import opened TextSpace

  /** A bare number with a fraction or an exponent. */
  predicate IsReal(v: Value) {
    v.Number? && v.isReal
  }

  predicate NoReals(values: seq<Value>) {
    forall i :: 0 <= i < |values| ==> !IsReal(values[i])
  }

  lemma {:induction false} TrimPrefix(s: string, t: string)
    ensures Trim(s + t) == if Trim(s) == [] then Trim(t) else Trim(s) + t
  {
    if s == [] {
      assert s + t == t;
    } else if IsSpace(s[0]) {
      assert (s + t)[1..] == s[1..] + t;
      TrimPrefix(s[1..], t);
    }
  }

  // ----- Numbers cut in two -----

  lemma FractionStays(s: string, t: string)
    requires FractionLength(s) > 0
    ensures FractionLength(s + t) > 0
  {
    DropSum(s, t, 1);
    DigitsPrefix(s[1..], t);
  }

  lemma ExponentStays(s: string, t: string)
    requires ExponentLength(s) > 0
    ensures ExponentLength(s + t) > 0
  {
    assert (s + t)[1] == s[1];
    DropSum(s, t, 1);
    DropSum(s, t, 2);
    DigitsPrefix(s[1..], t);
    DigitsPrefix(s[2..], t);
  }

  /** A bare integer at the end of `s` goes on with the digits of `t`, unless it
      begins with a zero. */
  lemma IntegerGoesOn(s: string, t: string)
    requires IntegerLength(s) == |s| > 0
    ensures IntegerLength(s + t) == |s| || IntegerLength(s + t) == |s| + DigitsLength(t)
  {
    DropSum(s, t, 1);
    DigitsPrefix(s, t);
    DigitsPrefix(s[1..], t);
  }

  predicate StartsNumber(s: string) {
    s != [] && (IsDigit(s[0]) || (s[0] == '-' && |s| > 1 && IsDigit(s[1])))
  }

  lemma NumberDecodes(s: string)
    requires StartsNumber(s)
    ensures DecodeValue(s) == DecodeNumber(s) && Trim(s) == s && s[0] != ',' && s[0] != ']'
  {
    hide DecodeItems, DecodeMembers, DecodeText, DecodeNumber, DecodeConstant;
  }

  lemma NumberStarts(s: string)
    requires DecodeValue(s).Got? && DecodeValue(s).value.Number?
    ensures StartsNumber(s)
  {
    assert DecodeValue(s) == DecodeNumber(s) by {
      hide DecodeItems, DecodeMembers, DecodeText, DecodeNumber, DecodeConstant;
    }
    hide DecodeValue;
    NumbersStartWithDigits(s);
  }

  /** Where the buffer ends inside or right behind a bare integer, or in front
      of a point or letter that belongs to no number. */
  lemma CutInteger(s: string, t: string) returns (n: nat, m: nat)
    requires DecodeValue(s).Got? && DecodeValue(s).value.Number? && !HasEnded(s, DecodeValue(s))
    requires !(DecodeNumber(s + t).Got? && DecodeNumber(s + t).value.isReal)
    ensures n == DecodeValue(s).size <= m == IntegerLength(s + t) <= |s + t|
    ensures DecodeNumber(s + t).Got? && DecodeNumber(s + t).size == m
    ensures FractionLength((s + t)[m..]) == 0 && ExponentLength((s + t)[m..]) == 0
    ensures m == n || (n == |s| && m - n == DigitsLength(t))
  {
    hide DecodeValue, IntegerLength, FractionLength, ExponentLength, DigitsLength, ExtendsNumber;
    NumberStarts(s);
    NumberDecodes(s);
    var i := IntegerLength(s);
    if i < |s| {
      IntegerPrefix(s, t);
    } else {
      IntegerGoesOn(s, t);
    }
    DropSum(s, t, i);
    var f := FractionLength(s[i..]);
    if f > 0 {
      IntegerEndsEarly(s, i);
      FractionStays(s[i..], t);
    } else if ExponentLength(s[i..]) > 0 {
      IntegerEndsEarly(s, i);
      ExponentStays(s[i..], t);
    }
    n, m := i, IntegerLength(s + t);
  }

  lemma IntegerEndsEarly(s: string, i: nat)
    requires i <= |s| && (FractionLength(s[i..]) > 0 || ExponentLength(s[i..]) > 0)
    ensures i < |s|
  {
  }

  /** A run of digits with no fraction or exponent behind it yields no object,
      however it is cut. */
  lemma {:induction false} DigitsAreSkipped(u: string, p: nat)
    requires p <= |u| && (p > 0 ==> p == DigitsLength(u))
    requires FractionLength(u[p..]) == 0 && ExponentLength(u[p..]) == 0
    ensures ReadingOf(ScanElements(u)) == ReadingOf(ScanElements(u[p..]))
    ensures NoReals(ScanElements(u[p..]).elements) ==> NoReals(ScanElements(u).elements)
    decreases p
  {
    if p == 0 {
      assert u[0..] == u;
      return;
    }
    DigitRunDecodes(u, p);
    var k := DecodeValue(u).size;
    assert u[k..][p - k..] == u[p..];
    DigitsAreSkipped(u[k..], p - k);
    SkipNumber(u);
  }

  lemma DigitRunDecodes(u: string, p: nat)
    requires 0 < p <= |u| && p == DigitsLength(u)
    requires FractionLength(u[p..]) == 0 && ExponentLength(u[p..]) == 0
    ensures Trim(u) == u && IsDigit(u[0])
    ensures DecodeValue(u).Got? && DecodeValue(u).value.Number? && !DecodeValue(u).value.isReal
    ensures DecodeValue(u).size == p || (DecodeValue(u).size == 1 && p - 1 == DigitsLength(u[1..]))
  {
    hide DecodeValue, Trim, DecodeNumber, HasParts, DigitsLength, FractionLength, ExponentLength;
    var i := DigitRunParts(u, p);
    PartsDecode(u, i, 0, 0);
    NumberDecodes(u);
  }

  lemma DigitRunParts(u: string, p: nat) returns (i: nat)
    requires 0 < p <= |u| && p == DigitsLength(u)
    requires FractionLength(u[p..]) == 0 && ExponentLength(u[p..]) == 0
    ensures IsDigit(u[0]) && HasParts(u, i, 0, 0)
    ensures i == p || (i == 1 && p - 1 == DigitsLength(u[1..]))
  {
    i := if u[0] == '0' then 1 else p;
    if u[0] == '0' && p > 1 {
      assert IsDigit(u[1..][0]);
    }
  }

  lemma SkipNumber(u: string)
    requires Trim(u) == u && u != [] && IsDigit(u[0])
    requires var v := DecodeValue(u); v.Got? && v.value.Number? && !v.value.isReal
    ensures var rest := ScanElements(u[DecodeValue(u).size..]);
      && ReadingOf(ScanElements(u)) == ReadingOf(rest)
      && (NoReals(rest.elements) ==> NoReals(ScanElements(u).elements))
  {
    hide DecodeValue;
    var v := DecodeValue(u);
    var rest := ScanElements(u[v.size..]);
    assert ScanElements(u) == Scan([v.value] + rest.elements, rest.outcome);
    assert ([v.value] + rest.elements)[1..] == rest.elements;
  }

  // ----- One buffer against the whole -----

  /** What is left of the text once the buffer has been scanned as far as it goes. */
  function Remaining(d: Drained, rest: string): Scan {
    ScanFrom(d.tail + rest, d.started)
  }

  /** Scanning a buffer and then the rest, against scanning both as one text. */
  ghost predicate DrainAgrees(buf: string, rest: string, started: bool) {
    var d := Drain(buf, started);
    var whole := ScanFrom(buf + rest, started);
    match d.stop
    case Refused => ReadingOf(whole) == Reading(d.objects, NotAnArray)
    case Closed => ReadingOf(whole) == Reading(d.objects, Complete)
    case _ =>
      && ReadingOf(whole) == Prefixed(d.objects, ReadingOf(Remaining(d, rest)))
      && NoReals(Remaining(d, rest).elements)
      && (d.stop.Stuck? ==> IsStuck(d.tail) && d.started)
  }

  /** A buffer whose front does not decode, so far. */
  predicate IsStuck(s: string) {
    s != [] && Trim(s) == s && s[0] != ',' && s[0] != ']' && DecodeValue(s).Fail?
  }

  lemma ScanSeesTrimmed(s: string, t: string, started: bool)
    requires Trim(s) == Trim(t)
    ensures ScanFrom(s, started) == ScanFrom(t, started)
  {
    hide DecodeValue;
  }

  lemma YieldFirst(v: Value, rest: Scan)
    ensures var objects := if v.Object? then [v] else [];
      ReadingOf(Scan([v] + rest.elements, rest.outcome)) == Prefixed(objects, ReadingOf(rest))
    ensures NoReals([v] + rest.elements) ==> NoReals(rest.elements)
  {
    assert ([v] + rest.elements)[1..] == rest.elements;
    forall i | 0 <= i < |rest.elements| && NoReals([v] + rest.elements) ensures !IsReal(rest.elements[i]) {
      assert ([v] + rest.elements)[i + 1] == rest.elements[i];
    }
  }

  lemma {:induction false} DrainMatches(buf: string, rest: string, started: bool)
    requires NoReals(ScanFrom(buf + rest, started).elements)
    ensures DrainAgrees(buf, rest, started)
    decreases |buf|
  {
    hide DecodeValue;
    var t := Trim(buf);
    TrimPrefix(buf, rest);
    if t == [] {
      assert [] + rest == rest;
      ScanSeesTrimmed(buf + rest, rest, started);
      return;
    }
    assert Trim(t + rest) == Trim(buf + rest) by { TrimPrefix(t, rest); }
    ScanSeesTrimmed(buf + rest, t + rest, started);
    DrainSeesTrimmed(buf, t, started);
    DropSum(t, rest, 1);
    if !started {
      if t[0] == '[' {
        DrainMatches(t[1..], rest, true);
      }
    } else if t[0] == ',' {
      DrainMatches(t[1..], rest, true);
    } else if t[0] != ']' {
      DrainElement(t, rest);
    }
  }

  /** What one decoded element contributes to a buffer's scan and to a text's. */
  lemma ElementStep(t: string)
    requires t != [] && Trim(t) == t && t[0] != ',' && t[0] != ']' && DecodeValue(t).Got?
    ensures var v := DecodeValue(t);
      var objects := if v.value.Object? then [v.value] else [];
      var left := ScanElements(t[v.size..]);
      && Drain(t, true) == Found(objects, Drain(t[v.size..], true))
      && ReadingOf(ScanElements(t)) == Prefixed(objects, ReadingOf(left))
      && (NoReals(ScanElements(t).elements) ==> NoReals(left.elements) && !IsReal(v.value))
  {
    hide DecodeValue;
    var v := DecodeValue(t);
    YieldFirst(v.value, ScanElements(t[v.size..]));
    assert ScanElements(t).elements[0] == v.value;
  }

  lemma FoundAgrees(t: string, rest: string, k: nat, objects: seq<Value>)
    requires k <= |t| && DrainAgrees(t[k..], rest, true)
    requires Drain(t, true) == Found(objects, Drain(t[k..], true))
    requires ReadingOf(ScanElements(t + rest)) == Prefixed(objects, ReadingOf(ScanElements(t[k..] + rest)))
    ensures DrainAgrees(t, rest, true)
  {
    hide Drain, ScanElements, IsStuck;
    var d := Drain(t[k..], true);
    PrefixedTwice(objects, d.objects, ReadingOf(Remaining(d, rest)));
  }

  lemma {:induction false} DrainElement(t: string, rest: string)
    requires t != [] && Trim(t) == t && Trim(t + rest) == t + rest && t[0] != ',' && t[0] != ']'
    requires NoReals(ScanElements(t + rest).elements)
    ensures DrainAgrees(t, rest, true)
    decreases |t|, 0
  {
    var v := DecodeValue(t);
    if v.Fail? {
      StuckAgrees(t, rest);
      return;
    }
    hide *;
    ElementStep(t);
    DropSum(t, rest, v.size);
    var objects := if v.value.Object? then [v.value] else [];
    if HasEnded(t, v) {
      ValuePrefix(t, rest);
      ElementStep(t + rest);
    } else {
      SplitInteger(t, rest);
    }
    DrainMatches(t[v.size..], rest, true);
    FoundAgrees(t, rest, v.size, objects);
  }

  lemma StuckAgrees(t: string, rest: string)
    requires t != [] && Trim(t) == t && t[0] != ',' && t[0] != ']' && DecodeValue(t).Fail?
    requires NoReals(ScanElements(t + rest).elements)
    ensures DrainAgrees(t, rest, true)
  {
    hide DecodeValue;
  }

  /** A bare number that is no real yields nothing. */
  lemma NumberStep(s: string)
    requires StartsNumber(s) && DecodeNumber(s).Got? && NoReals(ScanElements(s).elements)
    ensures var n, left := DecodeNumber(s).size, ScanElements(s[DecodeNumber(s).size..]);
      !DecodeNumber(s).value.isReal && ReadingOf(ScanElements(s)) == Prefixed([], ReadingOf(left)) && NoReals(left.elements)
  {
    NumberDecodes(s);
    hide DecodeValue, DecodeNumber, ScanElements, Trim, Drain;
    ElementStep(s);
  }

  /** Cutting a bare integer in two changes nothing that is yielded. */
  lemma SplitInteger(t: string, rest: string)
    requires t != [] && Trim(t + rest) == t + rest && t[0] != ',' && t[0] != ']'
    requires DecodeValue(t).Got? && !HasEnded(t, DecodeValue(t))
    requires NoReals(ScanElements(t + rest).elements)
    ensures var left := ScanElements((t + rest)[DecodeValue(t).size..]);
      && ReadingOf(ScanElements(t + rest)) == Prefixed([], ReadingOf(left)) && NoReals(left.elements)
      && DecodeValue(t).value.Number?
  {
    UnendedIsNumber(t, rest);
    hide *;
    if DecodeNumber(t + rest).Got? {
      NumberStep(t + rest);
    }
    var n, m := CutInteger(t, rest);
    SkipFrom(t, rest, n, m);
  }

  lemma UnendedIsNumber(t: string, rest: string)
    requires DecodeValue(t).Got? && !HasEnded(t, DecodeValue(t))
    ensures DecodeValue(t).value.Number? && StartsNumber(t + rest)
  {
    hide DecodeValue, IsDigit;
    NumberStarts(t);
  }

  /** What is behind a cut in a run of digits yields what is behind the run. */
  lemma SkipFrom(t: string, rest: string, n: nat, m: nat)
    requires n <= m <= |t + rest| && FractionLength((t + rest)[m..]) == 0 && ExponentLength((t + rest)[m..]) == 0
    requires m == n || (n == |t| && m - n == DigitsLength(rest))
    ensures var s := t + rest;
      && ReadingOf(ScanElements(s[n..])) == ReadingOf(ScanElements(s[m..]))
      && (NoReals(ScanElements(s[m..]).elements) ==> NoReals(ScanElements(s[n..]).elements))
  {
    hide *;
    if m > n {
      DropSum(t, rest, n);
      assert rest[m - n..] == (t + rest)[m..];
      assert rest == (t + rest)[n..];
      DigitsAreSkipped(rest, m - n);
    }
  }
}
