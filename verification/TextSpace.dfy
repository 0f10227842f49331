/** White space in the host language's sense, and stripping it. */
module TextSpace {

  /** White space as the host language's `isspace` has it. */
  predicate IsSpace(c: char) {
    var p := c as int;
    || 0x09 <= p <= 0x0D || 0x1C <= p <= 0x20 || p == 0x85 || p == 0xA0 || p == 0x1680
    || 0x2000 <= p <= 0x200A || p == 0x2028 || p == 0x2029 || p == 0x202F || p == 0x205F || p == 0x3000
  }

  /** Without leading white space. */
  function Trim(s: string): (r: string)
    ensures |r| <= |s|
    ensures r == [] || !IsSpace(r[0])
  {
    if s != [] && IsSpace(s[0]) then Trim(s[1..]) else s
  }

  /** Without trailing white space. */
  function TrimEnd(s: string): (r: string)
    ensures |r| <= |s|
    ensures r == [] || !IsSpace(r[|r| - 1])
  {
    if s != [] && IsSpace(s[|s| - 1]) then TrimEnd(s[..|s| - 1]) else s
  }

  function Strip(s: string): string {
    TrimEnd(Trim(s))
  }

  predicate IsBlank(s: string) {
    forall i :: 0 <= i < |s| ==> IsSpace(s[i])
  }

  /** Trimming takes off blanks and nothing else. */
  lemma {:induction false} TrimIsRest(s: string)
    ensures var k := |s| - |Trim(s)|;
      Trim(s) == s[k..] && IsBlank(s[..k]) && forall i :: 0 <= i < k ==> IsSpace(s[i])
    decreases |s|
  {
    hide IsSpace, IsBlank;
    if s != "" && IsSpace(s[0]) {
      TrimIsRest(s[1..]);
      BlankGrows(s, |s| - |Trim(s)|);
    } else {
      NothingIsBlank(s);
    }
  }

  lemma BlankGrows(s: string, k: nat)
    requires 0 < k <= |s| && IsSpace(s[0]) && IsBlank(s[1..][..k - 1])
    ensures IsBlank(s[..k]) && s[1..][k - 1..] == s[k..] && forall i :: 0 <= i < k ==> IsSpace(s[i])
  {
    hide IsSpace;
    var front := s[1..][..k - 1];
    assert s[..k] == [s[0]] + front;
    forall i | 0 <= i < k ensures IsSpace(s[i]) {
      assert i > 0 ==> s[i] == front[i - 1];
    }
  }

  lemma NothingIsBlank(s: string)
    ensures IsBlank(s[..0]) && s[0..] == s
  {
  }

  lemma {:induction false} TrimmedAway(s: string)
    ensures Trim(s) == "" <==> IsBlank(s)
    decreases |s|
  {
    if s != "" {
      TrimmedAway(s[1..]);
      assert forall i :: 0 < i < |s| ==> s[i] == s[1..][i - 1];
    }
  }

  lemma {:induction false} EndTrimmedAway(s: string)
    ensures TrimEnd(s) == "" <==> IsBlank(s)
    decreases |s|
  {
    if s != "" {
      var n := |s| - 1;
      EndTrimmedAway(s[..n]);
      assert IsBlank(s) <==> IsBlank(s[..n]) && IsSpace(s[n]);
    }
  }

  /** Stripping leaves nothing exactly of what is all white space. */
  lemma BlankIsStrippedAway(s: string)
    ensures Strip(s) == "" <==> IsBlank(s)
  {
    TrimmedAway(s);
    EndTrimmedAway(Trim(s));
    hide TrimEnd;
    if Trim(s) != "" {
      assert !IsSpace(Trim(s)[0]);
    }
  }
}
